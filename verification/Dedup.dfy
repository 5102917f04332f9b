/**
 The egress duplicate detector: a ring of inserted keys beside a map of expiry times. The map must
 answer what a scan of the insertion history would. With expiry off that is a sliding window; with
 expiry on, a key inserted again while its old ring cell lives loses its memory when that cell is
 overwritten, and the exact answer is stated.
 */
module Dedup {
  import opened Base
  import Grid

  datatype Key = Key(groupIdx: U32, subtreeId: Id32, seqNum: U64)

  /** The expiry times, every key ever inserted in order, and every call made. */
  datatype State = State(entries: map<Key, Time>, history: seq<Key>, calls: seq<(Key, Time)>)

  function Fresh(): State {
    State(map[], [], [])
  }

  function Expiry(ttl: Time, now: Time): Time {
    if ttl > 0 then now + ttl else now
  }

  /** The key is remembered and not stale. */
  predicate Hit(ttl: Time, st: State, key: Key, now: Time) {
    key in st.entries && (ttl <= 0 || st.entries[key] >= now)
  }

  /** seenAndAdd on a set of cap > 0 keys: a hit refreshes the expiry, a miss inserts the key. */
  function Offer(cap: nat, ttl: Time, st: State, key: Key, now: Time): State {
    var calls := st.calls + [(key, now)];
    if Hit(ttl, st, key, now) then
      st.(entries := st.entries[key := Expiry(ttl, now)], calls := calls)
    else
      var n := |st.history|;
      var kept := if n >= cap > 0 then st.entries - {st.history[n - cap]} else st.entries;
      State(kept[key := Expiry(ttl, now)], st.history + [key], calls)
  }

  function Run(cap: nat, ttl: Time, calls: seq<(Key, Time)>): State {
    if calls == [] then Fresh()
    else
      var c := calls[|calls| - 1];
      Offer(cap, ttl, Run(cap, ttl, calls[..|calls| - 1]), c.0, c.1)
  }

  // ----- what is remembered -----

  ghost predicate IsLast(h: seq<Key>, k: Key, l: nat) {
    l < |h| && h[l] == k && forall p :: l < p < |h| ==> h[p] != k
  }

  /** An earlier ring cell of k, alive when k was inserted at l, has been overwritten since. */
  ghost predicate Displaced(h: seq<Key>, cap: nat, k: Key, l: nat) {
    exists p :: 0 <= p < l && p < |h| && h[p] == k && l < p + cap < |h|
  }

  /** The latest insertion of k is still in the ring and no older cell of k was overwritten since. */
  ghost predicate Remembered(h: seq<Key>, cap: nat, k: Key) {
    exists l: nat :: IsLast(h, k, l) && |h| - cap <= l && !Displaced(h, cap, k, l)
  }

  /** The map holds exactly the remembered keys. */
  ghost predicate Exact(cap: nat, st: State) {
    forall k :: k in st.entries <==> Remembered(st.history, cap, k)
  }

  lemma NewestRemembered(h: seq<Key>, cap: nat, k: Key)
    requires cap > 0
    ensures Remembered(h + [k], cap, k)
  {
    assert IsLast(h + [k], k, |h|);
    assert !Displaced(h + [k], cap, k, |h|);
  }

  /** Another key's insertion forgets k exactly when it overwrites a cell of k. */
  lemma OthersRemembered(h: seq<Key>, cap: nat, x: Key, k: Key)
    requires cap > 0 && x != k
    ensures Remembered(h + [x], cap, k) <==>
            Remembered(h, cap, k) && (|h| >= cap ==> h[|h| - cap] != k)
  {
    var h' := h + [x];
    if Remembered(h', cap, k) {
      var l: nat :| IsLast(h', k, l) && |h'| - cap <= l && !Displaced(h', cap, k, l);
      assert forall p :: 0 <= p < |h| ==> h'[p] == h[p];
      assert IsLast(h, k, l);
      assert !Displaced(h, cap, k, l);
      if |h| >= cap && h[|h| - cap] == k {
        assert false;
      }
    }
    if Remembered(h, cap, k) && (|h| >= cap ==> h[|h| - cap] != k) {
      var l: nat :| IsLast(h, k, l) && |h| - cap <= l && !Displaced(h, cap, k, l);
      assert IsLast(h', k, l);
      forall p | 0 <= p < l && h'[p] == k
        ensures !(l < p + cap < |h'|)
      {
        assert h[p] == k;
      }
    }
  }

  lemma StepExact(cap: nat, ttl: Time, st: State, key: Key, now: Time)
    requires cap > 0 && Exact(cap, st)
    ensures Exact(cap, Offer(cap, ttl, st, key, now))
  {
    hide Remembered;
    var r := Offer(cap, ttl, st, key, now);
    if !Hit(ttl, st, key, now) {
      forall k
        ensures k in r.entries <==> Remembered(r.history, cap, k)
      {
        if k == key {
          NewestRemembered(st.history, cap, k);
        } else {
          OthersRemembered(st.history, cap, key, k);
        }
      }
    }
  }

  /**
   After any sequence of calls the map holds exactly the keys whose latest insertion is among the
   last cap ones and none of whose older cells was overwritten since.
   */
  lemma {:induction false} RunExact(cap: nat, ttl: Time, calls: seq<(Key, Time)>)
    requires cap > 0
    ensures Exact(cap, Run(cap, ttl, calls))
  {
    hide Remembered, Offer;
    if calls == [] {
      NothingRemembered(cap);
    } else {
      var c := calls[|calls| - 1];
      RunExact(cap, ttl, calls[..|calls| - 1]);
      StepExact(cap, ttl, Run(cap, ttl, calls[..|calls| - 1]), c.0, c.1);
    }
  }

  lemma NothingRemembered(cap: nat)
    ensures forall k :: !Remembered([], cap, k)
  {
  }

  // ----- expiry off: a sliding window -----

  /** The last cap keys inserted. */
  function Window(h: seq<Key>, cap: nat): seq<Key> {
    if |h| <= cap then h else h[|h| - cap..]
  }

  /** Equal keys are inserted at least cap insertions apart. */
  ghost predicate Spread(h: seq<Key>, cap: nat) {
    forall p, q :: 0 <= p < q < |h| && h[p] == h[q] ==> q - p >= cap
  }

  lemma InWindow(h: seq<Key>, cap: nat, p: nat)
    requires p < |h| && p >= |h| - cap
    ensures h[p] in Window(h, cap)
  {
    assert Window(h, cap)[p - (|h| - |Window(h, cap)|)] == h[p];
  }

  lemma FromWindow(h: seq<Key>, cap: nat, k: Key) returns (l: nat)
    requires k in Window(h, cap)
    ensures l < |h| && l >= |h| - cap && h[l] == k
  {
    var i :| 0 <= i < |Window(h, cap)| && Window(h, cap)[i] == k;
    l := i + (|h| - |Window(h, cap)|);
  }

  /** With equal keys far enough apart, remembering is being in the window. */
  lemma WindowIsRemembered(h: seq<Key>, cap: nat, k: Key)
    requires cap > 0 && Spread(h, cap)
    ensures Remembered(h, cap, k) <==> k in Window(h, cap)
  {
    hide Window;
    if Remembered(h, cap, k) {
      var l: nat :| IsLast(h, k, l) && |h| - cap <= l && !Displaced(h, cap, k, l);
      InWindow(h, cap, l);
    }
    if k in Window(h, cap) {
      var l := FromWindow(h, cap, k);
      assert IsLast(h, k, l);
      assert !Displaced(h, cap, k, l);
    }
  }

  lemma StepSpread(cap: nat, ttl: Time, st: State, key: Key, now: Time)
    requires cap > 0 && ttl <= 0 && Exact(cap, st) && Spread(st.history, cap)
    ensures Spread(Offer(cap, ttl, st, key, now).history, cap)
  {
    hide Remembered;
    if !Hit(ttl, st, key, now) {
      var h := st.history;
      WindowIsRemembered(h, cap, key);
      var h' := h + [key];
      forall p, q | 0 <= p < q < |h'| && h'[p] == h'[q]
        ensures q - p >= cap
      {
        if q == |h| && q - p < cap {
          InWindow(h, cap, p);
          assert false;
        }
      }
    }
  }

  lemma {:induction false} RunSpread(cap: nat, ttl: Time, calls: seq<(Key, Time)>)
    requires cap > 0 && ttl <= 0
    ensures Spread(Run(cap, ttl, calls).history, cap)
  {
    hide Offer, Exact;
    if calls != [] {
      var front, c := calls[..|calls| - 1], calls[|calls| - 1];
      RunSpread(cap, ttl, front);
      RunExact(cap, ttl, front);
      StepSpread(cap, ttl, Run(cap, ttl, front), c.0, c.1);
    }
  }

  /**
   With expiry off, a key is reported as a duplicate exactly when it is among the last cap keys
   inserted, whatever calls were made before.
   */
  lemma SlidingWindow(cap: nat, ttl: Time, calls: seq<(Key, Time)>, key: Key, now: Time)
    requires cap > 0 && ttl <= 0
    ensures var st := Run(cap, ttl, calls);
            Hit(ttl, st, key, now) <==> key in Window(st.history, cap)
  {
    hide Run, Remembered;
    var st := Run(cap, ttl, calls);
    RunExact(cap, ttl, calls);
    RunSpread(cap, ttl, calls);
    WindowIsRemembered(st.history, cap, key);
  }

  // ----- any expiry -----

  /** Call i is the latest one with the key. */
  ghost predicate Latest(calls: seq<(Key, Time)>, k: Key, i: nat) {
    i < |calls| && calls[i].0 == k && forall j :: i < j < |calls| ==> calls[j].0 != k
  }

  /** A remembered expiry is that of the latest call with its key. */
  lemma {:induction false} ExpiryIsLatest(cap: nat, ttl: Time, calls: seq<(Key, Time)>, k: Key)
    requires k in Run(cap, ttl, calls).entries
    ensures exists i: nat :: Latest(calls, k, i) && Run(cap, ttl, calls).entries[k] == Expiry(ttl, calls[i].1)
  {
    if calls != [] {
      var front, c := calls[..|calls| - 1], calls[|calls| - 1];
      if c.0 == k {
        assert Latest(calls, k, |calls| - 1);
      } else {
        ExpiryIsLatest(cap, ttl, front, k);
        var i: nat :| Latest(front, k, i) && Run(cap, ttl, front).entries[k] == Expiry(ttl, front[i].1);
        assert Latest(calls, k, i);
      }
    }
  }

  /**
   For any expiry setting and after any calls, a key is reported as a duplicate exactly when the map
   remembers it, in the sense of RunExact, and the latest call with it is no longer than ttl ago.
   */
  lemma HitExactlyWhen(cap: nat, ttl: Time, calls: seq<(Key, Time)>, key: Key, now: Time)
    requires cap > 0
    ensures Hit(ttl, Run(cap, ttl, calls), key, now) <==>
            && Remembered(Run(cap, ttl, calls).history, cap, key)
            && exists i: nat :: Latest(calls, key, i) && (ttl <= 0 || now <= calls[i].1 + ttl)
  {
    hide Run, Remembered;
    RunExact(cap, ttl, calls);
    if key in Run(cap, ttl, calls).entries {
      ExpiryIsLatest(cap, ttl, calls, key);
      var i: nat :| Latest(calls, key, i) && Run(cap, ttl, calls).entries[key] == Expiry(ttl, calls[i].1);
      assert forall j: nat :: Latest(calls, key, j) ==> j == i;
    }
  }

  /** A reported duplicate was passed before and, with expiry on, last no longer than ttl ago. */
  lemma DuplicatesArePassedBefore(cap: nat, ttl: Time, calls: seq<(Key, Time)>, key: Key, now: Time)
    requires Hit(ttl, Run(cap, ttl, calls), key, now)
    ensures exists i: nat :: Latest(calls, key, i) && (ttl > 0 ==> now <= calls[i].1 + ttl)
  {
    hide Run;
    ExpiryIsLatest(cap, ttl, calls, key);
  }

  /** Remembered keys are all in the window, so they never exceed the capacity. */
  lemma WithinCapacity(cap: nat, ttl: Time, calls: seq<(Key, Time)>)
    requires cap > 0
    ensures var st := Run(cap, ttl, calls);
            |st.entries| <= cap && forall k :: k in st.entries ==> k in Window(st.history, cap)
  {
    hide Run;
    var st := Run(cap, ttl, calls);
    RunExact(cap, ttl, calls);
    var w := Window(st.history, cap);
    forall k | k in st.entries
      ensures k in w
    {
      var l: nat :| IsLast(st.history, k, l) && |st.history| - cap <= l;
      InWindow(st.history, cap, l);
    }
    ElementsBound(w);
    SubsetSize(st.entries.Keys, Elements(w));
  }

  lemma {:induction false} ElementsBound(s: seq<Key>)
    ensures |Elements(s)| <= |s|
  {
    if s == [] {
      assert Elements(s) == {};
    } else {
      var rest := s[..|s| - 1];
      ElementsBound(rest);
      assert s == rest + [s[|s| - 1]];
      assert Elements(s) == Elements(rest) + {s[|s| - 1]};
    }
  }

  /**
   With expiry on the plain window is not what is computed: here a key passed 2 ticks ago (ttl 10)
   and among the last two insertions is reported as new, because its stale first cell took the
   memory with it.
   */
  lemma StaleCellForgets(a: Key, b: Key)
    requires a != b
    ensures var st := Run(2, 10, [(a, 0), (a, 20), (b, 21)]);
            a in Window(st.history, 2) && !Hit(10, st, a, 22)
  {
    var calls := [(a, 0), (a, 20), (b, 21)];
    var s1 := Offer(2, 10, Fresh(), a, 0);
    var s2 := Offer(2, 10, s1, a, 20);
    var s3 := Offer(2, 10, s2, b, 21);
    assert calls[..2][..1] == [(a, 0)] && calls[..2] == [(a, 0), (a, 20)];
    assert [(a, 0)][..0] == [];
    assert Run(2, 10, [(a, 0)]) == s1;
    assert Run(2, 10, calls[..2]) == s2;
    assert Run(2, 10, calls) == s3;
    assert s3.history == [a, a, b];
    assert Window(s3.history, 2) == [a, b];
    assert a in Window(s3.history, 2);
  }

  // ----- the ring -----

  class DedupSet {
    const capacity: nat
    const ttl: Time
    var entries: map<Key, Time>
    const ring: array<Key>
    var head: nat
    var count: nat
    ghost var history: seq<Key>
    ghost var calls: seq<(Key, Time)>

    ghost function View(): State
      reads this
    {
      State(entries, history, calls)
    }

    /** The ring holds the last count keys of the history, the oldest one at head once it is full. */
    ghost predicate Valid()
      reads this, ring
    {
      && ring.Length == capacity
      && count == Min(|history|, capacity)
      && (capacity > 0 ==> head == |history| % capacity)
      && (forall i :: 0 <= i < |history| && i >= |history| - capacity ==> ring[i % capacity] == history[i])
    }

    constructor (capacity: int, ttl: Time)
      ensures Valid() && View() == Fresh() && this.ttl == ttl
      ensures this.capacity == if capacity <= 0 then 0 else capacity
    {
      var n := if capacity <= 0 then 0 else capacity;
      this.capacity, this.ttl := n, ttl;
      entries, head, count := map[], 0, 0;
      ring := new Key[n](_ => Key(0, 0, 0));
      history, calls := [], [];
    }

    /** SeenAndAdd; a disabled set records nothing. */
    method SeenAndAdd(key: Key, now: Time) returns (seen: bool)
      requires Valid()
      modifies this, ring
      ensures Valid()
      ensures capacity == 0 ==> !seen && View() == old(View())
      ensures capacity > 0 ==>
                seen == Hit(ttl, old(View()), key, now) &&
                View() == Offer(capacity, ttl, old(View()), key, now)
    {
      if capacity == 0 {
        return false;
      }
      var expiry := if ttl > 0 then now + ttl else now;
      calls := calls + [(key, now)];
      if key in entries && (ttl <= 0 || entries[key] >= now) {
        entries := entries[key := expiry];
        return true;
      }
      Insert(key, expiry);
      return false;
    }

    /** The ring moves on by one cell, taking the key in it out of the map when the ring is full. */
    method Insert(key: Key, expiry: Time)
      requires Valid() && capacity > 0
      modifies this`entries, this`head, this`count, this`history, ring
      ensures Valid() && history == old(history) + [key]
      ensures var n := old(|history|);
              entries == (if n >= capacity then old(entries) - {old(history)[n - capacity]}
                          else old(entries))[key := expiry]
    {
      CellOfOldest(|history|, capacity);
      if count == capacity {
        var gone := ring[head];
        entries := entries - {gone};
      } else {
        count := count + 1;
      }
      ring[head] := key;
      head := (head + 1) % capacity;
      entries := entries[key := expiry];
      CellsMoveOn(|history|, capacity);
      history := history + [key];
    }
  }

  /** The cell about to be written is the one the oldest kept key sits in. */
  lemma CellOfOldest(n: nat, cap: nat)
    requires cap > 0
    ensures n >= cap ==> (n - cap) % cap == n % cap
    ensures n < cap ==> n % cap == n
  {
    if n >= cap {
      ModShift(n - cap, cap);
    }
  }

  lemma ModShift(a: nat, cap: nat)
    requires cap > 0
    ensures (a + cap) % cap == a % cap
  {
    var q := a / cap;
    assert a == cap * q + a % cap;
    assert cap * (q + 1) == cap * q + cap;
    ModIs(a + cap, cap, q + 1, a % cap);
  }

  /** Writing cell n % cap touches no other kept key, and the next cell follows. */
  lemma CellsMoveOn(n: nat, cap: nat)
    requires cap > 0
    ensures (n + 1) % cap == (n % cap + 1) % cap
    ensures forall i :: n - cap < i < n && i >= 0 ==> i % cap != n % cap
  {
    ModStep(n, cap);
    forall i | n - cap < i < n && i >= 0
      ensures i % cap != n % cap
    {
      DifferentCells(i, n, cap);
    }
  }

  lemma ModStep(n: nat, cap: nat)
    requires cap > 0
    ensures (n + 1) % cap == (n % cap + 1) % cap
  {
    var q := n / cap;
    assert n == cap * q + n % cap;
    if n % cap + 1 < cap {
      ModIs(n + 1, cap, q, n % cap + 1);
    } else {
      assert cap * (q + 1) == cap * q + cap;
      ModIs(n + 1, cap, q + 1, 0);
    }
  }

  lemma ModIs(n: nat, cap: nat, q: nat, r: nat)
    requires cap > 0 && n == cap * q + r && r < cap
    ensures n % cap == r
  {
    var e := n / cap;
    assert n == cap * e + n % cap;
    if e > q {
      assert cap * e == cap * q + cap * (e - q);
      Grid.AtLeastOnce(cap, e - q);
      assert false;
    } else if e < q {
      assert cap * q == cap * e + cap * (q - e);
      Grid.AtLeastOnce(cap, q - e);
      assert false;
    }
  }

  lemma DifferentCells(i: nat, n: nat, cap: nat)
    requires cap > 0 && i < n < i + cap
    ensures i % cap != n % cap
  {
    if i % cap == n % cap {
      var a, b := n / cap, i / cap;
      assert n == cap * a + n % cap && i == cap * b + i % cap;
      if a > b {
        assert cap * a == cap * b + cap * (a - b);
        Grid.AtLeastOnce(cap, a - b);
        assert false;
      } else {
        Grid.ScaleMonotone(a, b, cap);
        assert false;
      }
    }
  }
}
