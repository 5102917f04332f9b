/**
 Decode-once fan-out. Apply turns the consumer table into a shard index; Send and SendBundle walk
 the index. The index must reach whom a scan of the table would, and the members of a bundle split
 for consumers that cannot take bundles must carry fresh, strictly increasing sequence numbers.
 */
module Fanout {
  import opened Base

  datatype Consumer = Consumer(
    id: nat, shards: seq<U32>, filtered: bool, ownIp: nat, bundleCapable: bool, takesBundles: bool)

  datatype Frame = Frame(version: Byte, txId: Id32, subtreeId: Id32, hashKey: U64, seqNum: nat, payload: seq<Byte>)

  datatype Bundle = Bundle(groupIdx: U32, subtreeId: Id32, hashKey: U64, members: seq<Frame>)

  const VER_V2: Byte := 2

  /** What is not visible here: group derivation, subtree filters, the flow hash, the encoder. */
  datatype World = World(
    groupOf: Id32 -> U32,
    allow: (Consumer, U32, Frame) -> bool,
    flowHash: (nat, U32, Id32) -> U64,
    encodes: Frame -> bool)

  datatype Reply = Sent | NotElected | Failed(error: int)

  // ----- the index -----

  function Count(shards: seq<U32>, g: U32): nat {
    if shards == [] then 0 else Count(shards[..|shards| - 1], g) + (if shards[|shards| - 1] == g then 1 else 0)
  }

  function Copies<T>(x: T, n: nat): (r: seq<T>)
    ensures |r| == n && forall i :: 0 <= i < n ==> r[i] == x
  {
    seq(n, _ => x)
  }

  /** The consumers the index lists under a shard, in table order, once per mention of the shard. */
  function Bucket(table: seq<Consumer>, g: U32): seq<Consumer> {
    if table == [] then []
    else
      var c := table[|table| - 1];
      Bucket(table[..|table| - 1], g) + Copies(c, Count(c.shards, g))
  }

  /** The consumers without a shard restriction, in table order. */
  function Unrestricted(table: seq<Consumer>): seq<Consumer> {
    if table == [] then []
    else
      var c := table[|table| - 1];
      Unrestricted(table[..|table| - 1]) + (if c.shards == [] then [c] else [])
  }

  /** Whom the index routes group g to, in the order they are tried. */
  function Routed(table: seq<Consumer>, g: U32): seq<Consumer> {
    Bucket(table, g) + Unrestricted(table)
  }

  // ----- the scan -----

  predicate Subscribed(c: Consumer, g: U32) {
    c.shards == [] || g in c.shards
  }

  /** The subscribed consumers an unindexed walk of the table would find. */
  function Scan(table: seq<Consumer>, g: U32): seq<Consumer> {
    if table == [] then []
    else
      var c := table[|table| - 1];
      Scan(table[..|table| - 1], g) + (if Subscribed(c, g) then [c] else [])
  }

  function Occurrences(table: seq<Consumer>, c: Consumer): nat {
    if table == [] then 0 else Occurrences(table[..|table| - 1], c) + (if table[|table| - 1] == c then 1 else 0)
  }

  /** How often the index reaches one table entry: once if unrestricted, else once per mention. */
  function Weight(c: Consumer, g: U32): nat {
    if c.shards == [] then 1 else Count(c.shards, g)
  }

  lemma CopiesOf(c: Consumer, n: nat, x: Consumer)
    ensures multiset(Copies(c, n))[x] == if x == c then n else 0
  {
    if n == 0 {
      assert Copies(c, n) == [];
    } else {
      CopiesOf(c, n - 1, x);
      assert Copies(c, n) == Copies(c, n - 1) + [c];
    }
  }

  /** Every entry of the table is reached exactly as often as its weight says. */
  lemma {:induction false} ReachedByWeight(table: seq<Consumer>, g: U32, x: Consumer)
    ensures multiset(Routed(table, g))[x] == Occurrences(table, x) * Weight(x, g)
  {
    hide Routed, Weight;
    if table == [] {
      RoutedNone(g);
    } else {
      var front := table[..|table| - 1];
      ReachedByWeight(front, g, x);
      RoutedSnoc(table, g, x);
      OnceMore(Occurrences(front, x), Weight(x, g));
    }
  }

  lemma RoutedNone(g: U32)
    ensures Routed([], g) == []
  {
  }

  lemma OnceMore(n: nat, w: nat)
    ensures (n + 1) * w == n * w + w && 0 * w == 0
  {
  }

  lemma RoutedSnoc(table: seq<Consumer>, g: U32, x: Consumer)
    requires table != []
    ensures var front, c := table[..|table| - 1], table[|table| - 1];
            multiset(Routed(table, g))[x] == multiset(Routed(front, g))[x] + (if x == c then Weight(c, g) else 0)
  {
    hide Copies;
    var front, c := table[..|table| - 1], table[|table| - 1];
    CopiesOf(c, Count(c.shards, g), x);
    var a, b := Bucket(front, g), Unrestricted(front);
    var p, q := Copies(c, Count(c.shards, g)), if c.shards == [] then [c] else [];
    assert Routed(table, g) == (a + p) + (b + q);
    assert multiset(Routed(table, g)) == multiset(a) + multiset(p) + multiset(b) + multiset(q);
    assert multiset(Routed(front, g)) == multiset(a) + multiset(b);
  }

  lemma {:induction false} ScannedOnce(table: seq<Consumer>, g: U32, x: Consumer)
    ensures multiset(Scan(table, g))[x] == if Subscribed(x, g) then Occurrences(table, x) else 0
  {
    if table != [] {
      ScannedOnce(table[..|table| - 1], g, x);
    }
  }

  lemma {:induction false} CountPositive(shards: seq<U32>, g: U32)
    ensures Count(shards, g) > 0 <==> g in shards
    ensures NoDup(shards) ==> Count(shards, g) <= 1
  {
    if shards != [] {
      var front, last := shards[..|shards| - 1], shards[|shards| - 1];
      CountPositive(front, g);
      assert shards == front + [last];
    }
  }

  /** The index lists nobody the scan would not find, and everybody it would. */
  lemma WeightIsSubscription(c: Consumer, g: U32)
    ensures Weight(c, g) > 0 <==> Subscribed(c, g)
    ensures NoDup(c.shards) ==> Weight(c, g) <= 1
  {
    CountPositive(c.shards, g);
  }

  /**
   The index and the scan reach the same consumers equally often exactly when no consumer in the
   table mentions the group more than once.
   */
  lemma IndexIsScan(table: seq<Consumer>, g: U32)
    ensures multiset(Routed(table, g)) == multiset(Scan(table, g)) <==>
            forall c :: c in table ==> Count(c.shards, g) <= 1
  {
    hide Routed, Scan, Occurrences, Weight, Count;
    if forall c :: c in table ==> Count(c.shards, g) <= 1 {
      forall x
        ensures multiset(Routed(table, g))[x] == multiset(Scan(table, g))[x]
      {
        AgreeOn(table, g, x);
      }
      assert multiset(Routed(table, g)) == multiset(Scan(table, g));
    }
    if multiset(Routed(table, g)) == multiset(Scan(table, g)) {
      forall c | c in table
        ensures Count(c.shards, g) <= 1
      {
        AgreeOn(table, g, c);
      }
    }
  }

  /** For one consumer of the table the two agree exactly when it mentions the group at most once. */
  lemma AgreeOn(table: seq<Consumer>, g: U32, x: Consumer)
    ensures x !in table || Count(x.shards, g) <= 1 <==>
            multiset(Routed(table, g))[x] == multiset(Scan(table, g))[x]
  {
    hide Routed, Scan;
    ReachedByWeight(table, g, x);
    ScannedOnce(table, g, x);
    WeightIsSubscription(x, g);
    OccursIfIn(table, x);
    TimesIsSelf(Occurrences(table, x), Weight(x, g));
  }

  lemma TimesIsSelf(n: nat, w: nat)
    ensures n > 0 ==> (n * w == n <==> w == 1)
    ensures n > 0 ==> (n * w == 0 <==> w == 0)
  {
    if n > 0 && w >= 2 {
      assert n * w == 2 * n + n * (w - 2);
    }
  }

  lemma {:induction false} OccursIfIn(table: seq<Consumer>, x: Consumer)
    ensures Occurrences(table, x) > 0 <==> x in table
  {
    if table != [] {
      var front, last := table[..|table| - 1], table[|table| - 1];
      OccursIfIn(front, x);
      assert table == front + [last];
    }
  }

  /** A consumer that lists one shard twice gets every frame of it twice. */
  lemma RepeatedShardDoubles(c: Consumer)
    requires c.shards == [7, 7]
    ensures Routed([c], 7) == [c, c] && Scan([c], 7) == [c]
  {
    assert [7, 7][..1] == [7] && [7][..0] == [];
    assert Count([7], 7) == 1;
    assert Count(c.shards, 7) == 2;
    assert [c][..0] == [];
    assert Bucket([c], 7) == Copies(c, 2) == [c, c];
    assert Unrestricted([c]) == [];
  }

  // ----- delivery -----

  predicate OwnTraffic(w: World, c: Consumer, g: U32, f: Frame) {
    c.ownIp != 0 && f.version == VER_V2 && f.hashKey == w.flowHash(c.ownIp, g, f.subtreeId)
  }

  predicate OwnBundle(w: World, c: Consumer, g: U32, b: Bundle) {
    c.ownIp != 0 && b.hashKey == w.flowHash(c.ownIp, g, b.subtreeId)
  }

  predicate Passes(w: World, c: Consumer, g: U32, f: Frame) {
    (!c.filtered || w.allow(c, g, f)) && !OwnTraffic(w, c, g, f)
  }

  /** Those of list the frame is handed to. */
  function Recipients(w: World, list: seq<Consumer>, g: U32, f: Frame): seq<Consumer> {
    if list == [] then []
    else
      var c := list[|list| - 1];
      Recipients(w, list[..|list| - 1], g, f) + (if Passes(w, c, g, f) then [c] else [])
  }

  lemma {:induction false} RecipientsCount(w: World, list: seq<Consumer>, g: U32, f: Frame, x: Consumer)
    ensures multiset(Recipients(w, list, g, f))[x] == if Passes(w, x, g, f) then multiset(list)[x] else 0
  {
    if list != [] {
      var front, last := list[..|list| - 1], list[|list| - 1];
      RecipientsCount(w, front, g, f, x);
      assert list == front + [last];
    }
  }

  /**
   Send over the index hands the frame to exactly those, and exactly as often, as a scan of the
   whole table would, when no consumer mentions the frame's group twice.
   */
  lemma SendReachesTheScan(w: World, table: seq<Consumer>, f: Frame)
    requires forall c :: c in table ==> Count(c.shards, w.groupOf(f.txId)) <= 1
    ensures var g := w.groupOf(f.txId);
            multiset(Recipients(w, Routed(table, g), g, f)) == multiset(Recipients(w, Scan(table, g), g, f))
  {
    hide Routed, Scan, Recipients, Passes, Count;
    var g := w.groupOf(f.txId);
    IndexIsScan(table, g);
    forall x
      ensures multiset(Recipients(w, Routed(table, g), g, f))[x] == multiset(Recipients(w, Scan(table, g), g, f))[x]
    {
      RecipientsCount(w, Routed(table, g), g, f, x);
      RecipientsCount(w, Scan(table, g), g, f, x);
    }
  }

  /** How often the index routes group g to consumer x: for each place in the table, once per mention, or once if unrestricted. */
  function Times(table: seq<Consumer>, g: U32, x: Consumer): nat {
    Occurrences(table, x) * (if x.shards == [] then 1 else Count(x.shards, g))
  }

  /** The consumer's filter, where it has one, admits the frame, and it is not a version 2 frame of its own flow. */
  predicate Deserves(w: World, x: Consumer, f: Frame) {
    var g := w.groupOf(f.txId);
    && (!x.filtered || w.allow(x, g, f))
    && !(x.ownIp != 0 && f.version == 2 && f.hashKey == w.flowHash(x.ownIp, g, f.subtreeId))
  }

  /**
   Every consumer gets the frame as often as it is routed to, if it deserves the frame, and otherwise never.
   */
  lemma ReachesExactly(w: World, table: seq<Consumer>, f: Frame, x: Consumer)
    ensures var g := w.groupOf(f.txId);
            multiset(Recipients(w, Routed(table, g), g, f))[x] == if Deserves(w, x, f) then Times(table, g, x) else 0
  {
    hide Routed, Recipients, Occurrences, Count;
    var g := w.groupOf(f.txId);
    RecipientsCount(w, Routed(table, g), g, f, x);
    ReachedByWeight(table, g, x);
  }

  /** The first of the replies that is a real failure. */
  function FirstError(replies: seq<Reply>): Option<int> {
    if replies == [] then None
    else
      var front := FirstError(replies[..|replies| - 1]);
      if front.Some? then front
      else if replies[|replies| - 1].Failed? then Some(replies[|replies| - 1].error)
      else None
  }

  /** The error reported is that of the earliest failure; not being elected is no failure. */
  lemma {:induction false} FirstErrorIsFirst(replies: seq<Reply>, i: nat)
    requires i < |replies| && replies[i].Failed? && forall j :: 0 <= j < i ==> !replies[j].Failed?
    ensures FirstError(replies) == Some(replies[i].error)
  {
    var front := replies[..|replies| - 1];
    if i < |front| {
      FirstErrorIsFirst(front, i);
    } else {
      NoErrorIfNone(front);
    }
  }

  lemma {:induction false} NoErrorIfNone(replies: seq<Reply>)
    ensures FirstError(replies).None? <==> forall i :: 0 <= i < |replies| ==> !replies[i].Failed?
  {
    if replies != [] {
      NoErrorIfNone(replies[..|replies| - 1]);
    }
  }

  // ----- decoalescing -----

  /** The members of a bundle, numbered on from n; one the encoder refuses is left out. */
  function Stamped(w: World, members: seq<Frame>, n: nat): seq<Frame> {
    if members == [] then []
    else
      var k := |members| - 1;
      var m := members[k].(seqNum := n + k + 1);
      Stamped(w, members[..k], n) + (if w.encodes(m) then [m] else [])
  }

  function Counter(seqs: map<U64, nat>, hk: U64): nat {
    if hk in seqs then seqs[hk] else 0
  }

  ghost predicate Increasing(fs: seq<Frame>, lo: nat, hi: nat) {
    && (forall i :: 0 <= i < |fs| ==> lo < fs[i].seqNum <= hi)
    && (forall i, j :: 0 <= i < j < |fs| ==> fs[i].seqNum < fs[j].seqNum)
  }

  lemma {:induction false} StampedIncrease(w: World, members: seq<Frame>, n: nat)
    ensures Increasing(Stamped(w, members, n), n, n + |members|)
  {
    if members != [] {
      StampedIncrease(w, members[..|members| - 1], n);
    }
  }

  /** fs are the members at the positions idx, each numbered n plus its place in the bundle; idx is where the encoder works. */
  ghost predicate Picks(w: World, members: seq<Frame>, n: nat, fs: seq<Frame>, idx: seq<nat>) {
    && |idx| == |fs|
    && (forall j :: 0 <= j < |idx| ==> idx[j] < |members| && fs[j] == members[idx[j]].(seqNum := n + idx[j] + 1))
    && (forall i, j :: 0 <= i < j < |idx| ==> idx[i] < idx[j])
    && (forall i: nat :: i < |members| ==> (i in idx <==> w.encodes(members[i].(seqNum := n + i + 1))))
  }

  /** fs are exactly the members the encoder takes, in bundle order and numbered on from n. */
  ghost predicate Numbered(w: World, members: seq<Frame>, n: nat, fs: seq<Frame>) {
    exists idx :: Picks(w, members, n, fs, idx)
  }

  lemma PicksNext(w: World, members: seq<Frame>, n: nat, fs: seq<Frame>, idx: seq<nat>)
    requires members != [] && Picks(w, members[..|members| - 1], n, fs, idx)
    ensures var k := |members| - 1;
            var m := members[k].(seqNum := n + k + 1);
            if w.encodes(m) then Picks(w, members, n, fs + [m], idx + [k]) else Picks(w, members, n, fs, idx)
  {
    var k := |members| - 1;
    assert forall i: nat :: i < k ==> members[..k][i] == members[i];
    assert k !in idx;
    assert forall i: nat :: i in idx + [k] <==> i in idx || i == k;
  }

  lemma {:induction false} StampedIsNumbered(w: World, members: seq<Frame>, n: nat)
    ensures Numbered(w, members, n, Stamped(w, members, n))
  {
    if members == [] {
      assert Picks(w, members, n, [], []);
    } else {
      var front := members[..|members| - 1];
      StampedIsNumbered(w, front, n);
      var k, fs := |members| - 1, Stamped(w, front, n);
      var idx :| Picks(w, front, n, fs, idx);
      PicksNext(w, members, n, fs, idx);
      hide Picks;
      assert Picks(w, members, n, Stamped(w, members, n), idx) || Picks(w, members, n, Stamped(w, members, n), idx + [k]);
    }
  }

  /** The members stamped for flow hk over a run of split bundles. */
  function StampedInRun(w: World, bundles: seq<Bundle>, hk: U64): (seq<Frame>, nat) {
    if bundles == [] then ([], 0)
    else
      var (fs, n) := StampedInRun(w, bundles[..|bundles| - 1], hk);
      var b := bundles[|bundles| - 1];
      if b.hashKey == hk then (fs + Stamped(w, b.members, n), n + |b.members|) else (fs, n)
  }

  /**
   Over any run of split bundles, the numbers given to one flow's members strictly increase, from one
   bundle to the next as within each, whatever other flows are split in between.
   */
  lemma {:induction false} NumbersIncreaseOverRuns(w: World, bundles: seq<Bundle>, hk: U64)
    ensures var (fs, n) := StampedInRun(w, bundles, hk);
            Increasing(fs, 0, n)
  {
    if bundles != [] {
      NumbersIncreaseOverRuns(w, bundles[..|bundles| - 1], hk);
      var (fs, n) := StampedInRun(w, bundles[..|bundles| - 1], hk);
      StampedIncrease(w, bundles[|bundles| - 1].members, n);
    }
  }

  /** The egress counters after a run of split bundles. */
  function CountersAfter(bundles: seq<Bundle>): map<U64, nat> {
    if bundles == [] then map[]
    else Advanced(CountersAfter(bundles[..|bundles| - 1]), bundles[|bundles| - 1])
  }

  /** The counter a bundle is numbered on from is the last number its flow was given. */
  lemma {:induction false} CounterIsLastNumber(w: World, bundles: seq<Bundle>, hk: U64)
    ensures Counter(CountersAfter(bundles), hk) == StampedInRun(w, bundles, hk).1
  {
    hide Stamped;
    if bundles != [] {
      CounterIsLastNumber(w, bundles[..|bundles| - 1], hk);
    }
  }

  // ----- bundles -----

  datatype Handover = Whole(to: Consumer) | Member(to: Consumer, f: Frame)

  function Probe(b: Bundle): Frame {
    Frame(VER_V2, 0, b.subtreeId, b.hashKey, 0, [])
  }

  predicate TakesBundle(w: World, c: Consumer, b: Bundle) {
    (!c.filtered || w.allow(c, b.groupIdx, Probe(b))) && !OwnBundle(w, c, b.groupIdx, b)
  }

  predicate Capable(c: Consumer) {
    c.bundleCapable && c.takesBundles
  }

  function MembersTo(c: Consumer, members: seq<Frame>): seq<Handover> {
    if members == [] then []
    else MembersTo(c, members[..|members| - 1]) + [Member(c, members[|members| - 1])]
  }

  /** What is handed over for a bundle, given its stamped members. */
  function Handovers(w: World, list: seq<Consumer>, b: Bundle, members: seq<Frame>): seq<Handover> {
    if list == [] then []
    else
      var c := list[|list| - 1];
      Handovers(w, list[..|list| - 1], b, members) +
      (if !TakesBundle(w, c, b) then [] else if Capable(c) then [Whole(c)] else MembersTo(c, members))
  }

  /** The bundle has to be split for someone. */
  predicate Splits(w: World, list: seq<Consumer>, b: Bundle) {
    exists i :: 0 <= i < |list| && TakesBundle(w, list[i], b) && !Capable(list[i])
  }

  // ----- who gets what of a bundle -----

  /** The consumer is subscribed to the bundle's group, its filter admits the bundle, and it is not its own. */
  predicate Admitted(w: World, x: Consumer, b: Bundle) {
    && (x.shards == [] || b.groupIdx in x.shards)
    && (!x.filtered || w.allow(x, b.groupIdx, Frame(2, 0, b.subtreeId, b.hashKey, 0, [])))
    && !(x.ownIp != 0 && b.hashKey == w.flowHash(x.ownIp, b.groupIdx, b.subtreeId))
  }

  /** The members handed to x one by one, in order. */
  function MembersFor(given: seq<Handover>, x: Consumer): seq<Frame> {
    if given == [] then []
    else
      var h := given[|given| - 1];
      MembersFor(given[..|given| - 1], x) + (if h.Member? && h.to == x then [h.f] else [])
  }

  /** How often the bundle is handed to x whole. */
  function WholesFor(given: seq<Handover>, x: Consumer): nat {
    if given == [] then 0
    else WholesFor(given[..|given| - 1], x) + (if given[|given| - 1] == Whole(x) then 1 else 0)
  }

  function Repeated(fs: seq<Frame>, n: nat): seq<Frame> {
    if n == 0 then [] else Repeated(fs, n - 1) + fs
  }

  /**
   A consumer that can and wants to take bundles gets the bundle whole, as often as it is routed to, and no
   member; any other gets the members fs that often, in order, and no bundle; one not admitted gets nothing.
   */
  ghost predicate GetsItsShare(w: World, table: seq<Consumer>, b: Bundle, fs: seq<Frame>, given: seq<Handover>,
                               x: Consumer)
  {
    var times := Times(table, b.groupIdx, x);
    var whole := x.bundleCapable && x.takesBundles;
    && WholesFor(given, x) == (if Admitted(w, x, b) && whole then times else 0)
    && MembersFor(given, x) == (if Admitted(w, x, b) && !whole then Repeated(fs, times) else [])
  }

  /** Someone in the table is admitted and has to be given the members. */
  predicate NeedsMembers(w: World, table: seq<Consumer>, b: Bundle) {
    exists x :: x in table && Admitted(w, x, b) && !(x.bundleCapable && x.takesBundles)
  }

  lemma {:induction false} MembersForAppend(a: seq<Handover>, b: seq<Handover>, x: Consumer)
    ensures MembersFor(a + b, x) == MembersFor(a, x) + MembersFor(b, x)
    ensures WholesFor(a + b, x) == WholesFor(a, x) + WholesFor(b, x)
  {
    if b == [] {
      assert a + b == a;
    } else {
      assert (a + b)[..|a + b| - 1] == a + b[..|b| - 1];
      MembersForAppend(a, b[..|b| - 1], x);
    }
  }

  lemma {:induction false} MembersToAre(c: Consumer, members: seq<Frame>, x: Consumer)
    ensures MembersFor(MembersTo(c, members), x) == if c == x then members else []
    ensures WholesFor(MembersTo(c, members), x) == 0
  {
    if members != [] {
      var front, last := members[..|members| - 1], members[|members| - 1];
      MembersToAre(c, front, x);
      var to := MembersTo(c, members);
      assert to[..|to| - 1] == MembersTo(c, front);
      assert members == front + [last];
    }
  }

  lemma OneWhole(c: Consumer, x: Consumer)
    ensures MembersFor([Whole(c)], x) == [] && WholesFor([Whole(c)], x) == if c == x then 1 else 0
  {
    assert [Whole(c)][..0] == [];
  }

  /** What the walk over list hands to x. */
  lemma {:induction false} HandoversFor(w: World, list: seq<Consumer>, b: Bundle, members: seq<Frame>, x: Consumer)
    ensures var given := Handovers(w, list, b, members);
            && WholesFor(given, x) == (if TakesBundle(w, x, b) && Capable(x) then Occurrences(list, x) else 0)
            && MembersFor(given, x) ==
               (if TakesBundle(w, x, b) && !Capable(x) then Repeated(members, Occurrences(list, x)) else [])
  {
    hide TakesBundle, Capable, MembersTo, MembersFor, WholesFor;
    if list == [] {
      NothingGiven(x);
    } else {
      var front, c := list[..|list| - 1], list[|list| - 1];
      HandoversFor(w, front, b, members, x);
      var part := if !TakesBundle(w, c, b) then [] else if Capable(c) then [Whole(c)] else MembersTo(c, members);
      MembersForAppend(Handovers(w, front, b, members), part, x);
      MembersToAre(c, members, x);
      OneWhole(c, x);
      NothingGiven(x);
    }
  }

  lemma NothingGiven(x: Consumer)
    ensures MembersFor([], x) == [] && WholesFor([], x) == 0
  {
  }

  lemma {:induction false} OccurrencesCount(list: seq<Consumer>, x: Consumer)
    ensures Occurrences(list, x) == multiset(list)[x]
  {
    if list != [] {
      var front, last := list[..|list| - 1], list[|list| - 1];
      OccurrencesCount(front, x);
      assert list == front + [last];
    }
  }

  lemma RoutedNever(table: seq<Consumer>, g: U32, x: Consumer)
    ensures Times(table, g, x) > 0 <==> x in table && (x.shards == [] || g in x.shards)
    ensures x in Routed(table, g) <==> Times(table, g, x) > 0
  {
    hide Routed, Occurrences, Count;
    OccursIfIn(table, x);
    CountPositive(x.shards, g);
    ReachedByWeight(table, g, x);
    TimesIsSelf(Occurrences(table, x), Weight(x, g));
    assert x in Routed(table, g) <==> multiset(Routed(table, g))[x] > 0;
  }

  lemma NoneRepeated(fs: seq<Frame>)
    ensures Repeated(fs, 0) == []
  {
  }

  /** Over the index every consumer gets its share of the bundle. */
  lemma HandoversAreShares(w: World, table: seq<Consumer>, b: Bundle, fs: seq<Frame>, x: Consumer)
    ensures GetsItsShare(w, table, b, fs, Handovers(w, Routed(table, b.groupIdx), b, fs), x)
  {
    hide Routed, Handovers, MembersFor, WholesFor, Occurrences, Count, Repeated;
    HandoversFor(w, Routed(table, b.groupIdx), b, fs, x);
    OccurrencesCount(Routed(table, b.groupIdx), x);
    NoneRepeated(fs);
    ReachedByWeight(table, b.groupIdx, x);
    RoutedNever(table, b.groupIdx, x);
  }

  /** The bundle is split exactly when someone admitted needs its members. */
  lemma SplitsExactlyWhen(w: World, table: seq<Consumer>, b: Bundle)
    ensures Splits(w, Routed(table, b.groupIdx), b) <==> NeedsMembers(w, table, b)
  {
    hide Routed, Times;
    var list := Routed(table, b.groupIdx);
    if Splits(w, list, b) {
      var i :| 0 <= i < |list| && TakesBundle(w, list[i], b) && !Capable(list[i]);
      RoutedNever(table, b.groupIdx, list[i]);
      assert Admitted(w, list[i], b);
    }
    if NeedsMembers(w, table, b) {
      var x :| x in table && Admitted(w, x, b) && !(x.bundleCapable && x.takesBundles);
      RoutedNever(table, b.groupIdx, x);
      var i :| 0 <= i < |list| && list[i] == x;
      assert TakesBundle(w, list[i], b) && !Capable(list[i]);
    }
  }

  // ----- the sink -----

  class Sink {
    var consumers: seq<Consumer>
    var byShard: map<U32, seq<Consumer>>
    var allShards: seq<Consumer>
    var egressSeq: map<U64, nat>

    /** The index is the one the table calls for. */
    ghost predicate Valid()
      reads this
    {
      && (forall g: U32 :: Listed(byShard, g) == Bucket(consumers, g))
      && allShards == Unrestricted(consumers)
    }

    constructor ()
      ensures Valid() && consumers == [] && egressSeq == map[]
    {
      consumers, byShard, allShards, egressSeq := [], map[], [], map[];
    }

    /** Apply: replace the table and rebuild the index. */
    method Apply(table: seq<Consumer>)
      modifies this`consumers, this`byShard, this`allShards
      ensures Valid() && consumers == table
    {
      hide Bucket, Unrestricted, Copies, Count;
      var index: map<U32, seq<Consumer>>, all: seq<Consumer> := map[], [];
      IndexNone(table);
      for i := 0 to |table|
        invariant forall g: U32 :: Listed(index, g) == Bucket(table[..i], g)
        invariant all == Unrestricted(table[..i])
      {
        var c := table[i];
        IndexNext(table, i);
        if |c.shards| == 0 {
          all := all + [c];
        } else {
          index := AddMentions(index, c);
        }
      }
      assert table[..|table|] == table;
      consumers, byShard, allShards := table, index, all;
    }

    /**
     Send: hand the frame to everyone the index lists whose filter admits it and whose own traffic it
     is not, past any error; ask tells what the n-th handover comes back with.
     */
    method Send(w: World, f: Frame, ask: nat -> Reply) returns (sent: seq<Consumer>, err: Option<int>)
      requires Valid()
      ensures sent == Recipients(w, Routed(consumers, w.groupOf(f.txId)), w.groupOf(f.txId), f)
      ensures forall x :: multiset(sent)[x] == if Deserves(w, x, f) then Times(consumers, w.groupOf(f.txId), x) else 0
      ensures err == FirstError(Asked(ask, |sent|))
    {
      hide Recipients, FirstError, Bucket, Unrestricted, Asked, Times, Deserves;
      var g := w.groupOf(f.txId);
      var list := Listed(byShard, g) + allShards;
      RecipientsSteps(w, list, g, f);
      NothingAsked(ask);
      sent, err := [], None;
      for i := 0 to |list|
        invariant sent == Recipients(w, list[..i], g, f)
        invariant err == FirstError(Asked(ask, |sent|))
      {
        var c := list[i];
        if c.filtered && !w.allow(c, g, f) {
          continue;
        }
        if OwnTraffic(w, c, g, f) {
          continue;
        }
        var reply := ask(|sent|);
        ErrorStep(ask, |sent|);
        sent := sent + [c];
        if reply.Failed? && err.None? {
          err := Some(reply.error);
        }
      }
      forall x {
        ReachesExactly(w, consumers, f, x);
      }
    }

    /** decoalesce: number the members on from the flow's counter, which advances past every one of them. */
    method Decoalesce(w: World, b: Bundle) returns (out: seq<Frame>)
      modifies this`egressSeq
      ensures out == Stamped(w, b.members, Counter(old(egressSeq), b.hashKey))
      ensures Numbered(w, b.members, Counter(old(egressSeq), b.hashKey), out)
      ensures egressSeq == Advanced(old(egressSeq), b)
    {
      hide Numbered, Stamped;
      out := [];
      ghost var n := Counter(egressSeq, b.hashKey);
      StampedNone(w, b.members, n);
      for i := 0 to |b.members|
        invariant out == Stamped(w, b.members[..i], n)
        invariant egressSeq == if i == 0 then old(egressSeq) else old(egressSeq)[b.hashKey := n + i]
      {
        StampedNext(w, b.members, n, i);
        egressSeq := egressSeq[b.hashKey := Counter(egressSeq, b.hashKey) + 1];
        var m := b.members[i].(seqNum := egressSeq[b.hashKey]);
        if w.encodes(m) {
          out := out + [m];
        }
      }
      assert b.members[..|b.members|] == b.members;
      StampedIsNumbered(w, b.members, n);
    }

    /**
     SendBundle: whole to the capable, member by member to the rest. The bundle is split at most once,
     when the first consumer needs it, so all of them share the same numbers.
     */
    method SendBundle(w: World, b: Bundle, ask: nat -> Reply) returns (given: seq<Handover>, err: Option<int>)
      requires Valid()
      modifies this`egressSeq
      ensures Valid()
      ensures var list := Routed(consumers, b.groupIdx);
              && given == Handovers(w, list, b, Stamped(w, b.members, Counter(old(egressSeq), b.hashKey)))
              && egressSeq == if Splits(w, list, b) then Advanced(old(egressSeq), b) else old(egressSeq)
      ensures exists fs :: Numbered(w, b.members, Counter(old(egressSeq), b.hashKey), fs) &&
                           forall x :: GetsItsShare(w, consumers, b, fs, given, x)
      ensures egressSeq == if b.members != [] && NeedsMembers(w, consumers, b)
                           then old(egressSeq)[b.hashKey := Counter(old(egressSeq), b.hashKey) + |b.members|]
                           else old(egressSeq)
      ensures err == FirstError(Asked(ask, |given|))
    {
      hide Handovers, Splits, Stamped, FirstError, Bucket, Unrestricted, Asked, Advanced, MembersTo, Numbered,
           GetsItsShare, NeedsMembers;
      ghost var stamped := Stamped(w, b.members, Counter(egressSeq, b.hashKey));
      var list := Listed(byShard, b.groupIdx) + allShards;
      HandoverSteps(w, list, b, stamped);
      NothingAsked(ask);
      var members: Option<seq<Frame>> := None;
      given, err := [], None;
      for i := 0 to |list|
        invariant Valid()
        invariant given == Handovers(w, list[..i], b, stamped)
        invariant members == if Splits(w, list[..i], b) then Some(stamped) else None
        invariant egressSeq == if members.Some? then Advanced(old(egressSeq), b) else old(egressSeq)
        invariant err == FirstError(Asked(ask, |given|))
      {
        var c := list[i];
        if c.filtered && !w.allow(c, b.groupIdx, Probe(b)) {
          continue;
        }
        if OwnBundle(w, c, b.groupIdx, b) {
          continue;
        }
        if c.bundleCapable && c.takesBundles {
          var reply := ask(|given|);
          ErrorStep(ask, |given|);
          given := given + [Whole(c)];
          if reply.Failed? && err.None? {
            err := Some(reply.error);
          }
          continue;
        }
        if members.None? {
          var split := Decoalesce(w, b);
          members := Some(split);
        }
        given, err := HandMembers(c, members.value, given, err, ask);
      }
      BundleShared(w, consumers, b, old(egressSeq));
    }
  }

  function Listed(index: map<U32, seq<Consumer>>, g: U32): seq<Consumer> {
    if g in index then index[g] else []
  }

  lemma IndexNone(table: seq<Consumer>)
    ensures Unrestricted(table[..0]) == [] && forall g: U32 :: Bucket(table[..0], g) == []
  {
  }

  /** One more consumer goes under each shard it mentions, or into the list of the unrestricted. */
  lemma IndexNext(table: seq<Consumer>, i: nat)
    requires i < |table|
    ensures var c := table[i];
            && Unrestricted(table[..i + 1]) == Unrestricted(table[..i]) + (if c.shards == [] then [c] else [])
            && (forall g: U32 :: Bucket(table[..i + 1], g) == Bucket(table[..i], g) + Copies(c, Count(c.shards, g)))
            && (c.shards == [] ==> forall g: U32 :: Bucket(table[..i + 1], g) == Bucket(table[..i], g))
  {
    assert table[..i + 1][..i] == table[..i];
  }

  /** File a consumer under each shard it mentions, once per mention. */
  method AddMentions(index: map<U32, seq<Consumer>>, c: Consumer) returns (r: map<U32, seq<Consumer>>)
    ensures forall g: U32 :: Listed(r, g) == Listed(index, g) + Copies(c, Count(c.shards, g))
  {
    hide Copies, Count;
    r := index;
    MentionNone(index, c);
    for j := 0 to |c.shards|
      invariant forall g: U32 :: Listed(r, g) == Listed(index, g) + Copies(c, Count(c.shards[..j], g))
    {
      var sh := c.shards[j];
      CountSnoc(c.shards, j);
      CopiesNext(c, Count(c.shards[..j], sh));
      r := r[sh := Listed(r, sh) + [c]];
    }
    assert c.shards[..|c.shards|] == c.shards;
  }

  lemma CountSnoc(shards: seq<U32>, j: nat)
    requires j < |shards|
    ensures forall g: U32 :: Count(shards[..j + 1], g) == Count(shards[..j], g) + (if shards[j] == g then 1 else 0)
  {
    assert shards[..j + 1][..j] == shards[..j];
  }

  lemma CopiesNext(c: Consumer, n: nat)
    ensures Copies(c, n + 1) == Copies(c, n) + [c]
  {
  }

  lemma MentionNone(index: map<U32, seq<Consumer>>, c: Consumer)
    ensures forall g: U32 :: Listed(index, g) == Listed(index, g) + Copies(c, Count(c.shards[..0], g))
  {
  }

  function Asked(ask: nat -> Reply, n: nat): seq<Reply> {
    seq(n, i requires 0 <= i => ask(i))
  }

  lemma NothingAsked(ask: nat -> Reply)
    ensures FirstError(Asked(ask, 0)) == None
  {
  }

  /** One more reply is a failure only if it is the first. */
  lemma ErrorStep(ask: nat -> Reply, n: nat)
    ensures FirstError(Asked(ask, n + 1)) ==
            (if FirstError(Asked(ask, n)).None? && ask(n).Failed? then Some(ask(n).error) else FirstError(Asked(ask, n)))
  {
    assert Asked(ask, n + 1)[..n] == Asked(ask, n);
  }

  lemma RecipientsSteps(w: World, list: seq<Consumer>, g: U32, f: Frame)
    ensures Recipients(w, list[..0], g, f) == [] && list[..|list|] == list
    ensures forall i {:trigger list[i]} :: 0 <= i < |list| ==>
              Recipients(w, list[..i + 1], g, f) ==
              Recipients(w, list[..i], g, f) + (if Passes(w, list[i], g, f) then [list[i]] else [])
  {
    forall i | 0 <= i < |list|
      ensures Recipients(w, list[..i + 1], g, f) ==
              Recipients(w, list[..i], g, f) + (if Passes(w, list[i], g, f) then [list[i]] else [])
    {
      assert list[..i + 1][..i] == list[..i];
    }
  }

  lemma HandoverSteps(w: World, list: seq<Consumer>, b: Bundle, members: seq<Frame>)
    ensures Handovers(w, list[..0], b, members) == [] && !Splits(w, list[..0], b) && list[..|list|] == list
    ensures forall i {:trigger list[i]} :: 0 <= i < |list| ==>
              && (Splits(w, list[..i + 1], b) <==>
                  Splits(w, list[..i], b) || (TakesBundle(w, list[i], b) && !Capable(list[i])))
              && Handovers(w, list[..i + 1], b, members) ==
                 Handovers(w, list[..i], b, members) +
                 (if !TakesBundle(w, list[i], b) then []
                  else if Capable(list[i]) then [Whole(list[i])]
                  else MembersTo(list[i], members))
  {
    forall i | 0 <= i < |list|
      ensures Splits(w, list[..i + 1], b) <==>
              Splits(w, list[..i], b) || (TakesBundle(w, list[i], b) && !Capable(list[i]))
      ensures Handovers(w, list[..i + 1], b, members) ==
              Handovers(w, list[..i], b, members) +
              (if !TakesBundle(w, list[i], b) then []
               else if Capable(list[i]) then [Whole(list[i])]
               else MembersTo(list[i], members))
    {
      assert list[..i + 1][..i] == list[..i];
      SplitsSnoc(w, list, b, i);
    }
  }

  /** The egress counters once bundle b has been split. */
  function Advanced(seqs: map<U64, nat>, b: Bundle): map<U64, nat> {
    if b.members == [] then seqs else seqs[b.hashKey := Counter(seqs, b.hashKey) + |b.members|]
  }

  lemma StampedNone(w: World, members: seq<Frame>, n: nat)
    ensures Stamped(w, members[..0], n) == []
  {
  }

  lemma StampedNext(w: World, members: seq<Frame>, n: nat, i: nat)
    requires i < |members|
    ensures var m := members[i].(seqNum := n + i + 1);
            Stamped(w, members[..i + 1], n) == Stamped(w, members[..i], n) + (if w.encodes(m) then [m] else [])
  {
    assert members[..i + 1][..i] == members[..i];
  }

  /** What SendBundle hands out and leaves in its counters, as every consumer and every flow sees it. */
  lemma BundleShared(w: World, table: seq<Consumer>, b: Bundle, seqs: map<U64, nat>)
    ensures var n, list := Counter(seqs, b.hashKey), Routed(table, b.groupIdx);
            var given := Handovers(w, list, b, Stamped(w, b.members, n));
            && (exists fs :: Numbered(w, b.members, n, fs) && forall x :: GetsItsShare(w, table, b, fs, given, x))
            && (if Splits(w, list, b) then Advanced(seqs, b) else seqs) ==
               (if b.members != [] && NeedsMembers(w, table, b) then seqs[b.hashKey := n + |b.members|] else seqs)
  {
    hide Handovers, Splits, Stamped, Routed, Advanced, Numbered, GetsItsShare, NeedsMembers;
    var fs := Stamped(w, b.members, Counter(seqs, b.hashKey));
    StampedIsNumbered(w, b.members, Counter(seqs, b.hashKey));
    SplitsExactlyWhen(w, table, b);
    AdvancedIs(seqs, b);
    forall x {
      HandoversAreShares(w, table, b, fs, x);
    }
  }

  lemma AdvancedIs(seqs: map<U64, nat>, b: Bundle)
    ensures Advanced(seqs, b) == if b.members != [] then seqs[b.hashKey := Counter(seqs, b.hashKey) + |b.members|] else seqs
  {
  }

  /** Hand the members over one by one, past any error. */
  method HandMembers(c: Consumer, members: seq<Frame>, given: seq<Handover>, err: Option<int>, ask: nat -> Reply)
    returns (g: seq<Handover>, e: Option<int>)
    requires err == FirstError(Asked(ask, |given|))
    ensures g == given + MembersTo(c, members)
    ensures e == FirstError(Asked(ask, |g|))
  {
    hide FirstError, Asked;
    g, e := given, err;
    for i := 0 to |members|
      invariant g == given + MembersTo(c, members[..i])
      invariant e == FirstError(Asked(ask, |g|))
    {
      assert members[..i + 1][..i] == members[..i];
      var reply := ask(|g|);
      ErrorStep(ask, |g|);
      g := g + [Member(c, members[i])];
      if reply.Failed? && e.None? {
        e := Some(reply.error);
      }
    }
    assert members[..|members|] == members;
  }

  lemma SplitsSnoc(w: World, list: seq<Consumer>, b: Bundle, i: nat)
    requires i < |list|
    ensures Splits(w, list[..i + 1], b) <==> Splits(w, list[..i], b) || (TakesBundle(w, list[i], b) && !Capable(list[i]))
  {
    if Splits(w, list[..i], b) {
      var j :| 0 <= j < i && TakesBundle(w, list[..i][j], b) && !Capable(list[..i][j]);
      assert list[..i + 1][j] == list[j];
    }
    if TakesBundle(w, list[i], b) && !Capable(list[i]) {
      assert list[..i + 1][i] == list[i];
    }
  }
}
