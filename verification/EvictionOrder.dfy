/**
 Which slot is evicted at the cap. The eviction order lists a key again when its slot was dropped for a bad
 fragment and reopened, so the first listed live slot need not be the one opened first. It is stated
 exactly when it is.
 */
module EvictionOrder {
  import opened Base
  import opened Grid
  import opened Slots
  import opened Reassembly
  import opened ReassemblyInvariants
  import opened ReassemblyTheorems

  // ----- last positions -----

  /** The last position of x in s, or -1. */
  function LastAt<T(==,!new)>(s: seq<T>, x: T): (r: int)
    ensures -1 <= r < |s|
  {
    if s == [] then -1
    else if s[|s| - 1] == x then |s| - 1
    else LastAt(s[..|s| - 1], x)
  }

  lemma {:induction false} LastIs<T(!new)>(s: seq<T>, x: T)
    ensures var r := LastAt(s, x);
            (r >= 0 <==> x in s) && (r >= 0 ==> s[r] == x) && forall i :: r < i < |s| ==> s[i] != x
  {
    if s != [] && s[|s| - 1] != x {
      LastIs(s[..|s| - 1], x);
    }
  }

  lemma LastSnoc<T(!new)>(s: seq<T>, y: T, x: T)
    ensures LastAt(s + [y], x) == if y == x then |s| else LastAt(s, x)
  {
    assert (s + [y])[..|s|] == s;
  }

  lemma LastUnique<T(!new)>(s: seq<T>, x: T, i: int)
    requires 0 <= i < |s| && s[i] == x && forall j :: i < j < |s| ==> s[j] != x
    ensures LastAt(s, x) == i
  {
    LastIs(s, x);
  }

  lemma LastInPrefix<T(!new)>(s: seq<T>, t: seq<T>, x: T)
    requires s <= t && forall i :: |s| <= i < |t| ==> t[i] != x
    ensures LastAt(t, x) == LastAt(s, x)
  {
    var i := LastAt(s, x);
    LastIs(s, x);
    LastIs(t, x);
    if i >= 0 {
      assert t[i] == s[i];
      assert forall j :: i < j < |s| ==> t[j] == s[j];
      LastUnique(t, x, i);
    } else {
      assert forall j :: 0 <= j < |s| ==> t[j] == s[j] != x;
    }
  }

  /** Dropping one listing of another key does not change who is listed last. */
  lemma LastWithout<T(!new)>(s: seq<T>, i: nat, x: T)
    requires i < |s| && s[i] != x
    ensures var t := s[..i] + s[i + 1..];
            LastAt(t, x) == if LastAt(s, x) > i then LastAt(s, x) - 1 else LastAt(s, x)
  {
    var t := s[..i] + s[i + 1..];
    var l := LastAt(s, x);
    LastIs(s, x);
    LastIs(t, x);
    assert forall j :: 0 <= j < |t| ==> t[j] == if j < i then s[j] else s[j + 1];
    if l >= 0 {
      LastUnique(t, x, if l > i then l - 1 else l);
    }
  }

  lemma {:induction false} LastRestricted<T(!new)>(s: seq<T>, keep: set<T>, x: T, y: T)
    requires x in keep && y in keep
    ensures LastAt(Restrict(s, keep), x) < LastAt(Restrict(s, keep), y) <==> LastAt(s, x) < LastAt(s, y)
  {
    if s != [] {
      var front, z := s[..|s| - 1], s[|s| - 1];
      assert s == front + [z];
      hide LastAt, Restrict;
      RestrictSnoc(front, z, keep);
      LastRestricted(front, keep, x, y);
      LastSnoc(front, z, x);
      LastSnoc(front, z, y);
      if z in keep {
        LastSnoc(Restrict(front, keep), z, x);
        LastSnoc(Restrict(front, keep), z, y);
      } else {
        assert Restrict(s, keep) == Restrict(front, keep);
      }
    }
  }

  // ----- listings follow openings -----

  /** When the latest slot of k was opened, as a position in the log. */
  function Opened(log: seq<Event>, k: Key): int {
    LastAt(log, Started(k))
  }

  /** Among live slots, later opened means listed last later. */
  ghost predicate Ordered(order: seq<Key>, log: seq<Event>, live: set<Key>) {
    forall j, k :: j in live && k in live ==>
                     (LastAt(order, j) < LastAt(order, k) <==> Opened(log, j) < Opened(log, k))
  }

  /** The new part of the log opens no slot. */
  ghost predicate OpensNone(log: seq<Event>, log': seq<Event>) {
    log <= log' && forall i :: |log| <= i < |log'| ==> !log'[i].Started?
  }

  lemma SameOpened(log: seq<Event>, log': seq<Event>, k: Key)
    requires OpensNone(log, log')
    ensures Opened(log', k) == Opened(log, k)
  {
    LastInPrefix(log, log', Started(k));
  }

  lemma FewerOrdered(order: seq<Key>, log: seq<Event>, log': seq<Event>, live: set<Key>, live': set<Key>)
    requires Ordered(order, log, live) && OpensNone(log, log') && live' <= live
    ensures Ordered(order, log', live')
  {
    hide LastAt;
    forall k
      ensures Opened(log', k) == Opened(log, k)
    {
      SameOpened(log, log', k);
    }
    hide Opened;
  }

  lemma OpenOrdered(order: seq<Key>, log: seq<Event>, live: set<Key>, k: Key)
    requires Ordered(order, log, live) && k !in live
    ensures Ordered(order + [k], log + [Started(k)], live + {k})
  {
    forall j
      ensures LastAt(order + [k], j) == if j == k then |order| else LastAt(order, j)
      ensures Opened(log + [Started(k)], j) == if j == k then |log| else Opened(log, j)
    {
      LastSnoc(order, k, j);
      LastSnoc(log, Started(k), Started(j));
    }
  }

  lemma CompactOrdered(order: seq<Key>, log: seq<Event>, live: set<Key>)
    requires Ordered(order, log, live)
    ensures Ordered(Restrict(order, live), log, live)
  {
    forall j, k | j in live && k in live
      ensures LastAt(Restrict(order, live), j) < LastAt(Restrict(order, live), k) <==> Opened(log, j) < Opened(log, k)
    {
      LastRestricted(order, live, j, k);
    }
  }

  lemma EvictOrdered(order: seq<Key>, log: seq<Event>, log': seq<Event>, live: set<Key>, i: nat)
    requires Ordered(order, log, live) && OpensNone(log, log') && i < |order|
    ensures Ordered(order[..i] + order[i + 1..], log', live - {order[i]})
  {
    FewerOrdered(order, log, log', live, live - {order[i]});
    forall j, k | j in live - {order[i]} && k in live - {order[i]}
      ensures LastAt(order[..i] + order[i + 1..], j) < LastAt(order[..i] + order[i + 1..], k) <==>
              Opened(log', j) < Opened(log', k)
    {
      LastWithout(order, i, j);
      LastWithout(order, i, k);
      ListedThere(order, i, j);
      ListedThere(order, i, k);
    }
  }

  lemma ListedThere(order: seq<Key>, i: nat, j: Key)
    requires i < |order| && order[i] != j
    ensures LastAt(order, j) != i
  {
    LastIs(order, j);
  }

  // ----- every step -----

  ghost predicate InOrder<E>(st: State<E>) {
    Ordered(st.insertOrder, st.log, st.slots.Keys)
  }

  lemma EvictExpiredOrder<E>(cfg: Config, hooks: Hooks<E>, st: State<E>, now: Time)
    requires Inv(cfg, st) && InOrder(st)
    ensures InOrder(EvictExpired(cfg, hooks, st, now)) && InOrder(LazySweep(cfg, hooks, st, now))
  {
    hide SweepList, Inv, Ordered;
    var swept := SweepDone(st, now);
    var r := SweepList(cfg, hooks, swept, st.insertOrder, |st.insertOrder|, now);
    SweepDoneKeeps(cfg, st, now);
    SweepListSpeaks(cfg, hooks, swept, st.insertOrder, |st.insertOrder|, now);
    SweepListOrder(cfg, hooks, swept, st.insertOrder, |st.insertOrder|, now);
    FewerOrdered(st.insertOrder, st.log, r.log, st.slots.Keys, r.slots.Keys);
    CompactOrdered(r.insertOrder, r.log, r.slots.Keys);
  }

  lemma MakeRoomOrder<E>(cfg: Config, st: State<E>)
    requires InOrder(st)
    ensures InOrder(MakeRoom(cfg, st))
  {
    hide Ordered;
    var i := FirstLive(st.insertOrder, st.slots.Keys);
    if |st.slots| >= cfg.maxSlots && i < |st.insertOrder| {
      var k := st.insertOrder[i];
      EvictOrdered(st.insertOrder, st.log, st.log + [Abandoned(k, Capacity)], st.slots.Keys, i);
      assert (st.slots - {k}).Keys == st.slots.Keys - {k};
    }
  }

  lemma AdmitFewer<E>(cfg: Config, st: State<E>, f: Fragment, at: Time)
    requires SlotKey(f) in st.slots
    ensures var r := Admit(cfg, st, f, at);
            r.insertOrder == st.insertOrder && r.slots.Keys <= st.slots.Keys && OpensNone(st.log, r.log)
  {
    hide Take, Outcome, Payload;
  }

  lemma AdmitOrder<E>(cfg: Config, st: State<E>, f: Fragment, at: Time)
    requires SlotKey(f) in st.slots && st.slots[SlotKey(f)].key == SlotKey(f) && InOrder(st)
    ensures InOrder(Admit(cfg, st, f, at))
  {
    hide Ordered, Admit, OpensNone;
    var r := Admit(cfg, st, f, at);
    AdmitFewer(cfg, st, f, at);
    FewerOrdered(st.insertOrder, st.log, r.log, st.slots.Keys, r.slots.Keys);
  }

  lemma ArriveOrder<E>(cfg: Config, st: State<E>, f: Fragment, now: Time, at: Time)
    requires SlotsInv(cfg, st.slots) && InOrder(st)
    ensures InOrder(Arrive(cfg, st, f, now, at))
  {
    hide Ordered, Admit, MakeRoom, SlotOk;
    if SlotKey(f) in st.slots {
      assert SlotInv(cfg, SlotKey(f), st.slots[SlotKey(f)], 1);
      AdmitOrder(cfg, st, f, at);
    } else if SlotKey(f) !in st.done && !Pathological(f) && !TooLarge(cfg, f) {
      var room := MakeRoom(cfg, st);
      MakeRoomOrder(cfg, st);
      MakeRoomFewer(cfg, st);
      var begun := Open(cfg, room, f, now);
      OpenOrdered(room.insertOrder, room.log, room.slots.Keys, SlotKey(f));
      assert begun.slots.Keys == room.slots.Keys + {SlotKey(f)};
      AdmitOrder(cfg, begun, f, at);
    } else {
      var r := Arrive(cfg, st, f, now, at);
      FewerOrdered(st.insertOrder, st.log, r.log, st.slots.Keys, r.slots.Keys);
    }
  }

  lemma MakeRoomFewer<E>(cfg: Config, st: State<E>)
    ensures MakeRoom(cfg, st).slots.Keys <= st.slots.Keys
  {
  }

  lemma StepOrder<E>(cfg: Config, hooks: Hooks<E>, st: State<E>, op: Op<E>)
    requires Inv(cfg, st) && InOrder(st)
    ensures InOrder(Step(cfg, hooks, st, op))
  {
    hide Inv, LazySweep, Arrive, EvictExpired;
    match op
    case ObserveOp(f, now, at) =>
      EvictExpiredOrder(cfg, hooks, st, now);
      LazySweepKeeps(cfg, hooks, st, now);
      SlotsOf(cfg, LazySweep(cfg, hooks, st, now));
      ArriveOrder(cfg, LazySweep(cfg, hooks, st, now), f, now, at);
    case TickOp(now) => EvictExpiredOrder(cfg, hooks, st, now);
    case PurgeOp =>
    case RepairOp(_) =>
  }

  lemma SlotsOf<E>(cfg: Config, st: State<E>)
    requires Inv(cfg, st)
    ensures SlotsInv(cfg, st.slots)
  {
  }

  /** In every run, live slots are listed last in the order in which they were opened. */
  lemma {:induction false} RunOrder<E>(cfg: Config, hooks: Hooks<E>, env: E, ops: seq<Op<E>>)
    requires ConfigOk(cfg)
    ensures InOrder(Run(cfg, hooks, Fresh(env), ops)) && Inv(cfg, Run(cfg, hooks, Fresh(env), ops))
  {
    hide Inv, Step, Ordered;
    FreshInv(cfg, env);
    if ops == [] {
      FreshOrder(env);
    } else {
      var front := ops[..|ops| - 1];
      RunOrder(cfg, hooks, env, front);
      StepOrder(cfg, hooks, Run(cfg, hooks, Fresh(env), front), ops[|ops| - 1]);
      RunKeeps(cfg, hooks, Fresh(env), ops);
    }
  }

  lemma FreshOrder<E>(env: E)
    ensures InOrder(Fresh(env))
  {
  }

  // ----- who is evicted -----

  /** The slot evicted at the cap was opened before every other live one. */
  ghost predicate EvictsOldest<E>(st: State<E>) {
    var i := FirstLive(st.insertOrder, st.slots.Keys);
    i < |st.insertOrder| &&
    forall j :: j in st.slots && j != st.insertOrder[i] ==> Opened(st.log, st.insertOrder[i]) < Opened(st.log, j)
  }

  /** Every other live key is listed behind the last listing of the first listed live one. */
  ghost predicate ListedBehind<E>(st: State<E>) {
    var i := FirstLive(st.insertOrder, st.slots.Keys);
    i < |st.insertOrder| &&
    forall j :: j in st.slots && j != st.insertOrder[i] ==>
                  LastAt(st.insertOrder, st.insertOrder[i]) < LastAt(st.insertOrder, j)
  }

  /** In every reachable state with a live slot, eviction takes the oldest exactly under that condition. */
  lemma EvictsOldestExactlyWhen<E>(cfg: Config, hooks: Hooks<E>, env: E, ops: seq<Op<E>>)
    requires ConfigOk(cfg) && Run(cfg, hooks, Fresh(env), ops).slots != map[]
    ensures var st := Run(cfg, hooks, Fresh(env), ops);
            EvictsOldest(st) <==> ListedBehind(st)
  {
    hide Run, LastAt, Opened, SlotsInv, Memory, Balanced, AsksOnce;
    RunOrder(cfg, hooks, env, ops);
    var st := Run(cfg, hooks, Fresh(env), ops);
    var some :| some in st.slots;
    assert some in st.insertOrder;
  }

  /** In particular when the first listed live key is not listed again. */
  lemma ListedOnceIsOldest<E>(cfg: Config, st: State<E>)
    requires Inv(cfg, st) && InOrder(st) && st.slots != map[]
    requires var i := FirstLive(st.insertOrder, st.slots.Keys);
             i < |st.insertOrder| ==> st.insertOrder[i] !in st.insertOrder[i + 1..]
    ensures EvictsOldest(st)
  {
    hide SlotsInv, Memory, Balanced, AsksOnce, Opened, LastAt;
    var order, i := st.insertOrder, FirstLive(st.insertOrder, st.slots.Keys);
    var some :| some in st.slots;
    assert some in order;
    OnlyThere(order, i);
    forall j | j in st.slots && j != order[i]
      ensures LastAt(order, order[i]) < LastAt(order, j)
    {
      assert j in order;
      LastIs(order, j);
    }
  }

  lemma OnlyThere(order: seq<Key>, i: nat)
    requires i < |order| && order[i] !in order[i + 1..]
    ensures LastAt(order, order[i]) == i
  {
    forall l | i < l < |order|
      ensures order[l] != order[i]
    {
      assert order[i + 1..][l - i - 1] == order[l];
    }
    LastUnique(order, order[i], i);
  }

  // ----- a reopened slot is evicted ahead of an older one -----

  /** The first fragment of a two-byte object in two fragments. */
  function Piece(id: Id32, data: seq<Byte>): Fragment {
    Fragment(id, 0, 0, 1, 2, 2, 0, 2, 0, data)
  }

  function TwoSlots(hashOk: (bool, Id32, seq<Byte>) -> bool): Config {
    Config(2, 10, 10, 10, 10, 0, 0, 0, false, hashOk, false, false)
  }

  /** A quiet moment: nothing to sweep, nothing remembered. */
  ghost predicate Calm<E>(st: State<E>) {
    st.lastEvict == Some(0) && st.done == map[]
  }

  lemma FirstCall<E>(cfg: Config, hooks: Hooks<E>, env: E)
    ensures LazySweep(cfg, hooks, Fresh(env), 0) == Fresh(env).(lastEvict := Some(0))
  {
    assert Unexpired(map[], 0) == {};
    assert KeepOnly(map[], {}) == map[];
  }

  /** A piece of the right length opens a slot that stays. */
  lemma GoodPiece<E>(hashOk: (bool, Id32, seq<Byte>) -> bool, hooks: Hooks<E>, st: State<E>, id: Id32)
    requires Calm(st) && Single(id) !in st.slots && |st.slots| < 2
    ensures var r := Observe(TwoSlots(hashOk), hooks, st, Piece(id, [7]), 0, 0);
            && r.slots.Keys == st.slots.Keys + {Single(id)} && r.insertOrder == st.insertOrder + [Single(id)]
            && r.log == st.log + [Started(Single(id))] && Calm(r)
  {
    var cfg, f := TwoSlots(hashOk), Piece(id, [7]);
    CheckFragLenExact(2, 2, 0, 0, 1, 1);
    var begun := Open(cfg, st, f, 0);
    assert |begun.slots[Single(id)].parts[0 := Part([7], 1)]| == 1;
  }

  /** A piece of no length opens a slot and drops it, and leaves its key listed. */
  lemma BadPiece<E>(hashOk: (bool, Id32, seq<Byte>) -> bool, hooks: Hooks<E>, st: State<E>, id: Id32)
    requires Calm(st) && st.slots == map[]
    ensures var r := Observe(TwoSlots(hashOk), hooks, st, Piece(id, []), 0, 0);
            && r.slots == map[] && r.insertOrder == st.insertOrder + [Single(id)]
            && r.log == st.log + [Started(Single(id)), BadFragment(Single(id))] && Calm(r)
  {
    var cfg, f := TwoSlots(hashOk), Piece(id, []);
    var begun := Open(cfg, st, f, 0);
    assert begun.slots - {Single(id)} == map[];
  }

  /**
   A bad first fragment leaves key 1 listed; key 2 opens; key 1 reopens, after key 2. At the cap the buffer
   then evicts key 1, although key 2 is older.
   */
  lemma ReopenedIsEvictedFirst<E>(hashOk: (bool, Id32, seq<Byte>) -> bool, hooks: Hooks<E>, env: E)
    ensures var ops := [ObserveOp(Piece(1, []), 0, 0), ObserveOp(Piece(2, [7]), 0, 0), ObserveOp(Piece(1, [7]), 0, 0)];
            var st := Run(TwoSlots(hashOk), hooks, Fresh(env), ops);
            && st.slots.Keys == {Single(1), Single(2)} && Opened(st.log, Single(2)) < Opened(st.log, Single(1))
            && MakeRoom(TwoSlots(hashOk), st).log == st.log + [Abandoned(Single(1), Capacity)]
            && !EvictsOldest(st)
  {
    hide Observe, LastAt;
    var cfg := TwoSlots(hashOk);
    var o1: Op<E>, o2: Op<E> := ObserveOp(Piece(1, []), 0, 0), ObserveOp(Piece(2, [7]), 0, 0);
    var o3: Op<E> := ObserveOp(Piece(1, [7]), 0, 0);
    var ops := [o1, o2, o3];
    var swept := LazySweep(cfg, hooks, Fresh(env), 0);
    FirstCall(cfg, hooks, env);
    var s1 := Step(cfg, hooks, Fresh(env), o1);
    SameFirst(cfg, hooks, env, Piece(1, []));
    BadPiece(hashOk, hooks, swept, 1);
    var s2 := Step(cfg, hooks, s1, o2);
    GoodPiece(hashOk, hooks, s1, 2);
    var s3 := Step(cfg, hooks, s2, o3);
    assert s2.slots.Keys == {Single(2)};
    assert |s2.slots| == |s2.slots.Keys| == 1;
    GoodPiece(hashOk, hooks, s2, 1);
    RunThree(cfg, hooks, Fresh(env), o1, o2, o3);
    assert s3.insertOrder == [Single(1), Single(2), Single(1)];
    assert s3.log == [Started(Single(1)), BadFragment(Single(1)), Started(Single(2)), Started(Single(1))];
    LastUnique(s3.log, Started(Single(2)), 2);
    LastUnique(s3.log, Started(Single(1)), 3);
    assert |s3.slots| == |s3.slots.Keys| == 2;
    assert FirstLive(s3.insertOrder, s3.slots.Keys) == 0;
  }

  lemma RunThree<E>(cfg: Config, hooks: Hooks<E>, st: State<E>, a: Op<E>, b: Op<E>, c: Op<E>)
    ensures Run(cfg, hooks, st, [a, b, c]) == Step(cfg, hooks, Step(cfg, hooks, Step(cfg, hooks, st, a), b), c)
  {
    hide Step;
    assert [a, b, c][..2] == [a, b] && [a, b][..1] == [a] && [a][..0] == [];
    assert Run(cfg, hooks, st, [a]) == Step(cfg, hooks, st, a);
    assert Run(cfg, hooks, st, [a, b]) == Step(cfg, hooks, Step(cfg, hooks, st, a), b);
  }

  /** The sweep at the head of the first call changes nothing else. */
  lemma SameFirst<E>(cfg: Config, hooks: Hooks<E>, env: E, f: Fragment)
    ensures cfg.evictEvery >= 1 && cfg.ttl >= 2 ==>
              Observe(cfg, hooks, Fresh(env), f, 0, 0) ==
              Observe(cfg, hooks, Fresh(env).(lastEvict := Some(0)), f, 0, 0)
  {
    hide Arrive;
    FirstCall(cfg, hooks, env);
  }
}
