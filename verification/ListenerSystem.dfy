/**
 The fragment path of a listener worker: each fragment goes to the reassembly buffer first and to
 the gap tracker second, both sweep on their own, and retry endpoints answer when they please.
 */
module ListenerSystem {
  import opened Base
  import opened Grid
  import opened Slots
  import opened Reassembly
  import opened ReassemblyInvariants
  import opened ReassemblyTheorems
  import opened Reconstruction
  import opened Delivery
  import opened Composition
  import T = Tracker
  import F = Flow
  import Seq = FlowSequence
  import Rate = FlowRate

  datatype SysOp =
    | FragmentIn(f: Fragment, now: Time, at: Time, live: bool, ch: F.Choices)
    | BufferTick(now: Time, ch: F.Choices)
    | TrackerMove(op: T.Op)

  type Sys = State<Repair>

  function AtTime(st: Sys, now: Time, ch: F.Choices): Sys {
    st.(env := st.env.(now := now, ch := ch))
  }

  ghost function MoveTracker(tc: T.Config, st: Sys, op: T.Op): Sys {
    st.(env := st.env.(tracker := T.Step(tc, st.env.tracker, op)))
  }

  /** One atomic step of the worker. An unstamped fragment is not shown to the tracker. */
  ghost function SysStep(cfg: Config, tc: T.Config, st: Sys, op: SysOp): Sys {
    match op
    case FragmentIn(f, now, at, live, ch) =>
      var r := Observe(cfg, Wired(tc), AtTime(st, now, ch), f, now, at);
      if f.seqNum == 0 then r else MoveTracker(tc, r, T.ObserveFrom(f.hashKey, f.seqNum, live, at, ch))
    case BufferTick(now, ch) => EvictExpired(cfg, Wired(tc), AtTime(st, now, ch), now)
    case TrackerMove(t) => MoveTracker(tc, st, t)
  }

  ghost function SysRun(cfg: Config, tc: T.Config, st: Sys, ops: seq<SysOp>): Sys {
    if ops == [] then st else SysStep(cfg, tc, SysRun(cfg, tc, st, ops[..|ops| - 1]), ops[|ops| - 1])
  }

  /** After its fragment was processed, the flow of a stamped fragment has no gap of that number. */
  lemma SeenIsNotPending(cfg: Config, tc: T.Config, st: Sys, op: SysOp)
    requires op.FragmentIn? && op.f.seqNum != 0
    ensures var flows := SysStep(cfg, tc, st, op).env.tracker.flows;
            op.f.hashKey in flows ==> op.f.seqNum !in flows[op.f.hashKey].pending
  {
    hide Observe, F.ObserveFrame;
    var r := Observe(cfg, Wired(tc), AtTime(st, op.now, op.ch), op.f, op.now, op.at);
    var c := T.CellOf(r.env.tracker, op.f.hashKey);
    if c.flow.Some? {
      ObservedIsNotPending(tc.flow, F.Track(c.flow.value, c.books), op.f.seqNum, op.live, op.at, op.ch);
    } else {
      ObservedIsNotPending(tc.flow, F.Track(F.NewFlow(op.at), c.books), op.f.seqNum, op.live, op.at, op.ch);
    }
  }

  lemma ObservedIsNotPending(cfg: F.Config, t: F.Track, seqNum: U64, live: bool, now: Time, ch: F.Choices)
    requires seqNum != 0
    ensures seqNum !in F.ObserveFrame(cfg, t, seqNum, live, now, ch).flow.pending
  {
    hide F.FlushList, F.Rebaseline, F.RegisterRange, F.Implausible;
    var u := F.Touch(t, seqNum, now);
    var v := if seqNum in u.flow.pending then F.FillPending(u, seqNum) else u;
    assert seqNum !in v.flow.pending;
    if seqNum > v.flow.last {
      Seq.RangeKeys(cfg, v, v.flow.last + 1, seqNum, now, ch);
      Rate.RebaselineLeavesTail(cfg, v, seqNum, now - t.flow.lastSeen, now, ch);
    }
  }

  // ----- an object in repair is delivered -----

  /** The fragment does not make the buffer evict slot k: it opens no slot, finds room, or evicts another. */
  ghost predicate Spares<E>(cfg: Config, st: State<E>, f: Fragment, k: Key) {
    || k !in st.slots || SlotKey(f) in st.slots || SlotKey(f) in st.done
    || Pathological(f) || TooLarge(cfg, f) || |st.slots| < cfg.maxSlots
    || (var i := FirstLive(st.insertOrder, st.slots.Keys); i < |st.insertOrder| && st.insertOrder[i] != k)
  }

  /** Nothing pushes slot k out: it is sheltered at every sweep and not the one evicted at the cap. */
  ghost predicate Guarded(cfg: Config, tc: T.Config, st: Sys, op: SysOp, k: Key) {
    match op
    case FragmentIn(f, now, at, live, ch) =>
      var here := AtTime(st, now, ch);
      && (SweepDue(cfg, here, now) ==> Sheltered(cfg, tc, here, k, now))
      && Spares(cfg, LazySweep(cfg, Wired(tc), here, now), f, k)
    case BufferTick(now, ch) => Sheltered(cfg, tc, AtTime(st, now, ch), k, now)
    case TrackerMove(_) => true
  }

  lemma SweepNotAbandoned(cfg: Config, tc: T.Config, st: Sys, k: Key, now: Time)
    requires cfg.waits && cfg.asks && ConfigOk(cfg) && Inv(cfg, st) && Sheltered(cfg, tc, st, k, now)
    ensures NotAbandoned(st.log, EvictExpired(cfg, Wired(tc), st, now).log, k)
  {
    hide SweepList, Sheltered, Inv;
    if k in st.slots {
      SweepKeepsRepaired(cfg, tc, st, k, now);
    } else {
      SweepDoneKeeps(cfg, st, now);
      SweepListSpeaks(cfg, Wired(tc), SweepDone(st, now), st.insertOrder, |st.insertOrder|, now);
    }
  }

  lemma AdmitNotAbandoned<E>(cfg: Config, st: State<E>, f: Fragment, at: Time, k: Key)
    requires SlotKey(f) in st.slots
    ensures NotAbandoned(st.log, Admit(cfg, st, f, at).log, k)
  {
    hide Outcome, Payload, CheckFragLen;
  }

  /** Making room abandons the first listed live slot and no other. */
  lemma RoomNotAbandoned<E>(cfg: Config, st: State<E>, k: Key)
    requires || k !in st.slots || |st.slots| < cfg.maxSlots
             || (var i := FirstLive(st.insertOrder, st.slots.Keys); i < |st.insertOrder| && st.insertOrder[i] != k)
    ensures NotAbandoned(st.log, MakeRoom(cfg, st).log, k)
  {
  }

  lemma ArriveNotAbandoned<E>(cfg: Config, st: State<E>, f: Fragment, now: Time, at: Time, k: Key)
    requires Spares(cfg, st, f, k)
    ensures NotAbandoned(st.log, Arrive(cfg, st, f, now, at).log, k)
  {
    hide Admit, Pathological, TooLarge;
    if SlotKey(f) in st.slots {
      AdmitNotAbandoned(cfg, st, f, at, k);
    } else if SlotKey(f) !in st.done && !Pathological(f) && !TooLarge(cfg, f) {
      var begun := Open(cfg, MakeRoom(cfg, st), f, now);
      RoomNotAbandoned(cfg, st, k);
      AdmitNotAbandoned(cfg, begun, f, at, k);
      NotAbandonedTrans(st.log, begun.log, Arrive(cfg, st, f, now, at).log, k);
    }
  }

  lemma ObserveNotAbandoned(cfg: Config, tc: T.Config, st: Sys, f: Fragment, now: Time, at: Time, k: Key)
    requires cfg.waits && cfg.asks && ConfigOk(cfg) && Inv(cfg, st)
    requires SweepDue(cfg, st, now) ==> Sheltered(cfg, tc, st, k, now)
    requires Spares(cfg, LazySweep(cfg, Wired(tc), st, now), f, k)
    ensures NotAbandoned(st.log, Observe(cfg, Wired(tc), st, f, now, at).log, k)
  {
    hide EvictExpired, Arrive, Sheltered, Inv, Spares;
    var swept := LazySweep(cfg, Wired(tc), st, now);
    if SweepDue(cfg, st, now) {
      SweepNotAbandoned(cfg, tc, st, k, now);
    }
    ArriveNotAbandoned(cfg, swept, f, now, at, k);
    NotAbandonedTrans(st.log, swept.log, Observe(cfg, Wired(tc), st, f, now, at).log, k);
  }

  lemma GuardedNotAbandoned(cfg: Config, tc: T.Config, st: Sys, op: SysOp, k: Key)
    requires cfg.waits && cfg.asks && ConfigOk(cfg) && Inv(cfg, st) && Guarded(cfg, tc, st, op, k)
    ensures NotAbandoned(st.log, SysStep(cfg, tc, st, op).log, k)
  {
    hide EvictExpired, Observe, Sheltered, Inv, T.Step, Spares;
    match op
    case FragmentIn(f, now, at, live, ch) =>
      RepairKeeps(cfg, st, AtTime(st, now, ch).env);
      ObserveNotAbandoned(cfg, tc, AtTime(st, now, ch), f, now, at, k);
    case BufferTick(now, ch) =>
      RepairKeeps(cfg, st, AtTime(st, now, ch).env);
      SweepNotAbandoned(cfg, tc, AtTime(st, now, ch), k, now);
    case TrackerMove(_) =>
  }

  /** The buffer's part of a system step, as an operation of the buffer. */
  function BufferOp(op: SysOp): Op<Repair>
    requires !op.TrackerMove?
  {
    match op
    case FragmentIn(f, now, at, live, ch) => ObserveOp(f, now, at)
    case BufferTick(now, ch) => TickOp(now)
  }

  function SysContributes(op: SysOp, k: Key, o: Object): set<nat> {
    if op.TrackerMove? then {} else Contributes(BufferOp(op), k, o)
  }

  /** The indices of the object's fragments seen in the run. */
  function SysArrived(ops: seq<SysOp>, k: Key, o: Object): set<nat> {
    if ops == [] then {} else SysArrived(ops[..|ops| - 1], k, o) + SysContributes(ops[|ops| - 1], k, o)
  }

  /** Every fragment of k is one the object was cut into. */
  ghost predicate Honest(op: SysOp, k: Key, o: Object)
    requires Cuttable(o)
  {
    op.FragmentIn? ==> Genuine(op.f, k, o)
  }

  /** What the induction carries. */
  ghost predicate OnCourse(cfg: Config, st: Sys, k: Key, o: Object, held: set<nat>, base: nat)
    requires Cuttable(o)
  {
    Inv(cfg, st) && base <= |st.log| && NotDropped(st.log, base, k) && Progress(cfg, st, k, o, held, base)
  }

  lemma EnvOnCourse(cfg: Config, st: Sys, env: Repair, k: Key, o: Object, held: set<nat>, base: nat)
    requires Cuttable(o) && OnCourse(cfg, st, k, o, held, base)
    ensures OnCourse(cfg, st.(env := env), k, o, held, base)
  {
    hide Inv;
    RepairKeeps(cfg, st, env);
    SurvivesProgress(cfg, st, st.(env := env), k, o, held, base);
  }

  lemma NotDroppedGrows(log: seq<Event>, log': seq<Event>, base: nat, k: Key)
    requires NotDropped(log, base, k) && NotAbandoned(log, log', k) && base <= |log|
    ensures NotDropped(log', base, k) && base <= |log'|
  {
    assert forall j :: 0 <= j < |log| ==> log[j] == log'[j];
  }

  lemma BufferOnCourse(cfg: Config, tc: T.Config, st: Sys, op: Op<Repair>, k: Key, o: Object, held: set<nat>, base: nat)
    requires ConfigOk(cfg) && Cuttable(o) && OnCourse(cfg, st, k, o, held, base)
    requires (op.ObserveOp? ==> Genuine(op.f, k, o)) && Fits(cfg, k, o)
    requires NotAbandoned(st.log, Step(cfg, Wired(tc), st, op).log, k)
    ensures OnCourse(cfg, Step(cfg, Wired(tc), st, op), k, o, held + Contributes(op, k, o), base)
  {
    hide Inv, Step, Progress, NotDropped, NotAbandoned, Genuine, Fits, Contributes;
    var r := Step(cfg, Wired(tc), st, op);
    NotDroppedGrows(st.log, r.log, base, k);
    StepKeeps(cfg, Wired(tc), st, op);
    StepProgress(cfg, Wired(tc), st, op, k, o, held, base);
  }

  lemma SysOnCourse(cfg: Config, tc: T.Config, st: Sys, op: SysOp, k: Key, o: Object, held: set<nat>, base: nat)
    requires cfg.waits && cfg.asks && ConfigOk(cfg) && Cuttable(o)
    requires OnCourse(cfg, st, k, o, held, base) && Guarded(cfg, tc, st, op, k) && Honest(op, k, o)
    requires Fits(cfg, k, o)
    ensures OnCourse(cfg, SysStep(cfg, tc, st, op), k, o, held + SysContributes(op, k, o), base)
  {
    hide Inv, Progress, NotDropped, NotAbandoned, Genuine, T.Step, Observe, EvictExpired, OnCourse, Fits;
    CourseInv(cfg, st, k, o, held, base);
    GuardedNotAbandoned(cfg, tc, st, op, k);
    match op
    case FragmentIn(f, now, at, live, ch) =>
      var here := AtTime(st, now, ch);
      var r := Observe(cfg, Wired(tc), here, f, now, at);
      EnvOnCourse(cfg, st, here.env, k, o, held, base);
      BufferOnCourse(cfg, tc, here, ObserveOp(f, now, at), k, o, held, base);
      EnvOnCourse(cfg, r, SysStep(cfg, tc, st, op).env, k, o, held + SysContributes(op, k, o), base);
    case BufferTick(now, ch) =>
      var here := AtTime(st, now, ch);
      EnvOnCourse(cfg, st, here.env, k, o, held, base);
      BufferOnCourse(cfg, tc, here, TickOp(now), k, o, held, base);
    case TrackerMove(t) =>
      EnvOnCourse(cfg, st, SysStep(cfg, tc, st, op).env, k, o, held, base);
      assert held + SysContributes(op, k, o) == held;
  }

  lemma CourseInv(cfg: Config, st: Sys, k: Key, o: Object, held: set<nat>, base: nat)
    requires Cuttable(o) && OnCourse(cfg, st, k, o, held, base)
    ensures Inv(cfg, st)
  {
  }

  lemma {:induction false} SysRunOnCourse(cfg: Config, tc: T.Config, st: Sys, ops: seq<SysOp>, k: Key, o: Object)
    requires cfg.waits && cfg.asks && ConfigOk(cfg) && Cuttable(o) && Fits(cfg, k, o)
    requires Inv(cfg, st) && k !in st.slots && k !in st.done
    requires forall i :: 0 <= i < |ops| ==>
                           Honest(ops[i], k, o) && Guarded(cfg, tc, SysRun(cfg, tc, st, ops[..i]), ops[i], k)
    ensures OnCourse(cfg, SysRun(cfg, tc, st, ops), k, o, SysArrived(ops, k, o), |st.log|)
  {
    hide Inv, Progress, SysStep, Honest, Guarded, SysContributes, Fits;
    if ops == [] {
      StartProgress(cfg, st, k, o);
    } else {
      var front, op := ops[..|ops| - 1], ops[|ops| - 1];
      assert forall i :: 0 <= i < |front| ==> front[..i] == ops[..i] && front[i] == ops[i];
      SysRunOnCourse(cfg, tc, st, front, k, o);
      SysOnCourse(cfg, tc, SysRun(cfg, tc, st, front), op, k, o, SysArrived(front, k, o), |st.log|);
    }
  }

  /**
   Buffer and tracker together: however fragments are lost, reordered, duplicated and repaired, an
   object within the bound that keeps a missing number in repair (or can still ask) at each of its expiries inside
   the maximum age, and is never the slot evicted at the cap, completes as soon as its last fragment has
   been seen, with exactly its own bytes and identifiers; until then its slot holds what has been seen.
   */
  lemma RepairedObjectIsDelivered(cfg: Config, tc: T.Config, st: Sys, ops: seq<SysOp>, k: Key, o: Object)
    requires cfg.waits && cfg.asks && ConfigOk(cfg) && Cuttable(o) && Fits(cfg, k, o)
    requires Inv(cfg, st) && k !in st.slots && k !in st.done
    requires forall i :: 0 <= i < |ops| ==>
                           Honest(ops[i], k, o) && Guarded(cfg, tc, SysRun(cfg, tc, st, ops[..i]), ops[i], k)
    ensures var r := SysRun(cfg, tc, st, ops);
            var held := SysArrived(ops, k, o);
            && (AllIn(held, o) ==> Finished(cfg, r.log, |st.log|, k, o))
            && (!AllIn(held, o) && held != {} ==> k in r.slots && r.slots[k].parts.Keys == held)
  {
    hide SysRun, Finished, AllIn, SysArrived, Honest, Guarded, Inv, Fits;
    SysRunOnCourse(cfg, tc, st, ops, k, o);
  }
}
