/**
 Nothing gets lost between the last missing fragment and delivery: an object whose slot is not
 abandoned completes exactly when every one of its fragments has been observed.
 */
module Delivery {
  import opened Base
  import opened Grid
  import opened Slots
  import opened Reassembly
  import opened ReassemblyInvariants
  import opened ReassemblyTheorems
  import opened Reconstruction

  ghost predicate AllIn(held: set<nat>, o: Object) {
    forall i :: 0 <= i < o.total ==> i in held
  }

  /** From position base on, the object was completed, truthfully. */
  ghost predicate Finished(cfg: Config, log: seq<Event>, base: nat, k: Key, o: Object) {
    exists j :: base <= j < |log| && Finishes(cfg, log[j], k, o)
  }

  ghost predicate Finishes(cfg: Config, e: Event, k: Key, o: Object) {
    e.Completed? && e.key == k && Truthful(cfg, e.result, k, o.bytes)
  }

  /** Where the object stands once the fragments in held have been observed. */
  ghost predicate Progress<E>(cfg: Config, st: State<E>, k: Key, o: Object, held: set<nat>, base: nat)
    requires Cuttable(o)
  {
    if AllIn(held, o) then Finished(cfg, st.log, base, k, o)
    else if held == {} then k !in st.slots && k !in st.done
    else k in st.slots && HoldsCutsOf(st.slots[k], o) && st.slots[k].parts.Keys == held
  }

  /** The index an operation contributes for key k. */
  function Contributes<E>(op: Op<E>, k: Key, o: Object): set<nat> {
    if op.ObserveOp? && SlotKey(op.f) == k && op.f.index < o.total then {op.f.index as nat} else {}
  }

  function Arrived<E>(ops: seq<Op<E>>, k: Key, o: Object): set<nat> {
    if ops == [] then {} else Arrived(ops[..|ops| - 1], k, o) + Contributes(ops[|ops| - 1], k, o)
  }

  /** The object is no longer than the bound for its kind, if there is one, and not of the largest 32-bit length. */
  predicate Fits(cfg: Config, k: Key, o: Object) {
    var bound := if k.Pair? && cfg.maxObjectV9 > 0 then cfg.maxObjectV9 + cfg.beefEnvelope else cfg.maxObject;
    |o.bytes| < 0xFFFF_FFFF && (bound > 0 ==> |o.bytes| <= bound)
  }

  /** A fragment of the object passes the tests before a slot exactly when the object fits. */
  lemma FitsExactlyWhen(cfg: Config, f: Fragment, k: Key, o: Object)
    requires Cuttable(o) && SlotKey(f) == k && Genuine(f, k, o) && f.index < f.total
    ensures Fits(cfg, k, o) <==> !Pathological(f) && !TooLarge(cfg, f)
  {
    NoMoreThanBytes(|o.bytes|, o.total, o.fragSize);
  }

  lemma NoMoreThanBytes(objLen: nat, total: nat, fs: nat)
    requires IsFragSize(objLen, total, fs)
    ensures 1 <= total <= objLen
  {
    assert (total - 1) * fs >= total - 1;
  }

  lemma FinishedGrows(cfg: Config, log: seq<Event>, log': seq<Event>, base: nat, k: Key, o: Object)
    requires Finished(cfg, log, base, k, o) && log <= log'
    ensures Finished(cfg, log', base, k, o)
  {
    var j :| base <= j < |log| && Finishes(cfg, log[j], k, o);
    assert log'[j] == log[j];
  }

  lemma NotDroppedPrefix(log: seq<Event>, log': seq<Event>, base: nat, from: nat, k: Key)
    requires log <= log' && NotDropped(log', base, k) && base <= from
    ensures NotDropped(log, base, k) && NotDropped(log', from, k)
  {
    assert forall j :: 0 <= j < |log| ==> log[j] == log'[j];
  }

  /** A step that touches only other keys, and drops nothing of k. */
  lemma SurvivesProgress<E>(cfg: Config, st: State<E>, r: State<E>, k: Key, o: Object, held: set<nat>, base: nat)
    requires Cuttable(o) && Progress(cfg, st, k, o, held, base)
    requires Survives(st, r, k) && NotDropped(r.log, base, k) && base <= |st.log|
    ensures Progress(cfg, r, k, o, held, base)
  {
    if AllIn(held, o) {
      FinishedGrows(cfg, st.log, r.log, base, k, o);
    } else {
      NotDroppedPrefix(st.log, r.log, base, |st.log|, k);
    }
  }

  lemma CountAllIn(held: set<nat>, o: Object)
    requires forall i :: i in held ==> i < o.total
    ensures AllIn(held, o) <==> |held| >= o.total
  {
    BelowSize(held, o.total);
  }

  /** A genuine fragment of k reaches its open slot. */
  lemma AdmitProgress<E>(cfg: Config, st: State<E>, f: Fragment, at: Time, k: Key, o: Object, base: nat)
    requires Cuttable(o) && SlotKey(f) == k && Genuine(f, k, o) && base <= |st.log|
    requires k in st.slots && SlotInv(cfg, k, st.slots[k], 0) && HoldsCutsOf(st.slots[k], o)
    requires |st.slots[k].parts.Keys + (if f.index < o.total then {f.index as nat} else {})| > 0
    ensures var held := st.slots[k].parts.Keys + (if f.index < o.total then {f.index as nat} else {});
            Progress(cfg, Admit(cfg, st, f, at), k, o, held, base)
  {
    hide Admit, SlotOk, Outcome, Truthful;
    var s := st.slots[k];
    var held := s.parts.Keys + (if f.index < o.total then {f.index as nat} else {});
    AdmitGenuine(cfg, st, f, at, k, o);
    CountAllIn(held, o);
    OutcomeIsTruthful(cfg, k, s, o.bytes);
    if |held| >= o.total {
      var e := Completed(k, at, s.extended, Outcome(cfg, s, o.bytes));
      var r := Admit(cfg, st, f, at);
      assert Finishes(cfg, e, k, o) && r.log[|st.log|] == e;
    }
  }

  lemma ArriveLogGrows<E>(cfg: Config, st: State<E>, f: Fragment, now: Time, at: Time)
    ensures st.log <= Arrive(cfg, st, f, now, at).log
  {
    hide Admit;
    if SlotKey(f) in st.slots {
      AdmitLogGrows(cfg, st, f, at);
    } else if SlotKey(f) !in st.done && !Pathological(f) && !TooLarge(cfg, f) {
      AdmitLogGrows(cfg, Open(cfg, MakeRoom(cfg, st), f, now), f, at);
    }
  }

  /** The fragment belongs to k and the object is not finished. */
  lemma ArriveProgress<E>(cfg: Config, st: State<E>, f: Fragment, now: Time, at: Time, k: Key, o: Object,
                          held: set<nat>, base: nat)
    requires Cuttable(o) && SlotKey(f) == k && Genuine(f, k, o) && SlotsInv(cfg, st.slots)
    requires Progress(cfg, st, k, o, held, base) && base <= |st.log| && !AllIn(held, o)
    requires Fits(cfg, k, o)
    requires k in st.slots ==> k !in st.done
    ensures Progress(cfg, Arrive(cfg, st, f, now, at), k, o,
                     held + (if f.index < o.total then {f.index as nat} else {}), base)
  {
    hide Admit, MakeRoom, SlotInv, HoldsCutsOf, Finished, Fits, Pathological, TooLarge;
    if k in st.slots {
      WeakerSlotInv(cfg, k, st.slots[k]);
      SlotNotEmpty(cfg, k, st.slots[k], f, o);
      AdmitProgress(cfg, st, f, at, k, o, base);
    } else if f.index < o.total {
      FitsExactlyWhen(cfg, f, k, o);
      var room := MakeRoom(cfg, st);
      var begun := Open(cfg, room, f, now);
      MakeRoomSurvives(cfg, st, k);
      OpenedSlot(cfg, f, now);
      OpenedHolds(f, now, cfg.ttl, k, o);
      assert begun.slots[k].parts.Keys + {f.index as nat} == {f.index as nat};
      AdmitProgress(cfg, begun, f, at, k, o, base);
    } else {
      NoSuchFragment(f);
      assert held + {} == held;
    }
  }

  lemma NoSuchFragment(f: Fragment)
    requires f.index >= f.total
    ensures Pathological(f)
  {
  }

  lemma SlotNotEmpty(cfg: Config, k: Key, s: Slot, f: Fragment, o: Object)
    requires SlotInv(cfg, k, s, 1)
    ensures |s.parts.Keys + (if f.index < o.total then {f.index as nat} else {})| > 0
  {
    SubsetSize(s.parts.Keys, s.parts.Keys + (if f.index < o.total then {f.index as nat} else {}));
  }

  lemma OpenedHolds(f: Fragment, now: Time, ttl: Time, k: Key, o: Object)
    requires Cuttable(o) && SlotKey(f) == k && Genuine(f, k, o)
    ensures HoldsCutsOf(OpenSlot(f, now, ttl), o)
  {
  }

  lemma AllInGrows(held: set<nat>, more: set<nat>, o: Object)
    requires AllIn(held, o)
    ensures AllIn(held + more, o)
  {
  }

  lemma ObserveProgress<E>(cfg: Config, st: State<E>, op: Op<E>, k: Key, o: Object, held: set<nat>, base: nat)
    requires Cuttable(o) && op.ObserveOp? && Genuine(op.f, k, o) && Inv(cfg, st) && Fits(cfg, k, o)
    requires Progress(cfg, st, k, o, held, base) && base <= |st.log|
    requires NotDropped(Arrive(cfg, st, op.f, op.now, op.at).log, base, k)
    ensures Progress(cfg, Arrive(cfg, st, op.f, op.now, op.at), k, o, held + Contributes(op, k, o), base)
  {
    hide Arrive, HoldsCutsOf, Finished, SlotInv, Balanced, AsksOnce, WithinCap, Fits;
    var r := Arrive(cfg, st, op.f, op.now, op.at);
    if AllIn(held, o) {
      ArriveLogGrows(cfg, st, op.f, op.now, op.at);
      FinishedGrows(cfg, st.log, r.log, base, k, o);
      AllInGrows(held, Contributes(op, k, o), o);
    } else if SlotKey(op.f) == k {
      ArriveProgress(cfg, st, op.f, op.now, op.at, k, o, held, base);
    } else {
      ArriveOther(cfg, st, op.f, op.now, op.at, k);
      SurvivesProgress(cfg, st, r, k, o, held, base);
      assert held + Contributes(op, k, o) == held;
    }
  }

  lemma PurgeDrops<E>(st: State<E>, base: nat, k: Key)
    requires base <= |st.log|
    ensures !NotDropped(Purge(st).log, base, k)
  {
    assert Purge(st).log[|st.log|].Purged?;
  }

  lemma StepProgress<E>(cfg: Config, hooks: Hooks<E>, st: State<E>, op: Op<E>, k: Key, o: Object, held: set<nat>,
                        base: nat)
    requires Cuttable(o) && Inv(cfg, st) && Progress(cfg, st, k, o, held, base) && base <= |st.log|
    requires (op.ObserveOp? ==> Genuine(op.f, k, o)) && Fits(cfg, k, o)
    requires NotDropped(Step(cfg, hooks, st, op).log, base, k)
    ensures Progress(cfg, Step(cfg, hooks, st, op), k, o, held + Contributes(op, k, o), base)
  {
    hide Arrive, Progress, LazySweep, EvictExpired, Inv, Genuine, Fits;
    assert !op.ObserveOp? ==> held + Contributes(op, k, o) == held;
    match op
    case ObserveOp(f, now, at) =>
      var swept := LazySweep(cfg, hooks, st, now);
      LazySweepKeeps(cfg, hooks, st, now);
      LazySweepSurvives(cfg, hooks, st, now, k);
      ArriveLogGrows(cfg, swept, f, now, at);
      NotDroppedPrefix(swept.log, Step(cfg, hooks, st, op).log, base, base, k);
      SurvivesProgress(cfg, st, swept, k, o, held, base);
      ObserveProgress(cfg, swept, op, k, o, held, base);
    case TickOp(now) =>
      LazySweepSurvives(cfg, hooks, st, now, k);
      SurvivesProgress(cfg, st, Step(cfg, hooks, st, op), k, o, held, base);
    case PurgeOp =>
      PurgeDrops(st, base, k);
      assert false;
    case RepairOp(env) =>
      SurvivesProgress(cfg, st, st.(env := env), k, o, held, base);
  }

  lemma StepLogGrows<E>(cfg: Config, hooks: Hooks<E>, st: State<E>, op: Op<E>)
    ensures st.log <= Step(cfg, hooks, st, op).log
  {
    hide Arrive, LazySweep, EvictExpired;
    match op
    case ObserveOp(f, now, at) =>
      LazySweepSurvives(cfg, hooks, st, now, SlotKey(f));
      ArriveLogGrows(cfg, LazySweep(cfg, hooks, st, now), f, now, at);
    case TickOp(now) => LazySweepSurvives(cfg, hooks, st, now, Single(0));
    case _ =>
  }

  lemma {:induction false} RunProgress<E>(cfg: Config, hooks: Hooks<E>, st: State<E>, ops: seq<Op<E>>, k: Key, o: Object)
    requires ConfigOk(cfg) && Inv(cfg, st) && Cuttable(o) && k !in st.slots && k !in st.done
    requires AllGenuine(ops, k, o) && Fits(cfg, k, o)
    requires NotDropped(Run(cfg, hooks, st, ops).log, |st.log|, k)
    ensures st.log <= Run(cfg, hooks, st, ops).log
    ensures Progress(cfg, Run(cfg, hooks, st, ops), k, o, Arrived(ops, k, o), |st.log|)
  {
    hide Inv, Step, Progress, Genuine, Fits, Contributes;
    if ops == [] {
      StartProgress(cfg, st, k, o);
    } else {
      var front := ops[..|ops| - 1];
      var mid := Run(cfg, hooks, st, front);
      StepLogGrows(cfg, hooks, mid, ops[|ops| - 1]);
      RunLogGrows(cfg, hooks, st, front);
      NotDroppedPrefix(mid.log, Run(cfg, hooks, st, ops).log, |st.log|, |st.log|, k);
      RunProgress(cfg, hooks, st, front, k, o);
      RunKeeps(cfg, hooks, st, front);
      StepProgress(cfg, hooks, mid, ops[|ops| - 1], k, o, Arrived(front, k, o), |st.log|);
    }
  }

  lemma StartProgress<E>(cfg: Config, st: State<E>, k: Key, o: Object)
    requires Cuttable(o) && k !in st.slots && k !in st.done
    ensures Progress(cfg, st, k, o, {}, |st.log|)
  {
    var none: set<nat> := {};
    assert 0 !in none;
  }

  lemma {:induction false} RunLogGrows<E>(cfg: Config, hooks: Hooks<E>, st: State<E>, ops: seq<Op<E>>)
    ensures st.log <= Run(cfg, hooks, st, ops).log
  {
    hide Step;
    if ops != [] {
      RunLogGrows(cfg, hooks, st, ops[..|ops| - 1]);
      StepLogGrows(cfg, hooks, Run(cfg, hooks, st, ops[..|ops| - 1]), ops[|ops| - 1]);
    }
  }

  /**
   Over any run that does not abandon the object's slot or purge the buffer, an object within the bound
   whose fragments are genuine completes once every fragment has been observed, in any order and with
   any duplicates; until then its slot holds exactly the fragments observed so far.
   */
  lemma CompletesWhenAllArrived<E>(cfg: Config, hooks: Hooks<E>, st: State<E>, ops: seq<Op<E>>, k: Key, o: Object)
    requires ConfigOk(cfg) && Inv(cfg, st) && Cuttable(o) && k !in st.slots && k !in st.done
    requires AllGenuine(ops, k, o) && Fits(cfg, k, o)
    requires NotDropped(Run(cfg, hooks, st, ops).log, |st.log|, k)
    ensures var r := Run(cfg, hooks, st, ops);
            var held := Arrived(ops, k, o);
            && (AllIn(held, o) ==> Finished(cfg, r.log, |st.log|, k, o))
            && (!AllIn(held, o) && held != {} ==> k in r.slots && r.slots[k].parts.Keys == held)
  {
    hide Run, Finished, AllIn, Arrived, Fits;
    RunProgress(cfg, hooks, st, ops, k, o);
  }
  // ----- an object that does not fit -----

  /** No slot, no memory and no completion of k since position base. */
  ghost predicate Unopened<E>(st: State<E>, k: Key, base: nat) {
    && k !in st.slots && k !in st.done && base <= |st.log|
    && forall j :: base <= j < |st.log| ==> st.log[j] != Started(k) && !(st.log[j].Completed? && st.log[j].key == k)
  }

  lemma SweepUnopened<E>(cfg: Config, hooks: Hooks<E>, st: State<E>, now: Time, k: Key, base: nat)
    requires Inv(cfg, st) && Unopened(st, k, base)
    ensures Unopened(EvictExpired(cfg, hooks, st, now), k, base)
    ensures Unopened(LazySweep(cfg, hooks, st, now), k, base)
  {
    hide SweepList, Inv;
    LazySweepSurvives(cfg, hooks, st, now, k);
    SweepDoneKeeps(cfg, st, now);
    SweepListSpeaks(cfg, hooks, SweepDone(st, now), st.insertOrder, |st.insertOrder|, now);
  }

  lemma ArriveUnopened<E>(cfg: Config, st: State<E>, f: Fragment, now: Time, at: Time, k: Key, o: Object, base: nat)
    requires Cuttable(o) && Genuine(f, k, o) && !Fits(cfg, k, o) && Inv(cfg, st) && Unopened(st, k, base)
    ensures Unopened(Arrive(cfg, st, f, now, at), k, base)
  {
    hide Inv, Fits, Pathological, TooLarge, Admit, MakeRoom, Genuine;
    InvSlots(cfg, st);
    if SlotKey(f) != k {
      hide Arrive;
      ArriveSilent(cfg, st, f, now, at, k);
      ArriveOther(cfg, st, f, now, at, k);
    } else if f.index < f.total {
      FitsExactlyWhen(cfg, f, k, o);
    } else {
      NoSuchFragment(f);
    }
  }

  lemma StepUnopened<E>(cfg: Config, hooks: Hooks<E>, st: State<E>, op: Op<E>, k: Key, o: Object, base: nat)
    requires Cuttable(o) && (op.ObserveOp? ==> Genuine(op.f, k, o)) && !Fits(cfg, k, o)
    requires Inv(cfg, st) && Unopened(st, k, base)
    ensures Unopened(Step(cfg, hooks, st, op), k, base)
  {
    hide Inv, Arrive, LazySweep, EvictExpired, Genuine, Fits;
    match op
    case ObserveOp(f, now, at) =>
      SweepUnopened(cfg, hooks, st, now, k, base);
      LazySweepKeeps(cfg, hooks, st, now);
      ArriveUnopened(cfg, LazySweep(cfg, hooks, st, now), f, now, at, k, o, base);
    case TickOp(now) => SweepUnopened(cfg, hooks, st, now, k, base);
    case PurgeOp =>
    case RepairOp(_) =>
  }

  /** An object that does not fit is never taken in, let alone delivered, whatever else the run does. */
  lemma {:induction false} UnfitIsNeverOpened<E>(cfg: Config, hooks: Hooks<E>, st: State<E>, ops: seq<Op<E>>, k: Key,
                                                 o: Object)
    requires ConfigOk(cfg) && Inv(cfg, st) && Cuttable(o) && k !in st.slots && k !in st.done
    requires AllGenuine(ops, k, o) && !Fits(cfg, k, o)
    ensures Unopened(Run(cfg, hooks, st, ops), k, |st.log|)
  {
    hide Inv, Step, Genuine, Fits;
    if ops != [] {
      var front := ops[..|ops| - 1];
      UnfitIsNeverOpened(cfg, hooks, st, front, k, o);
      RunKeeps(cfg, hooks, st, front);
      StepUnopened(cfg, hooks, Run(cfg, hooks, st, front), ops[|ops| - 1], k, o, |st.log|);
    }
  }
}
