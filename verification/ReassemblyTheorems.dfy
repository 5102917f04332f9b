/**
 What the reassembly buffer promises over whole runs: conservation and capacity, a bounded repair
 wait, and at-most-once completion.
 */
module ReassemblyTheorems {
  import opened Base
  import opened Grid
  import opened Slots
  import opened Reassembly
  import opened ReassemblyInvariants

  /**
   In every reachable state each slot ever opened is accounted for, live slots are within the cap
   and each holds some but not all of its fragments.
   */
  lemma Conservation<E>(cfg: Config, hooks: Hooks<E>, env: E, ops: seq<Op<E>>)
    requires ConfigOk(cfg)
    ensures var st := Run(cfg, hooks, Fresh(env), ops);
            var t := TallyOf(st.log);
            && t.started == t.completed + t.bad + t.abandoned + |st.slots|
            && |st.slots| <= cfg.maxSlots
            && |st.done| <= cfg.maxSlots
            && (forall k :: k in st.slots ==> 1 <= |st.slots[k].parts| < st.slots[k].total && k !in st.done)
  {
    hide Run, TallyOf, AsksOnce;
    FreshInv(cfg, env);
    RunKeeps(cfg, hooks, Fresh(env), ops);
    var st := Run(cfg, hooks, Fresh(env), ops);
    NoDupSize(st.doneOrder);
  }

  // ----- bounded repair wait -----

  lemma SweptInTime<E>(cfg: Config, hooks: Hooks<E>, st: State<E>, k: Key, now: Time)
    requires ConfigOk(cfg)
    ensures var r := SweepOne(cfg, hooks, st, k, now);
            k in r.slots ==> now <= r.slots[k].deadline
  {
  }

  lemma {:induction false} ListSweptInTime<E>(cfg: Config, hooks: Hooks<E>, st: State<E>, order: seq<Key>, n: nat,
                                              now: Time)
    requires ConfigOk(cfg) && n <= |order|
    ensures var r := SweepList(cfg, hooks, st, order, n, now);
            && (forall k :: k in r.slots ==> k in st.slots)
            && (forall j :: 0 <= j < n && order[j] in r.slots ==> now <= r.slots[order[j]].deadline)
  {
    if n > 0 {
      hide SweepOne;
      var mid := SweepList(cfg, hooks, st, order, n - 1, now);
      ListSweptInTime(cfg, hooks, st, order, n - 1, now);
      SweptInTime(cfg, hooks, mid, order[n - 1], now);
      SweepOneFrame(cfg, hooks, mid, order[n - 1], now);
    }
  }

  /**
   After a sweep no live slot is past its deadline, so none is older than the larger of the TTL
   and the maximum age, whatever the repair path answered.
   */
  lemma BoundedWait<E>(cfg: Config, hooks: Hooks<E>, st: State<E>, now: Time)
    requires Inv(cfg, st) && ConfigOk(cfg)
    ensures var r := EvictExpired(cfg, hooks, st, now);
            forall k :: k in r.slots ==>
                          now <= r.slots[k].deadline && now <= r.slots[k].born + Max(cfg.ttl, cfg.maxAge)
  {
    var r := EvictExpired(cfg, hooks, st, now);
    EvictExpiredKeeps(cfg, hooks, st, now);
    ListSweptInTime(cfg, hooks, SweepDone(st, now), st.insertOrder, |st.insertOrder|, now);
    SweepDoneKeeps(cfg, st, now);
    SweepListKeeps(cfg, hooks, SweepDone(st, now), st.insertOrder, |st.insertOrder|, now);
    InOrderInTime(cfg, SweepList(cfg, hooks, SweepDone(st, now), st.insertOrder, |st.insertOrder|, now), now);
  }

  lemma InOrderInTime<E>(cfg: Config, st: State<E>, now: Time)
    requires Inv(cfg, st)
    requires forall j :: 0 <= j < |st.insertOrder| && st.insertOrder[j] in st.slots ==>
                           now <= st.slots[st.insertOrder[j]].deadline
    ensures forall k :: k in st.slots ==>
                          now <= st.slots[k].deadline && now <= st.slots[k].born + Max(cfg.ttl, cfg.maxAge)
  {
    forall k | k in st.slots
      ensures now <= st.slots[k].deadline && now <= st.slots[k].born + Max(cfg.ttl, cfg.maxAge)
    {
      assert k in st.insertOrder;
      assert SlotInv(cfg, k, st.slots[k], 1);
    }
  }

  /**
   In every run, at every point of its log, the latest slot of a key has asked for its missing fragments
   and been counted extended at most once: also slots that end and are reopened within one operation.
   */
  lemma AskedOnce<E>(cfg: Config, hooks: Hooks<E>, env: E, ops: seq<Op<E>>, k: Key)
    requires ConfigOk(cfg)
    ensures var log := Run(cfg, hooks, Fresh(env), ops).log;
            forall n :: 0 <= n <= |log| ==> Asks(log[..n], k) <= 1 && Extends(log[..n], k) <= 1
  {
    hide Run, Asks, Extends, SlotsInv, WithinCap, Memory, Balanced;
    FreshInv(cfg, env);
    RunKeeps(cfg, hooks, Fresh(env), ops);
  }

  // ----- at most once -----

  /** The other keys completed after position i of the log. */
  ghost function Others(log: seq<Event>, i: nat): set<Key>
    requires i < |log| && log[i].Completed?
  {
    set j | i < j < |log| && log[j].Completed? && log[j].key != log[i].key :: log[j].key
  }

  /** Why the completion at log[i] may no longer be remembered when the clock reads clock. */
  ghost predicate Forgotten(cfg: Config, log: seq<Event>, i: nat, clock: Time)
    requires i < |log| && log[i].Completed?
  {
    || (exists j :: i < j < |log| && log[j].Purged?)
    || clock > log[i].at + cfg.completionTTL
    || |Others(log, i)| >= cfg.maxSlots
  }

  /** The completion at log[i] is still in the memory, ahead only of keys completed after it. */
  ghost predicate Remembered<E>(cfg: Config, st: State<E>, i: nat)
    requires i < |st.log| && st.log[i].Completed?
  {
    var k := st.log[i].key;
    && k in st.done
    && st.done[k] == st.log[i].at + cfg.completionTTL
    && forall p, q :: 0 <= p < q < |st.doneOrder| && st.doneOrder[p] == k ==>
                        st.doneOrder[q] in Others(st.log, i)
  }

  ghost predicate Recalls<E>(cfg: Config, st: State<E>, clock: Time) {
    forall i :: 0 <= i < |st.log| && st.log[i].Completed? ==>
                  Forgotten(cfg, st.log, i, clock) || Remembered(cfg, st, i)
  }

  /**
   A key completes again only after a purge, after its memory ran out, or after maxSlots other
   keys have completed in between.
   */
  ghost predicate AtMostOnce(cfg: Config, log: seq<Event>) {
    forall i, j :: 0 <= i < j < |log| && log[i].Completed? && log[j].Completed? && log[i].key == log[j].key ==>
                     Forgotten(cfg, log[..j], i, log[j].at)
  }

  lemma ForgottenGrows(cfg: Config, log: seq<Event>, log': seq<Event>, i: nat, clock: Time, clock': Time)
    requires i < |log| && log[i].Completed? && log <= log' && clock <= clock'
    ensures Others(log, i) <= Others(log', i)
    ensures Forgotten(cfg, log, i, clock) ==> Forgotten(cfg, log', i, clock')
  {
    forall k | k in Others(log, i)
      ensures k in Others(log', i)
    {
      var j :| i < j < |log| && log[j].Completed? && log[j].key != log[i].key && log[j].key == k;
      assert log'[j] == log[j];
    }
    SubsetSize(Others(log, i), Others(log', i));
    if exists j :: i < j < |log| && log[j].Purged? {
      var j :| i < j < |log| && log[j].Purged?;
      assert log'[j].Purged?;
    }
  }

  /** The log grew by events none of which completes a slot. */
  ghost predicate Quiet(log: seq<Event>, log': seq<Event>) {
    log <= log' && forall j :: |log| <= j < |log'| ==> !log'[j].Completed?
  }

  /** A step that completes nothing and leaves the completion memory alone. */
  lemma QuietRecalls<E>(cfg: Config, st: State<E>, st': State<E>, clock: Time, clock': Time)
    requires Recalls(cfg, st, clock) && AtMostOnce(cfg, st.log)
    requires Quiet(st.log, st'.log) && clock <= clock'
    requires st'.done == st.done && st'.doneOrder == st.doneOrder
    ensures Recalls(cfg, st', clock') && AtMostOnce(cfg, st'.log)
  {
    forall i | 0 <= i < |st'.log| && st'.log[i].Completed?
      ensures Forgotten(cfg, st'.log, i, clock') || Remembered(cfg, st', i)
    {
      assert st'.log[i] == st.log[i];
      ForgottenGrows(cfg, st.log, st'.log, i, clock, clock');
    }
    QuietPairs(cfg, st.log, st'.log);
  }

  lemma QuietPairs(cfg: Config, log: seq<Event>, log': seq<Event>)
    requires AtMostOnce(cfg, log) && Quiet(log, log')
    ensures AtMostOnce(cfg, log')
  {
    forall i, j | 0 <= i < j < |log'| && log'[i].Completed? && log'[j].Completed? && log'[i].key == log'[j].key
      ensures Forgotten(cfg, log'[..j], i, log'[j].at)
    {
      assert log'[i] == log[i] && log'[j] == log[j] && log'[..j] == log[..j];
    }
  }

  lemma SweepDoneRecalls<E>(cfg: Config, st: State<E>, clock: Time, now: Time)
    requires Recalls(cfg, st, clock) && clock <= now
    ensures Recalls(cfg, SweepDone(st, now), now)
  {
    var r := SweepDone(st, now);
    var keep := Unexpired(st.done, now);
    forall i | 0 <= i < |r.log| && r.log[i].Completed?
      ensures Forgotten(cfg, r.log, i, now) || Remembered(cfg, r, i)
    {
      ForgottenGrows(cfg, st.log, st.log, i, clock, now);
      if !Forgotten(cfg, r.log, i, now) {
        forall p, q | 0 <= p < q < |r.doneOrder| && r.doneOrder[p] == r.log[i].key
          ensures r.doneOrder[q] in Others(r.log, i)
        {
          var p', q' := RestrictOrder(st.doneOrder, keep, p, q);
        }
      }
    }
  }

  /** Completing one more key: an evicted memory has had maxSlots other completions since. */
  lemma CompleteRecalls<E>(cfg: Config, st: State<E>, t: Slot, at: Time, clock: Time)
    requires ConfigOk(cfg) && Recalls(cfg, st, clock) && AtMostOnce(cfg, st.log) && clock <= at
    requires Memory(cfg, {}, st.done.Keys, st.doneOrder) && t.key !in st.done
    ensures Recalls(cfg, Complete(cfg, st, t, at), at) && AtMostOnce(cfg, Complete(cfg, st, t, at).log)
  {
    var r := Complete(cfg, st, t, at);
    forall i | 0 <= i < |r.log| && r.log[i].Completed?
      ensures Forgotten(cfg, r.log, i, at) || Remembered(cfg, r, i)
    {
      if i < |st.log| {
        OlderRecalls(cfg, st, t, at, clock, i);
      } else {
        NewestRecalls(cfg, st, t, at);
      }
    }
    forall i, j | 0 <= i < j < |r.log| && r.log[i].Completed? && r.log[j].Completed? && r.log[i].key == r.log[j].key
      ensures Forgotten(cfg, r.log[..j], i, r.log[j].at)
    {
      if j < |st.log| {
        assert r.log[..j] == st.log[..j];
      } else {
        assert r.log[..j] == st.log;
        ForgottenGrows(cfg, st.log, st.log, i, clock, at);
      }
    }
  }

  /** A key newly remembered is the last of the queue and nowhere else in it. */
  lemma MarkedLast<E>(cfg: Config, st: State<E>, k: Key, at: Time)
    requires Memory(cfg, {}, st.done.Keys, st.doneOrder) && k !in st.done
    ensures var r := MarkDone(cfg, st, k, at);
            && k in r.done && r.done[k] == at + cfg.completionTTL && |r.doneOrder| > 0
            && forall p :: 0 <= p < |r.doneOrder| - 1 ==> r.doneOrder[p] != k
  {
    hide NoDup;
    var r := MarkDone(cfg, st, k, at);
    forall p | 0 <= p < |r.doneOrder| - 1
      ensures r.doneOrder[p] != k
    {
      assert r.doneOrder[p] in st.doneOrder;
      assert r.doneOrder[p] in Elements(st.doneOrder);
    }
  }

  lemma NewestRecalls<E>(cfg: Config, st: State<E>, t: Slot, at: Time)
    requires Memory(cfg, {}, st.done.Keys, st.doneOrder) && t.key !in st.done
    ensures Remembered(cfg, Complete(cfg, st, t, at), |st.log|)
  {
    hide Outcome, Payload, Others, MarkDone, Memory;
    MarkedLast(cfg, st, t.key, at);
  }

  lemma OlderRecalls<E>(cfg: Config, st: State<E>, t: Slot, at: Time, clock: Time, i: nat)
    requires ConfigOk(cfg) && Recalls(cfg, st, clock) && clock <= at
    requires Memory(cfg, {}, st.done.Keys, st.doneOrder) && t.key !in st.done
    requires i < |st.log| && st.log[i].Completed?
    ensures var r := Complete(cfg, st, t, at);
            Forgotten(cfg, r.log, i, at) || Remembered(cfg, r, i)
  {
    hide Outcome, Payload;
    var r := Complete(cfg, st, t, at);
    ForgottenGrows(cfg, st.log, r.log, i, clock, at);
    if Remembered(cfg, st, i) {
      assert r.log[|st.log|].Completed? && r.log[|st.log|].key == t.key;
      assert t.key in Others(r.log, i);
      hide Others, NoDup, Recalls, MarkDone;
      if |st.done| >= cfg.maxSlots && |st.doneOrder| > 0 && st.doneOrder[0] == st.log[i].key {
        PushedOut(cfg, st, t.key, Others(r.log, i));
      } else {
        KeepsPlace(cfg, st, t, at, i);
      }
    }
  }

  /** At the cap, the first of the queue has as many other keys behind it as makes the cap with the new one. */
  lemma PushedOut<E>(cfg: Config, st: State<E>, k: Key, others: set<Key>)
    requires Memory(cfg, {}, st.done.Keys, st.doneOrder) && k !in st.done && |st.done| >= cfg.maxSlots
    requires |st.doneOrder| > 0 && k in others && forall q :: 0 < q < |st.doneOrder| ==> st.doneOrder[q] in others
    ensures |others| >= cfg.maxSlots
  {
    var rest := st.doneOrder[1..];
    NoDupSize(st.doneOrder);
    NoDupSize(rest);
    assert k !in rest;
    SubsetSize(Elements(rest) + {k}, others);
  }

  lemma KeepsPlace<E>(cfg: Config, st: State<E>, t: Slot, at: Time, i: nat)
    requires ConfigOk(cfg) && Memory(cfg, {}, st.done.Keys, st.doneOrder) && t.key !in st.done
    requires i < |st.log| && st.log[i].Completed? && Remembered(cfg, st, i)
    requires Others(st.log, i) <= Others(Complete(cfg, st, t, at).log, i)
    requires t.key in Others(Complete(cfg, st, t, at).log, i)
    requires |st.done| >= cfg.maxSlots && |st.doneOrder| > 0 ==> st.doneOrder[0] != st.log[i].key
    ensures Remembered(cfg, Complete(cfg, st, t, at), i)
  {
    var r := Complete(cfg, st, t, at);
    var shift := if |st.done| >= cfg.maxSlots && |st.doneOrder| > 0 then 1 else 0;
    forall p, q | 0 <= p < q < |r.doneOrder| && r.doneOrder[p] == st.log[i].key
      ensures r.doneOrder[q] in Others(r.log, i)
    {
      assert r.doneOrder[p] == st.doneOrder[p + shift];
      if q < |r.doneOrder| - 1 {
        assert r.doneOrder[q] == st.doneOrder[q + shift];
      }
    }
  }

  // ----- what a sweep says -----

  /** The log grew by sweep events about keys of live. */
  ghost predicate AboutLive(log: seq<Event>, log': seq<Event>, live: set<Key>) {
    && log <= log'
    && forall j :: |log| <= j < |log'| ==>
                     (log'[j].Asked? || log'[j].Extended? || log'[j].Abandoned?) && log'[j].key in live
  }

  lemma AboutLiveTrans(a: seq<Event>, b: seq<Event>, c: seq<Event>, live: set<Key>, later: set<Key>)
    requires AboutLive(a, b, live) && AboutLive(b, c, later) && later <= live
    ensures AboutLive(a, c, live)
  {
    assert forall j :: |a| <= j < |b| ==> c[j] == b[j];
  }

  lemma SaysNothing(log: seq<Event>, live: set<Key>)
    ensures AboutLive(log, log, live)
  {
  }

  lemma HoldSpeaks<E>(cfg: Config, hooks: Hooks<E>, st: State<E>, k: Key, now: Time)
    requires k in st.slots && st.slots[k].key == k
    ensures AboutLive(st.log, HoldForRepair(cfg, hooks, st, k, now).log, {k})
  {
    var asked := AskOnce(cfg, hooks, st, k, now);
    assert AboutLive(st.log, asked.log, {k});
    var r := HoldForRepair(cfg, hooks, st, k, now);
    if Missing(st.slots[k]) != [] {
      AboutLiveTrans(st.log, asked.log, r.log, {k}, {k});
    }
  }

  lemma SweepOneSpeaks<E>(cfg: Config, hooks: Hooks<E>, st: State<E>, k: Key, now: Time)
    requires SlotsInv(cfg, st.slots)
    ensures AboutLive(st.log, SweepOne(cfg, hooks, st, k, now).log, st.slots.Keys)
  {
    if k in st.slots {
      assert SlotInv(cfg, k, st.slots[k], 1);
      if now > st.slots[k].deadline && cfg.waits {
        HoldSpeaks(cfg, hooks, st, k, now);
      }
    }
  }

  lemma {:induction false} SweepListSpeaks<E>(cfg: Config, hooks: Hooks<E>, st: State<E>, order: seq<Key>, n: nat,
                                              now: Time)
    requires Inv(cfg, st) && n <= |order|
    ensures var r := SweepList(cfg, hooks, st, order, n, now);
            && AboutLive(st.log, r.log, st.slots.Keys)
            && r.slots.Keys <= st.slots.Keys
            && r.done == st.done && r.doneOrder == st.doneOrder
  {
    hide SweepOne, Inv, SlotInv, AboutLive;
    if n == 0 {
      SaysNothing(st.log, st.slots.Keys);
    } else {
      var mid := SweepList(cfg, hooks, st, order, n - 1, now);
      SweepListSpeaks(cfg, hooks, st, order, n - 1, now);
      MidSlots(cfg, hooks, st, order, n - 1, now);
      SweepOneSpeaks(cfg, hooks, mid, order[n - 1], now);
      SweepOneFrame(cfg, hooks, mid, order[n - 1], now);
      var r := SweepOne(cfg, hooks, mid, order[n - 1], now);
      AboutLiveTrans(st.log, mid.log, r.log, st.slots.Keys, mid.slots.Keys);
    }
  }

  lemma MidSlots<E>(cfg: Config, hooks: Hooks<E>, st: State<E>, order: seq<Key>, n: nat, now: Time)
    requires Inv(cfg, st) && n <= |order|
    ensures SlotsInv(cfg, SweepList(cfg, hooks, st, order, n, now).slots)
  {
    hide SweepOne, SweepList, SlotsInv;
    SweepListKeeps(cfg, hooks, st, order, n, now);
  }

  // ----- at most once, step by step -----

  lemma EvictRecalls<E>(cfg: Config, hooks: Hooks<E>, st: State<E>, clock: Time, now: Time)
    requires Inv(cfg, st) && Recalls(cfg, st, clock) && AtMostOnce(cfg, st.log) && clock <= now
    ensures Recalls(cfg, EvictExpired(cfg, hooks, st, now), now)
    ensures AtMostOnce(cfg, EvictExpired(cfg, hooks, st, now).log)
  {
    hide Inv, Recalls, AtMostOnce, SweepList;
    var swept := SweepDone(st, now);
    SweepDoneRecalls(cfg, st, clock, now);
    SweepDoneKeeps(cfg, st, now);
    SweepListSpeaks(cfg, hooks, swept, st.insertOrder, |st.insertOrder|, now);
    QuietRecalls(cfg, swept, EvictExpired(cfg, hooks, st, now), now, now);
  }

  lemma AdmitRecalls<E>(cfg: Config, st: State<E>, f: Fragment, at: Time, clock: Time)
    requires ConfigOk(cfg) && Recalls(cfg, st, clock) && AtMostOnce(cfg, st.log) && clock <= at
    requires Memory(cfg, {}, st.done.Keys, st.doneOrder)
    requires SlotKey(f) in st.slots && SlotKey(f) !in st.done && st.slots[SlotKey(f)].key == SlotKey(f)
    ensures Recalls(cfg, Admit(cfg, st, f, at), at) && AtMostOnce(cfg, Admit(cfg, st, f, at).log)
  {
    hide Recalls, AtMostOnce, Complete;
    match Take(st.slots[SlotKey(f)], f)
    case Stored(t) =>
      if |t.parts| >= t.total {
        CompleteRecalls(cfg, st, t, at, clock);
      } else {
        QuietRecalls(cfg, st, Admit(cfg, st, f, at), clock, at);
      }
    case _ => QuietRecalls(cfg, st, Admit(cfg, st, f, at), clock, at);
  }

  lemma ArriveRecalls<E>(cfg: Config, st: State<E>, f: Fragment, now: Time, at: Time, clock: Time)
    requires ConfigOk(cfg) && Inv(cfg, st)
    requires Recalls(cfg, st, clock) && AtMostOnce(cfg, st.log) && clock <= at
    ensures Recalls(cfg, Arrive(cfg, st, f, now, at), at) && AtMostOnce(cfg, Arrive(cfg, st, f, now, at).log)
  {
    hide Recalls, AtMostOnce, Admit, Balanced, AsksOnce, WithinCap;
    var k := SlotKey(f);
    assert Memory(cfg, {}, st.done.Keys, st.doneOrder);
    if k in st.slots {
      assert SlotInv(cfg, k, st.slots[k], 1);
      AdmitRecalls(cfg, st, f, at, clock);
    } else if k in st.done || Pathological(f) || TooLarge(cfg, f) {
      QuietRecalls(cfg, st, Arrive(cfg, st, f, now, at), clock, at);
    } else {
      var begun := Open(cfg, MakeRoom(cfg, st), f, now);
      MakeRoomFrame(cfg, st);
      QuietRecalls(cfg, st, begun, clock, at);
      AdmitRecalls(cfg, begun, f, at, at);
    }
  }

  lemma PurgeRecalls<E>(cfg: Config, st: State<E>, clock: Time)
    requires AtMostOnce(cfg, st.log)
    ensures Recalls(cfg, Purge(st), clock) && AtMostOnce(cfg, Purge(st).log)
  {
    var log := Purge(st).log;
    assert log[|st.log|].Purged?;
    QuietPairs(cfg, st.log, log);
  }

  /** The clock after a step; a step reads it at or after the previous step did. */
  function ClockAfter<E>(op: Op<E>, clock: Time): Time {
    match op
    case ObserveOp(_, _, at) => at
    case TickOp(now) => now
    case _ => clock
  }

  predicate Timely<E>(op: Op<E>, clock: Time) {
    match op
    case ObserveOp(_, now, at) => clock <= now <= at
    case TickOp(now) => clock <= now
    case _ => true
  }

  function ClockOf<E>(ops: seq<Op<E>>, clock: Time): Time {
    if ops == [] then clock else ClockAfter(ops[|ops| - 1], ClockOf(ops[..|ops| - 1], clock))
  }

  predicate AllTimely<E>(ops: seq<Op<E>>, clock: Time) {
    ops == [] ||
    (AllTimely(ops[..|ops| - 1], clock) && Timely(ops[|ops| - 1], ClockOf(ops[..|ops| - 1], clock)))
  }

  lemma StepRecalls<E>(cfg: Config, hooks: Hooks<E>, st: State<E>, op: Op<E>, clock: Time)
    requires ConfigOk(cfg) && Inv(cfg, st) && Timely(op, clock)
    requires Recalls(cfg, st, clock) && AtMostOnce(cfg, st.log)
    ensures Recalls(cfg, Step(cfg, hooks, st, op), ClockAfter(op, clock))
    ensures AtMostOnce(cfg, Step(cfg, hooks, st, op).log)
  {
    hide Inv, Recalls, AtMostOnce, EvictExpired, Arrive, Purge;
    match op
    case ObserveOp(f, now, at) =>
      var swept := LazySweep(cfg, hooks, st, now);
      LazySweepKeeps(cfg, hooks, st, now);
      if SweepDue(cfg, st, now) {
        EvictRecalls(cfg, hooks, st, clock, now);
        QuietRecalls(cfg, EvictExpired(cfg, hooks, st, now), swept, now, now);
        ArriveRecalls(cfg, swept, f, now, at, now);
      } else {
        ArriveRecalls(cfg, st, f, now, at, clock);
      }
    case TickOp(now) => EvictRecalls(cfg, hooks, st, clock, now);
    case PurgeOp => PurgeRecalls(cfg, st, clock);
    case RepairOp(env) => QuietRecalls(cfg, st, st.(env := env), clock, clock);
  }

  lemma FreshRecalls<E>(cfg: Config, env: E, clock: Time)
    ensures Recalls(cfg, Fresh(env), clock) && AtMostOnce(cfg, Fresh(env).log)
  {
  }

  lemma {:induction false} RunRecalls<E>(cfg: Config, hooks: Hooks<E>, env: E, ops: seq<Op<E>>, clock: Time)
    requires ConfigOk(cfg) && AllTimely(ops, clock)
    ensures var st := Run(cfg, hooks, Fresh(env), ops);
            Inv(cfg, st) && Recalls(cfg, st, ClockOf(ops, clock)) && AtMostOnce(cfg, st.log)
  {
    hide Inv, Recalls, AtMostOnce, Step;
    if ops == [] {
      FreshInv(cfg, env);
      FreshRecalls(cfg, env, clock);
    } else {
      var front := ops[..|ops| - 1];
      var st := Run(cfg, hooks, Fresh(env), front);
      RunRecalls(cfg, hooks, env, front, clock);
      StepKeeps(cfg, hooks, st, ops[|ops| - 1]);
      StepRecalls(cfg, hooks, st, ops[|ops| - 1], ClockOf(front, clock));
    }
  }

  /**
   Over every run whose clock does not run backwards, no object completes twice unless the buffer
   was purged, its completion memory expired, or maxSlots other objects completed in between.
   */
  lemma CompletesAtMostOnce<E>(cfg: Config, hooks: Hooks<E>, env: E, ops: seq<Op<E>>, clock: Time, i: nat, j: nat)
    requires ConfigOk(cfg) && AllTimely(ops, clock)
    requires var log := Run(cfg, hooks, Fresh(env), ops).log;
             i < j < |log| && log[i].Completed? && log[j].Completed? && log[i].key == log[j].key
    ensures var log := Run(cfg, hooks, Fresh(env), ops).log;
            || (exists m :: i < m < j && log[m].Purged?)
            || log[j].at > log[i].at + cfg.completionTTL
            || |Others(log[..j], i)| >= cfg.maxSlots
  {
    hide Inv, Recalls, Run;
    RunRecalls(cfg, hooks, env, ops, clock);
    assert Forgotten(cfg, Run(cfg, hooks, Fresh(env), ops).log[..j], i, Run(cfg, hooks, Fresh(env), ops).log[j].at);
  }

  // ----- silence while remembered -----

  predicate Mentions(e: Event, k: Key) {
    if e.Purged? then k in e.keys else e.key == k
  }

  /** The only thing the log says about k from here on is that late copies of it were dropped. */
  ghost predicate OnlyLate(log: seq<Event>, log': seq<Event>, k: Key) {
    log <= log' && forall j :: |log| <= j < |log'| && Mentions(log'[j], k) ==> log'[j].LateFragment?
  }

  lemma OnlyLateTrans(a: seq<Event>, b: seq<Event>, c: seq<Event>, k: Key)
    requires OnlyLate(a, b, k) && OnlyLate(b, c, k)
    ensures OnlyLate(a, c, k)
  {
    assert forall j :: |a| <= j < |b| ==> c[j] == b[j];
  }

  /** A sweep says nothing of a key that has no slot. */
  lemma SweepSilent<E>(cfg: Config, hooks: Hooks<E>, st: State<E>, now: Time, k: Key)
    requires Inv(cfg, st) && k in st.done
    ensures var r := LazySweep(cfg, hooks, st, now);
            k !in r.slots && OnlyLate(st.log, r.log, k)
    ensures var r := EvictExpired(cfg, hooks, st, now);
            k !in r.slots && OnlyLate(st.log, r.log, k)
  {
    hide SweepList, SlotsInv, Balanced, AsksOnce, WithinCap, NoDup;
    SweepDoneKeeps(cfg, st, now);
    SweepListSpeaks(cfg, hooks, SweepDone(st, now), st.insertOrder, |st.insertOrder|, now);
  }

  lemma AdmitSilent<E>(cfg: Config, st: State<E>, f: Fragment, at: Time, k: Key)
    requires SlotKey(f) in st.slots && st.slots[SlotKey(f)].key == SlotKey(f) && SlotKey(f) != k && k !in st.slots
    ensures var r := Admit(cfg, st, f, at);
            k !in r.slots && OnlyLate(st.log, r.log, k)
  {
    hide Outcome, Payload, CheckFragLen;
  }

  lemma ArriveSilent<E>(cfg: Config, st: State<E>, f: Fragment, now: Time, at: Time, k: Key)
    requires SlotsInv(cfg, st.slots) && k !in st.slots && (SlotKey(f) == k ==> k in st.done || Pathological(f))
    ensures var r := Arrive(cfg, st, f, now, at);
            k !in r.slots && OnlyLate(st.log, r.log, k)
  {
    hide Admit, SlotOk, Pathological;
    if SlotKey(f) in st.slots {
      assert SlotInv(cfg, SlotKey(f), st.slots[SlotKey(f)], 1);
      AdmitSilent(cfg, st, f, at, k);
    } else if SlotKey(f) !in st.done && !Pathological(f) && !TooLarge(cfg, f) {
      var begun := Open(cfg, MakeRoom(cfg, st), f, now);
      assert OnlyLate(st.log, begun.log, k);
      AdmitSilent(cfg, begun, f, at, k);
      OnlyLateTrans(st.log, begun.log, Arrive(cfg, st, f, now, at).log, k);
    }
  }

  lemma RoomLogGrows<E>(cfg: Config, st: State<E>)
    ensures st.log <= MakeRoom(cfg, st).log
  {
  }

  lemma AdmitLogGrows<E>(cfg: Config, st: State<E>, f: Fragment, at: Time)
    requires SlotKey(f) in st.slots
    ensures st.log <= Admit(cfg, st, f, at).log
  {
    hide Outcome, Payload, CheckFragLen;
  }

  /** A fragment of a key that is neither live nor remembered is reported, unless it is pathological. */
  lemma ArriveReports<E>(cfg: Config, st: State<E>, f: Fragment, now: Time, at: Time)
    requires SlotKey(f) !in st.slots && SlotKey(f) !in st.done && !Pathological(f)
    ensures var r := Arrive(cfg, st, f, now, at);
            exists j :: |st.log| <= j < |r.log| && Mentions(r.log[j], SlotKey(f)) && !r.log[j].LateFragment?
  {
    hide Admit, MakeRoom, Pathological;
    var r := Arrive(cfg, st, f, now, at);
    if TooLarge(cfg, f) {
      assert Mentions(r.log[|st.log|], SlotKey(f));
    } else {
      var begun := Open(cfg, MakeRoom(cfg, st), f, now);
      RoomLogGrows(cfg, st);
      AdmitLogGrows(cfg, begun, f, at);
      assert r.log[|begun.log| - 1] == Started(SlotKey(f));
      assert Mentions(r.log[|begun.log| - 1], SlotKey(f));
    }
  }

  /** The memory of k runs out in the sweep at the head of the step, which then brings a fragment of k. */
  predicate Reopens<E>(cfg: Config, hooks: Hooks<E>, st: State<E>, op: Op<E>, k: Key) {
    op.ObserveOp? && SlotKey(op.f) == k && !Pathological(op.f) && k !in LazySweep(cfg, hooks, st, op.now).done
  }

  /**
   While a completed key is remembered, expired or not, a step short of a purge opens no slot for it,
   delivers nothing, asks for nothing and reports nothing but late copies, exactly unless its own sweep
   drops the memory and the step brings a fragment of the key.
   */
  lemma SilentWhileRemembered<E>(cfg: Config, hooks: Hooks<E>, st: State<E>, op: Op<E>, k: Key)
    requires Inv(cfg, st) && k in st.done && !op.PurgeOp?
    ensures var r := Step(cfg, hooks, st, op);
            k !in r.slots && OnlyLate(st.log, r.log, k) <==> !Reopens(cfg, hooks, st, op, k)
  {
    hide LazySweep, EvictExpired, Arrive, SlotsInv, Balanced, AsksOnce, WithinCap, NoDup, Pathological;
    match op
    case ObserveOp(f, now, at) =>
      var swept := LazySweep(cfg, hooks, st, now);
      SweepSilent(cfg, hooks, st, now, k);
      LazySweepKeeps(cfg, hooks, st, now);
      if Reopens(cfg, hooks, st, op, k) {
        ArriveReports(cfg, swept, f, now, at);
      } else {
        ArriveSilent(cfg, swept, f, now, at, k);
        OnlyLateTrans(st.log, swept.log, Step(cfg, hooks, st, op).log, k);
      }
    case TickOp(now) => SweepSilent(cfg, hooks, st, now, k);
    case RepairOp(_) =>
  }

  /** Key k is remembered when the step comes, and the step neither purges nor reopens it. */
  ghost predicate Recalled<E>(cfg: Config, hooks: Hooks<E>, st: State<E>, op: Op<E>, k: Key) {
    k in st.done && !op.PurgeOp? && !Reopens(cfg, hooks, st, op, k)
  }

  /** Over any run in which a completed key stays remembered, nothing but late copies is reported for it. */
  lemma {:induction false} SilentOverRuns<E>(cfg: Config, hooks: Hooks<E>, st: State<E>, ops: seq<Op<E>>, k: Key)
    requires Inv(cfg, st) && ConfigOk(cfg)
    requires forall i :: 0 <= i < |ops| ==> Recalled(cfg, hooks, Run(cfg, hooks, st, ops[..i]), ops[i], k)
    ensures OnlyLate(st.log, Run(cfg, hooks, st, ops).log, k)
  {
    hide Inv, Step, Reopens;
    if ops != [] {
      var front := ops[..|ops| - 1];
      assert forall i :: 0 <= i < |front| ==> front[..i] == ops[..i] && front[i] == ops[i];
      SilentOverRuns(cfg, hooks, st, front, k);
      RunKeeps(cfg, hooks, st, front);
      SilentWhileRemembered(cfg, hooks, Run(cfg, hooks, st, front), ops[|ops| - 1], k);
      OnlyLateTrans(st.log, Run(cfg, hooks, st, front).log, Run(cfg, hooks, st, ops).log, k);
    }
  }
}
