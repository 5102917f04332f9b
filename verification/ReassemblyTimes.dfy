/**
 When the buffer does what: what a sweep makes of each slot that is due, how late a slot can be swept, how
 long a completed object is remembered, and what a completion says about the wait before it.
 */
module ReassemblyTimes {
  import opened Base
  import opened Grid
  import opened Slots
  import opened Reassembly
  import opened ReassemblyInvariants
  import opened ReassemblyTheorems

  // ----- one slot's turn in a sweep -----

  /** What a slot past its deadline gets out of its turn when the buffer waits for repairs. */
  datatype Turn<E> = Turn(env: E, asked: seq<Event>, pending: bool)

  /**
   The slot asks for what it misses if it can name anything, has not asked before and is younger than the
   maximum age; whether anything is in repair is judged after that.
   */
  function TurnOf<E>(cfg: Config, hooks: Hooks<E>, env: E, s: Slot, now: Time): Turn<E> {
    var asks := cfg.asks && Missing(s) != [] && !s.requested && now < s.born + cfg.maxAge;
    var env' := if asks then hooks.request(env, s.hashKey, Missing(s)) else env;
    Turn(env', if asks then [Asked(s.key, s.hashKey, Missing(s))] else [],
         Missing(s) != [] && hooks.pending(env', s.hashKey, Missing(s)))
  }

  /**
   A sweep leaves a slot alone until its deadline has passed. After that a buffer that waits for repairs
   keeps the slot exactly when something it misses is in repair and it is younger than the maximum age: until
   one TTL from now or the maximum age, whichever is first, and reported extended the first time only. The
   slot is otherwise given up as timed out in repair, if something is in repair, and else as expired. A buffer
   that does not wait asks for what is missing and gives the slot up.
   */
  lemma TurnExactlyWhen<E>(cfg: Config, hooks: Hooks<E>, st: State<E>, k: Key, now: Time)
    requires k in st.slots
    ensures var s, r := st.slots[k], SweepOne(cfg, hooks, st, k, now);
            var turn := TurnOf(cfg, hooks, st.env, s, now);
            && (now <= s.deadline ==> r == st)
            && (now > s.deadline && cfg.waits ==>
                  && r.env == turn.env
                  && (k in r.slots <==> turn.pending && now < s.born + cfg.maxAge)
                  && (k in r.slots ==>
                        && r.slots[k] == s.(requested := true, extended := true,
                                            deadline := Min(now + cfg.ttl, s.born + cfg.maxAge))
                        && r.log == st.log + turn.asked + (if s.extended then [] else [Extended(k)]))
                  && (k !in r.slots ==>
                        r.log == st.log + turn.asked + [Abandoned(k, if turn.pending then RepairTimeout else Expired)]))
            && (now > s.deadline && !cfg.waits ==>
                  && k !in r.slots
                  && r.log == st.log + (if cfg.asks && Missing(s) != [] then [Asked(s.key, s.hashKey, Missing(s))] else [])
                                     + [Abandoned(k, Expired)])
  {
    hide Missing;
  }

  // ----- lower bounds and reports -----

  /** No slot's deadline is before it has had its first TTL, or its maximum age if that is shorter. */
  ghost predicate Patient(cfg: Config, slots: map<Key, Slot>) {
    forall k :: k in slots ==> slots[k].born + Min(cfg.ttl, cfg.maxAge) <= slots[k].deadline
  }

  /** A live slot is marked extended, and a completion reported late, exactly if the slot was reported extended. */
  ghost predicate Told(log: seq<Event>, slots: map<Key, Slot>) {
    && (forall k :: k in slots ==> (slots[k].extended <==> Extends(log, k) > 0))
    && (forall j :: 0 <= j < |log| && log[j].Completed? ==> (log[j].late <==> Extends(log[..j], log[j].key) > 0))
  }

  /** What is remembered was completed, and its time runs from there. */
  ghost predicate Dated(cfg: Config, done: map<Key, Time>, log: seq<Event>) {
    forall k :: k in done ==> CompletedFor(cfg, log, k, done[k])
  }

  ghost predicate CompletedFor(cfg: Config, log: seq<Event>, k: Key, until: Time) {
    exists i :: 0 <= i < |log| && log[i].Completed? && log[i].key == k && until == log[i].at + cfg.completionTTL
  }

  ghost predicate Kept<E>(cfg: Config, st: State<E>) {
    Patient(cfg, st.slots) && Told(st.log, st.slots) && Dated(cfg, st.done, st.log)
  }

  lemma DatedGrows(cfg: Config, done: map<Key, Time>, log: seq<Event>, log': seq<Event>)
    requires Dated(cfg, done, log) && log <= log'
    ensures Dated(cfg, done, log')
  {
    forall k | k in done
      ensures CompletedFor(cfg, log', k, done[k])
    {
      var i :| 0 <= i < |log| && log[i].Completed? && log[i].key == k && done[k] == log[i].at + cfg.completionTTL;
      assert log'[i] == log[i];
    }
  }

  /** An event that neither starts nor extends nor completes anything, while slots may go or change otherwise. */
  lemma ToldSnoc(log: seq<Event>, slots: map<Key, Slot>, e: Event, slots': map<Key, Slot>)
    requires Told(log, slots) && !e.Started? && !e.Extended? && !e.Completed?
    requires forall k :: k in slots' ==> k in slots && slots'[k].extended == slots[k].extended
    ensures Told(log + [e], slots')
  {
    hide Extends;
    LogSnoc(log, e);
    ToldPast(log, e);
  }

  lemma ToldPast(log: seq<Event>, e: Event)
    ensures forall j :: 0 <= j < |log| ==> (log + [e])[j] == log[j] && (log + [e])[..j] == log[..j]
    ensures (log + [e])[..|log|] == log
  {
  }

  lemma AbandonKept<E>(cfg: Config, st: State<E>, k: Key, reason: Reason)
    requires Kept(cfg, st)
    ensures Kept(cfg, Abandon(st, k, reason))
  {
    hide Told, Dated;
    ToldSnoc(st.log, st.slots, Abandoned(k, reason), st.slots - {k});
    DatedGrows(cfg, st.done, st.log, Abandon(st, k, reason).log);
  }

  lemma AskKept<E>(cfg: Config, hooks: Hooks<E>, st: State<E>, s: Slot)
    requires Kept(cfg, st)
    ensures Kept(cfg, Ask(cfg, hooks, st, s))
  {
    hide Told, Dated, Missing, Patient;
    if cfg.asks && Missing(s) != [] {
      var e := Asked(s.key, s.hashKey, Missing(s));
      ToldSnoc(st.log, st.slots, e, st.slots);
      DatedGrows(cfg, st.done, st.log, st.log + [e]);
    }
  }

  lemma MarkedKept<E>(cfg: Config, st: State<E>, k: Key)
    requires k in st.slots && Kept(cfg, st)
    ensures Kept(cfg, st.(slots := st.slots[k := st.slots[k].(requested := true)]))
  {
    hide Extends, Dated;
  }

  lemma ExtendKept<E>(cfg: Config, st: State<E>, k: Key, now: Time)
    requires k in st.slots && Kept(cfg, st) && ConfigOk(cfg) && now > st.slots[k].deadline
    ensures Kept(cfg, Extend(cfg, st, k, now))
  {
    hide Extends, Dated;
    LogSnoc(st.log, Extended(k));
    ToldPast(st.log, Extended(k));
    DatedGrows(cfg, st.done, st.log, Extend(cfg, st, k, now).log);
  }

  lemma HoldKept<E>(cfg: Config, hooks: Hooks<E>, st: State<E>, k: Key, now: Time)
    requires k in st.slots && Kept(cfg, st) && ConfigOk(cfg) && now > st.slots[k].deadline
    ensures Kept(cfg, HoldForRepair(cfg, hooks, st, k, now))
  {
    hide Kept, Missing, Extend, Abandon;
    var s := st.slots[k];
    var marked := st.(slots := st.slots[k := s.(requested := true)]);
    var asked := AskOnce(cfg, hooks, st, k, now);
    MarkedKept(cfg, st, k);
    AskKept(cfg, hooks, marked, s);
    AbandonKept(cfg, st, k, Expired);
    AbandonKept(cfg, asked, k, Expired);
    AbandonKept(cfg, asked, k, RepairTimeout);
    ExtendKept(cfg, asked, k, now);
  }

  lemma SweepOneKept<E>(cfg: Config, hooks: Hooks<E>, st: State<E>, k: Key, now: Time)
    requires Kept(cfg, st) && ConfigOk(cfg)
    ensures Kept(cfg, SweepOne(cfg, hooks, st, k, now))
  {
    hide Kept, HoldForRepair, Ask, Abandon;
    if k in st.slots && now > st.slots[k].deadline {
      if cfg.waits {
        HoldKept(cfg, hooks, st, k, now);
      } else {
        AskKept(cfg, hooks, st, st.slots[k]);
        AbandonKept(cfg, Ask(cfg, hooks, st, st.slots[k]), k, Expired);
      }
    }
  }

  lemma {:induction false} SweepListKept<E>(cfg: Config, hooks: Hooks<E>, st: State<E>, order: seq<Key>, n: nat, now: Time)
    requires Kept(cfg, st) && ConfigOk(cfg) && n <= |order|
    ensures Kept(cfg, SweepList(cfg, hooks, st, order, n, now))
  {
    hide Kept, SweepOne;
    if n > 0 {
      SweepListKept(cfg, hooks, st, order, n - 1, now);
      SweepOneKept(cfg, hooks, SweepList(cfg, hooks, st, order, n - 1, now), order[n - 1], now);
    }
  }

  lemma EvictKept<E>(cfg: Config, hooks: Hooks<E>, st: State<E>, now: Time)
    requires Kept(cfg, st) && ConfigOk(cfg)
    ensures Kept(cfg, EvictExpired(cfg, hooks, st, now)) && Kept(cfg, LazySweep(cfg, hooks, st, now))
  {
    hide SweepList, Told, CompletedFor, Patient;
    SweepListKept(cfg, hooks, SweepDone(st, now), st.insertOrder, |st.insertOrder|, now);
  }

  lemma RoomKept<E>(cfg: Config, st: State<E>)
    requires Kept(cfg, st)
    ensures Kept(cfg, MakeRoom(cfg, st))
  {
    hide Kept, Abandon;
    var i := FirstLive(st.insertOrder, st.slots.Keys);
    if i < |st.insertOrder| {
      var a := Abandon(st, st.insertOrder[i], Capacity);
      AbandonKept(cfg, st, st.insertOrder[i], Capacity);
      SameKept(cfg, a, a.(insertOrder := st.insertOrder[..i] + st.insertOrder[i + 1..]));
    }
  }

  lemma SameKept<E>(cfg: Config, a: State<E>, b: State<E>)
    requires Kept(cfg, a) && a.slots == b.slots && a.log == b.log && a.done == b.done
    ensures Kept(cfg, b)
  {
  }

  lemma OpenKept<E>(cfg: Config, st: State<E>, f: Fragment, now: Time)
    requires Kept(cfg, st) && ConfigOk(cfg)
    ensures Kept(cfg, Open(cfg, st, f, now))
  {
    hide Extends, Dated;
    LogSnoc(st.log, Started(SlotKey(f)));
    ToldPast(st.log, Started(SlotKey(f)));
    DatedGrows(cfg, st.done, st.log, Open(cfg, st, f, now).log);
  }

  lemma CompleteKept<E>(cfg: Config, st: State<E>, t: Slot, at: Time)
    requires Kept(cfg, st) && t.key in st.slots && t.extended == st.slots[t.key].extended
    ensures Kept(cfg, Complete(cfg, st, t, at))
  {
    hide Extends, Outcome, Payload;
    var e := Completed(t.key, at, t.extended, Outcome(cfg, t, Payload(t)));
    var r := Complete(cfg, st, t, at);
    LogSnoc(st.log, e);
    ToldPast(st.log, e);
    MarkDated(cfg, st, t.key, at, e);
  }

  lemma MarkDated<E>(cfg: Config, st: State<E>, k: Key, at: Time, e: Event)
    requires Dated(cfg, st.done, st.log) && e.Completed? && e.key == k && e.at == at
    ensures Dated(cfg, MarkDone(cfg, st, k, at).done, st.log + [e])
  {
    hide CompletedFor;
    DatedGrows(cfg, st.done, st.log, st.log + [e]);
    NewlyDated(cfg, st.log, k, at, e);
  }

  lemma NewlyDated(cfg: Config, log: seq<Event>, k: Key, at: Time, e: Event)
    requires e.Completed? && e.key == k && e.at == at
    ensures CompletedFor(cfg, log + [e], k, at + cfg.completionTTL)
  {
    assert (log + [e])[|log|] == e;
  }

  lemma AdmitKept<E>(cfg: Config, st: State<E>, f: Fragment, at: Time)
    requires Kept(cfg, st) && SlotKey(f) in st.slots && st.slots[SlotKey(f)].key == SlotKey(f)
    ensures Kept(cfg, Admit(cfg, st, f, at))
  {
    hide Dated, Extends, Complete, CheckFragLen;
    var k := SlotKey(f);
    match Take(st.slots[k], f)
    case Ignored =>
    case Bad =>
      ToldSnoc(st.log, st.slots, BadFragment(k), st.slots - {k});
      DatedGrows(cfg, st.done, st.log, st.log + [BadFragment(k)]);
    case Stored(t) =>
      if |t.parts| >= t.total {
        CompleteKept(cfg, st, t, at);
      }
  }

  lemma SaidKept<E>(cfg: Config, st: State<E>, e: Event)
    requires Kept(cfg, st) && (e.LateFragment? || e.Oversize?)
    ensures Kept(cfg, st.(log := st.log + [e]))
  {
    hide Told, Dated, Patient;
    ToldSnoc(st.log, st.slots, e, st.slots);
    DatedGrows(cfg, st.done, st.log, st.log + [e]);
  }

  lemma ArriveKept<E>(cfg: Config, st: State<E>, f: Fragment, now: Time, at: Time)
    requires Kept(cfg, st) && ConfigOk(cfg) && SlotsInv(cfg, st.slots)
    ensures Kept(cfg, Arrive(cfg, st, f, now, at))
  {
    hide Kept, Admit, MakeRoom, SlotOk;
    var k := SlotKey(f);
    if k in st.slots {
      assert SlotInv(cfg, k, st.slots[k], 1);
      AdmitKept(cfg, st, f, at);
    } else if k in st.done {
      SaidKept(cfg, st, LateFragment(k));
    } else if !Pathological(f) {
      SaidKept(cfg, st, Oversize(k));
      RoomKept(cfg, st);
      OpenKept(cfg, MakeRoom(cfg, st), f, now);
      AdmitKept(cfg, Open(cfg, MakeRoom(cfg, st), f, now), f, at);
    }
  }

  lemma PurgeKept<E>(cfg: Config, st: State<E>)
    requires Kept(cfg, st)
    ensures Kept(cfg, Purge(st))
  {
    hide Extends;
    ToldSnoc(st.log, st.slots, Purged(st.slots.Keys), map[]);
  }

  lemma StepKept<E>(cfg: Config, hooks: Hooks<E>, st: State<E>, op: Op<E>)
    requires Kept(cfg, st) && ConfigOk(cfg) && Inv(cfg, st)
    ensures Kept(cfg, Step(cfg, hooks, st, op))
  {
    hide Kept, Inv, Arrive, LazySweep, EvictExpired, Purge;
    match op
    case ObserveOp(f, now, at) =>
      EvictKept(cfg, hooks, st, now);
      LazySweepKeeps(cfg, hooks, st, now);
      SlotsOfInv(cfg, LazySweep(cfg, hooks, st, now));
      ArriveKept(cfg, LazySweep(cfg, hooks, st, now), f, now, at);
    case TickOp(now) => EvictKept(cfg, hooks, st, now);
    case PurgeOp => PurgeKept(cfg, st);
    case RepairOp(env) => SameKept(cfg, st, st.(env := env));
  }

  lemma SlotsOfInv<E>(cfg: Config, st: State<E>)
    requires Inv(cfg, st)
    ensures SlotsInv(cfg, st.slots)
  {
  }

  lemma {:induction false} RunKept<E>(cfg: Config, hooks: Hooks<E>, env: E, ops: seq<Op<E>>)
    requires ConfigOk(cfg)
    ensures Kept(cfg, Run(cfg, hooks, Fresh(env), ops))
  {
    hide Step, Inv;
    if ops != [] {
      var front := ops[..|ops| - 1];
      RunKept(cfg, hooks, env, front);
      FreshInv(cfg, env);
      RunKeeps(cfg, hooks, Fresh(env), front);
      StepKept(cfg, hooks, Run(cfg, hooks, Fresh(env), front), ops[|ops| - 1]);
    }
  }

  /** In every run an object is reported as completed late exactly if its slot was reported extended. */
  lemma LateExactlyWhen<E>(cfg: Config, hooks: Hooks<E>, env: E, ops: seq<Op<E>>, j: nat)
    requires ConfigOk(cfg)
    requires var log := Run(cfg, hooks, Fresh(env), ops).log; j < |log| && log[j].Completed?
    ensures var log := Run(cfg, hooks, Fresh(env), ops).log;
            log[j].late <==> Extends(log[..j], log[j].key) == 1
  {
    hide Run, Extends;
    RunKept(cfg, hooks, env, ops);
    AskedOnce(cfg, hooks, env, ops, Run(cfg, hooks, Fresh(env), ops).log[j].key);
  }

  /** In every run a sweep gives up a slot for its age only after its first TTL, or its maximum age if shorter. */
  lemma NeverGivenUpEarly<E>(cfg: Config, hooks: Hooks<E>, env: E, ops: seq<Op<E>>, k: Key, now: Time)
    requires ConfigOk(cfg) && k in Run(cfg, hooks, Fresh(env), ops).slots
    requires k !in SweepOne(cfg, hooks, Run(cfg, hooks, Fresh(env), ops), k, now).slots
    ensures now > Run(cfg, hooks, Fresh(env), ops).slots[k].born + Min(cfg.ttl, cfg.maxAge)
  {
    hide Run, HoldForRepair, Told, Dated;
    RunKept(cfg, hooks, env, ops);
  }

  // ----- the completion memory -----

  /**
   A sweep forgets a completed key exactly when its time is up, and in every run that time is completionTTL
   after a completion of it.
   */
  lemma MemoryRunsOut<E>(cfg: Config, hooks: Hooks<E>, env: E, ops: seq<Op<E>>, now: Time, k: Key)
    requires ConfigOk(cfg)
    ensures var st := Run(cfg, hooks, Fresh(env), ops);
            var r := EvictExpired(cfg, hooks, st, now);
            && (k in r.done <==> k in st.done && now <= st.done[k])
            && (k in r.done ==> CompletedFor(cfg, st.log, k, r.done[k]) && now <= r.done[k])
  {
    hide Run, SweepList, CompletedFor, Told, Patient, Inv;
    var st := Run(cfg, hooks, Fresh(env), ops);
    RunKept(cfg, hooks, env, ops);
    FreshInv(cfg, env);
    RunKeeps(cfg, hooks, Fresh(env), ops);
    SweepDoneKeeps(cfg, st, now);
    SweepListSpeaks(cfg, hooks, SweepDone(st, now), st.insertOrder, |st.insertOrder|, now);
  }

  /** After a sweep the eviction order lists the live keys and no others, in the order they stood in. */
  lemma ListIsCompact<E>(cfg: Config, hooks: Hooks<E>, st: State<E>, now: Time)
    requires Inv(cfg, st)
    ensures var r := EvictExpired(cfg, hooks, st, now);
            && (forall k :: k in r.insertOrder <==> k in r.slots)
            && (forall p, q :: 0 <= p < q < |r.insertOrder| ==> InOrder(st.insertOrder, r.insertOrder[p], r.insertOrder[q]))
  {
    hide SweepList, Balanced, AsksOnce, Memory, SlotsInv;
    var r := EvictExpired(cfg, hooks, st, now);
    EvictExpiredKeeps(cfg, hooks, st, now);
    forall p, q | 0 <= p < q < |r.insertOrder|
      ensures InOrder(st.insertOrder, r.insertOrder[p], r.insertOrder[q])
    {
      hide Inv;
      SweepListOrder(cfg, hooks, SweepDone(st, now), st.insertOrder, |st.insertOrder|, now);
      var p', q' := RestrictOrder(st.insertOrder, r.slots.Keys, p, q);
    }
  }

  ghost predicate InOrder(order: seq<Key>, a: Key, b: Key) {
    exists p, q :: 0 <= p < q < |order| && order[p] == a && order[q] == b
  }

  // ----- how late a slot can be swept -----

  /** How long after its last sweep an arriving fragment makes the buffer sweep again. */
  function Spacing(cfg: Config): Time {
    Min(cfg.ttl / 2, cfg.evictEvery)
  }

  /** The last sweep left no live slot past its deadline, and is not in the future. */
  ghost predicate Swept<E>(st: State<E>, clock: Time) {
    st.lastEvict.Some? ==>
      st.lastEvict.value <= clock && forall k :: k in st.slots ==> st.lastEvict.value <= st.slots[k].deadline
  }

  /** An arriving fragment makes the buffer sweep exactly when the spacing has passed, and the clock restarts. */
  lemma SweepsExactlyWhen<E>(cfg: Config, hooks: Hooks<E>, st: State<E>, now: Time)
    ensures LazySweep(cfg, hooks, st, now) ==
            if st.lastEvict.Some? && now < st.lastEvict.value + Spacing(cfg) then st
            else EvictExpired(cfg, hooks, st, now).(lastEvict := Some(now))
  {
  }

  lemma {:induction false} SweepListLast<E>(cfg: Config, hooks: Hooks<E>, st: State<E>, order: seq<Key>, n: nat, now: Time)
    requires n <= |order|
    ensures SweepList(cfg, hooks, st, order, n, now).lastEvict == st.lastEvict
  {
    hide Missing;
    if n > 0 {
      SweepListLast(cfg, hooks, st, order, n - 1, now);
    }
  }

  lemma EvictSwept<E>(cfg: Config, hooks: Hooks<E>, st: State<E>, clock: Time, now: Time)
    requires Inv(cfg, st) && ConfigOk(cfg) && Swept(st, clock) && clock <= now
    ensures Swept(EvictExpired(cfg, hooks, st, now), now) && Swept(LazySweep(cfg, hooks, st, now), now)
    ensures var r := LazySweep(cfg, hooks, st, now);
            r.lastEvict.Some? &&
            forall k :: k in r.slots ==> now <= r.slots[k].deadline || now < r.slots[k].deadline + Spacing(cfg)
  {
    hide SweepList, Inv;
    BoundedWait(cfg, hooks, st, now);
    SweepListLast(cfg, hooks, SweepDone(st, now), st.insertOrder, |st.insertOrder|, now);
  }

  lemma AdmitDeadlines<E>(cfg: Config, st: State<E>, f: Fragment, at: Time, k: Key)
    requires SlotKey(f) in st.slots
    ensures var r := Admit(cfg, st, f, at);
            && r.lastEvict == st.lastEvict
            && (k in r.slots ==> k in st.slots && SameTimes(st.slots[k], r.slots[k]))
  {
    hide Outcome, Payload, CheckFragLen;
  }

  predicate SameTimes(a: Slot, b: Slot) {
    a.born == b.born && a.deadline == b.deadline && a.requested == b.requested && a.extended == b.extended
  }

  lemma RoomDeadlines<E>(cfg: Config, st: State<E>, k: Key)
    ensures var r := MakeRoom(cfg, st);
            r.lastEvict == st.lastEvict && (k in r.slots ==> k in st.slots && r.slots[k] == st.slots[k])
  {
  }

  /** What a fragment does to the times of slots: a new one is born now with one TTL to go, and no other changes. */
  lemma ArriveDeadlines<E>(cfg: Config, st: State<E>, f: Fragment, now: Time, at: Time, k: Key)
    ensures var r := Arrive(cfg, st, f, now, at);
            && r.lastEvict == st.lastEvict
            && (k in r.slots && k in st.slots ==> SameTimes(st.slots[k], r.slots[k]))
            && (k in r.slots && k !in st.slots ==>
                  k == SlotKey(f) && r.slots[k].born == now && r.slots[k].deadline == now + cfg.ttl &&
                  !r.slots[k].requested && !r.slots[k].extended)
  {
    hide Admit, MakeRoom, Pathological, TooLarge;
    if SlotKey(f) in st.slots {
      AdmitDeadlines(cfg, st, f, at, k);
    } else if SlotKey(f) !in st.done && !Pathological(f) && !TooLarge(cfg, f) {
      RoomDeadlines(cfg, st, k);
      AdmitDeadlines(cfg, Open(cfg, MakeRoom(cfg, st), f, now), f, at, k);
    }
  }

  lemma ArriveSwept<E>(cfg: Config, st: State<E>, f: Fragment, now: Time, at: Time)
    requires ConfigOk(cfg) && Swept(st, now) && now <= at
    ensures Swept(Arrive(cfg, st, f, now, at), at)
  {
    hide Arrive, MakeRoom;
    var r := Arrive(cfg, st, f, now, at);
    ArriveDeadlines(cfg, st, f, now, at, SlotKey(f));
    forall k | k in r.slots && r.lastEvict.Some?
      ensures r.lastEvict.value <= r.slots[k].deadline
    {
      ArriveDeadlines(cfg, st, f, now, at, k);
    }
  }

  lemma StepSwept<E>(cfg: Config, hooks: Hooks<E>, st: State<E>, op: Op<E>, clock: Time)
    requires Inv(cfg, st) && ConfigOk(cfg) && Swept(st, clock) && Timely(op, clock)
    ensures Swept(Step(cfg, hooks, st, op), ClockAfter(op, clock))
  {
    hide Inv, Arrive, LazySweep, EvictExpired;
    match op
    case ObserveOp(f, now, at) =>
      EvictSwept(cfg, hooks, st, clock, now);
      ArriveSwept(cfg, LazySweep(cfg, hooks, st, now), f, now, at);
    case TickOp(now) => EvictSwept(cfg, hooks, st, clock, now);
    case PurgeOp =>
    case RepairOp(_) =>
  }

  lemma {:induction false} RunSwept<E>(cfg: Config, hooks: Hooks<E>, env: E, ops: seq<Op<E>>, clock: Time)
    requires ConfigOk(cfg) && AllTimely(ops, clock)
    ensures Inv(cfg, Run(cfg, hooks, Fresh(env), ops)) && Swept(Run(cfg, hooks, Fresh(env), ops), ClockOf(ops, clock))
  {
    hide Step, Inv;
    FreshInv(cfg, env);
    RunKeeps(cfg, hooks, Fresh(env), ops);
    if ops != [] {
      var front := ops[..|ops| - 1];
      RunSwept(cfg, hooks, env, front, clock);
      StepSwept(cfg, hooks, Run(cfg, hooks, Fresh(env), front), ops[|ops| - 1], ClockOf(front, clock));
    }
  }

  /**
   Traffic alone keeps the buffer swept: over every run whose clock does not run backwards, a fragment that
   arrives at now finds, after the sweep it causes or not, no slot that has been past its deadline for the
   spacing between sweeps, half a TTL at most.
   */
  lemma TrafficSweeps<E>(cfg: Config, hooks: Hooks<E>, env: E, ops: seq<Op<E>>, clock: Time, now: Time, k: Key)
    requires ConfigOk(cfg) && AllTimely(ops, clock) && ClockOf(ops, clock) <= now
    ensures var r := LazySweep(cfg, hooks, Run(cfg, hooks, Fresh(env), ops), now);
            k in r.slots ==> now <= r.slots[k].deadline || now < r.slots[k].deadline + Spacing(cfg)
  {
    hide Run, LazySweep, Inv, AllTimely;
    RunSwept(cfg, hooks, env, ops, clock);
    EvictSwept(cfg, hooks, Run(cfg, hooks, Fresh(env), ops), ClockOf(ops, clock), now);
  }
}
