/**
 The reassembly buffer wired to the gap tracker: the buffer's incomplete hook registers the missing
 numbers with the tracker, and its repair-pending hook asks the tracker whether any of them is still
 pending. A slot whose fragments are in repair is held, and an object that is repaired in time is
 delivered.
 */
module Composition {
  import opened Base
  import opened Slots
  import opened Reassembly
  import opened ReassemblyInvariants
  import opened ReassemblyTheorems
  import T = Tracker
  import F = Flow

  /** The tracker, with the clock reading and the choices its next request will see. */
  datatype Repair = Repair(tracker: T.State, now: Time, ch: F.Choices)

  ghost function RequestFrom(tc: T.Config, e: Repair, hk: U64, seqs: seq<U64>): Repair {
    e.(tracker := T.Step(tc, e.tracker, T.RequestGaps(hk, seqs, e.now, e.ch)))
  }

  /** The wiring. */
  ghost function Wired(tc: T.Config): Hooks<Repair> {
    Hooks((e, hk, seqs) => RequestFrom(tc, e, hk, seqs), (e: Repair, hk, seqs) => T.Pending(e.tracker, hk, seqs))
  }

  // ----- what a request does to the tracker -----

  lemma {:induction false} ListRegisters(cfg: F.Config, t: F.Track, seqs: seq<U64>, n: nat, now: Time, ch: F.Choices)
    requires n <= |seqs|
    ensures var r := F.RegisterList(cfg, t, seqs, n, now, ch).flow.pending;
            && (forall s :: s in t.flow.pending ==> s in r && r[s] == t.flow.pending[s])
            && (forall i :: 0 <= i < n ==> seqs[i] in r)
            && (forall s :: s in r ==> s in t.flow.pending || s in seqs[..n])
  {
    if n > 0 {
      ListRegisters(cfg, t, seqs, n - 1, now, ch);
      assert seqs[..n] == seqs[..n - 1] + [seqs[n - 1]];
    }
  }

  /** The tracker forgets no flow and no pending gap. */
  ghost predicate Grows(a: T.State, b: T.State) {
    forall hk :: hk in a.flows ==>
                   hk in b.flows && forall s :: s in a.flows[hk].pending ==> s in b.flows[hk].pending
  }

  /**
   Asking for a non-empty list leaves something of it pending exactly when the flow is admitted,
   in which case all of it is.
   */
  lemma RequestOutcome(tc: T.Config, e: Repair, hk: U64, seqs: seq<U64>)
    requires seqs != []
    ensures var r := RequestFrom(tc, e, hk, seqs).tracker;
            && Grows(e.tracker, r)
            && (T.Pending(r, hk, seqs) <==> T.Admits(tc, e.tracker, hk))
            && (T.Admits(tc, e.tracker, hk) ==>
                  hk in r.flows && forall i :: 0 <= i < |seqs| ==> seqs[i] in r.flows[hk].pending)
  {
    hide F.RegisterList;
    var st := e.tracker;
    var c := T.CellOf(st, hk);
    if c.flow.Some? {
      ListRegisters(tc.flow, F.Track(c.flow.value, c.books), seqs, |seqs|, e.now, e.ch);
    } else {
      ListRegisters(tc.flow, F.Track(F.NewFlow(e.now), c.books), seqs, |seqs|, e.now, e.ch);
    }
    var r := RequestFrom(tc, e, hk, seqs).tracker;
    if T.Admits(tc, st, hk) {
      assert seqs[0] in r.flows[hk].pending;
    }
  }

  /** Some of the numbers are pending gaps of the flow. */
  predicate AnyPending(e: T.State, hk: U64, seqs: seq<U64>) {
    hk in e.flows && exists s :: s in seqs && s in e.flows[hk].pending
  }

  /** The flow is in the table, or the table can take one more. */
  predicate HasRoom(tc: T.Config, e: T.State, hk: U64) {
    hk in e.flows || tc.maxFlows <= 0 || |e.flows| < tc.maxFlows
  }

  /** What the tracker answers to the two questions the buffer's hooks put to it. */
  lemma TrackerAnswers(tc: T.Config, e: T.State, hk: U64, seqs: seq<U64>)
    ensures T.Pending(e, hk, seqs) <==> AnyPending(e, hk, seqs)
    ensures T.Admits(tc, e, hk) <==> HasRoom(tc, e, hk)
  {
    if AnyPending(e, hk, seqs) {
      var s :| s in seqs && s in e.flows[hk].pending;
      var i :| 0 <= i < |seqs| && seqs[i] == s;
      assert seqs[i] in e.flows[hk].pending;
    }
    if T.Pending(e, hk, seqs) {
      var i :| 0 <= i < |seqs| && seqs[i] in e.flows[hk].pending;
      assert seqs[i] in seqs;
    }
  }

  // ----- the first expiry -----

  /** The slot is past its deadline, younger than the maximum age, and has not asked yet. */
  predicate FirstExpiry(cfg: Config, s: Slot, now: Time) {
    now > s.deadline && now < s.born + cfg.maxAge && !s.requested
  }

  /**
   At its first expiry inside the age limit a slot asks the tracker for every missing fragment, and
   is kept in the same sweep if and only if it can name one and the tracker admits its flow; every
   number it is missing is then pending.
   */
  lemma FirstExpiryHolds(cfg: Config, tc: T.Config, st: State<Repair>, k: Key, now: Time)
    requires cfg.waits && cfg.asks && k in st.slots && FirstExpiry(cfg, st.slots[k], now)
    ensures var s := st.slots[k];
            var r := SweepOne(cfg, Wired(tc), st, k, now);
            && (k in r.slots <==> Missing(s) != [] && HasRoom(tc, st.env.tracker, s.hashKey))
            && (k in r.slots ==>
                  && r.slots[k].requested && r.slots[k].parts == s.parts
                  && s.hashKey in r.env.tracker.flows
                  && forall i :: 0 <= i < |Missing(s)| ==> Missing(s)[i] in r.env.tracker.flows[s.hashKey].pending)
  {
    hide Missing, T.Step, T.Pending, T.Admits, RequestFrom, HasRoom;
    var s := st.slots[k];
    TrackerAnswers(tc, st.env.tracker, s.hashKey, Missing(s));
    if Missing(s) != [] {
      RequestOutcome(tc, st.env, s.hashKey, Missing(s));
    }
  }

  /**
   Past its first request, a slot younger than the maximum age is kept by a sweep if and only if
   some number it is missing is still pending.
   */
  lemma LaterExpiryHolds(cfg: Config, tc: T.Config, st: State<Repair>, k: Key, now: Time)
    requires cfg.waits && k in st.slots && st.slots[k].requested
    requires st.slots[k].deadline < now < st.slots[k].born + cfg.maxAge
    ensures var s := st.slots[k];
            k in SweepOne(cfg, Wired(tc), st, k, now).slots <==>
            Missing(s) != [] && AnyPending(st.env.tracker, s.hashKey, Missing(s))
  {
    hide Missing, T.Pending, AnyPending;
    TrackerAnswers(tc, st.env.tracker, st.slots[k].hashKey, Missing(st.slots[k]));
  }

  // ----- a whole sweep -----

  lemma AskGrows(cfg: Config, tc: T.Config, st: State<Repair>, s: Slot)
    ensures Grows(st.env.tracker, Ask(cfg, Wired(tc), st, s).env.tracker)
  {
    hide Missing, T.Step, T.Pending, T.Admits, RequestFrom;
    if Missing(s) != [] {
      RequestOutcome(tc, st.env, s.hashKey, Missing(s));
    }
  }

  lemma SweepOneGrows(cfg: Config, tc: T.Config, st: State<Repair>, k: Key, now: Time)
    ensures Grows(st.env.tracker, SweepOne(cfg, Wired(tc), st, k, now).env.tracker)
  {
    hide Missing, Ask, Grows;
    GrowsReflexive(st.env.tracker);
    if k in st.slots {
      var s := st.slots[k];
      AskGrows(cfg, tc, st, s);
      AskGrows(cfg, tc, st.(slots := st.slots[k := s.(requested := true)]), s);
    }
  }

  lemma GrowsReflexive(a: T.State)
    ensures Grows(a, a)
  {
  }

  lemma GrowsTrans(a: T.State, b: T.State, c: T.State)
    requires Grows(a, b) && Grows(b, c)
    ensures Grows(a, c)
  {
  }

  lemma GrowsPending(a: T.State, b: T.State, hk: U64, seqs: seq<U64>)
    requires Grows(a, b) && AnyPending(a, hk, seqs)
    ensures AnyPending(b, hk, seqs)
  {
    var s :| s in seqs && s in a.flows[hk].pending;
    assert s in b.flows[hk].pending;
  }

  /** What keeps a due slot at its turn: a number to name, its age, and its repair or its right to ask. */
  predicate HeldAt(cfg: Config, tc: T.Config, e: T.State, s: Slot, now: Time) {
    && Missing(s) != [] && now < s.born + cfg.maxAge
    && (if s.requested then AnyPending(e, s.hashKey, Missing(s)) else HasRoom(tc, e, s.hashKey))
  }

  /** No abandonment of k was logged. */
  ghost predicate NotAbandoned(log: seq<Event>, log': seq<Event>, k: Key) {
    log <= log' && forall j :: |log| <= j < |log'| ==> !log'[j].Purged? && !(log'[j].Abandoned? && log'[j].key == k)
  }

  lemma NotAbandonedTrans(a: seq<Event>, b: seq<Event>, c: seq<Event>, k: Key)
    requires NotAbandoned(a, b, k) && NotAbandoned(b, c, k)
    ensures NotAbandoned(a, c, k)
  {
    assert forall j :: |a| <= j < |b| ==> c[j] == b[j];
  }

  /** At its own turn a due slot is kept exactly when that holds. */
  lemma OwnTurn(cfg: Config, tc: T.Config, st: State<Repair>, k: Key, now: Time)
    requires cfg.waits && cfg.asks && k in st.slots && now > st.slots[k].deadline
    ensures k in SweepOne(cfg, Wired(tc), st, k, now).slots <==> HeldAt(cfg, tc, st.env.tracker, st.slots[k], now)
  {
    hide Missing, SweepOne, AnyPending, HasRoom, T.Step;
    if now >= st.slots[k].born + cfg.maxAge {
      TooOld(cfg, Wired(tc), st, k, now);
    } else if st.slots[k].requested {
      LaterExpiryHolds(cfg, tc, st, k, now);
    } else {
      FirstExpiryHolds(cfg, tc, st, k, now);
    }
  }

  lemma TooOld<E>(cfg: Config, hooks: Hooks<E>, st: State<E>, k: Key, now: Time)
    requires cfg.waits && k in st.slots && now > st.slots[k].deadline && now >= st.slots[k].born + cfg.maxAge
    ensures k !in SweepOne(cfg, hooks, st, k, now).slots
  {
    hide Missing;
  }

  /** A turn of the sweep on a kept slot only moves its deadline past now and logs no abandonment. */
  lemma KeptQuietly(cfg: Config, tc: T.Config, st: State<Repair>, k: Key, now: Time)
    requires ConfigOk(cfg) && SlotsInv(cfg, st.slots) && k in st.slots
    requires k in SweepOne(cfg, Wired(tc), st, k, now).slots
    ensures NotAbandoned(st.log, SweepOne(cfg, Wired(tc), st, k, now).log, k)
    ensures now <= SweepOne(cfg, Wired(tc), st, k, now).slots[k].deadline
  {
    hide Missing, SlotOk, T.Pending, T.Step, RequestFrom;
  }

  lemma OtherTurn(cfg: Config, tc: T.Config, st: State<Repair>, j: Key, k: Key, now: Time)
    requires SlotsInv(cfg, st.slots) && j != k
    ensures NotAbandoned(st.log, SweepOne(cfg, Wired(tc), st, j, now).log, k)
  {
    hide SweepOne, SlotOk;
    SweepOneAbout(cfg, Wired(tc), st, j, now);
  }

  lemma SweepOneAbout<E>(cfg: Config, hooks: Hooks<E>, st: State<E>, j: Key, now: Time)
    requires SlotsInv(cfg, st.slots)
    ensures AboutLive(st.log, SweepOne(cfg, hooks, st, j, now).log, {j})
  {
    hide HoldForRepair, SlotOk;
    if j in st.slots {
      assert SlotInv(cfg, j, st.slots[j], 1);
      HoldSpeaks(cfg, hooks, st, j, now);
    }
  }

  lemma Untouched(cfg: Config, tc: T.Config, st: State<Repair>, k: Key, now: Time)
    requires k in st.slots && now <= st.slots[k].deadline
    ensures SweepOne(cfg, Wired(tc), st, k, now) == st
  {
  }

  // ----- what a sweep leaves in repair -----

  /** Every number of the list is a pending gap of the flow. */
  ghost predicate AllPending(e: T.State, hk: U64, seqs: seq<U64>) {
    hk in e.flows && forall i :: 0 <= i < |seqs| ==> seqs[i] in e.flows[hk].pending
  }

  lemma GrowsAll(a: T.State, b: T.State, hk: U64, seqs: seq<U64>)
    requires Grows(a, b) && AllPending(a, hk, seqs)
    ensures AllPending(b, hk, seqs)
  {
  }

  lemma {:induction false} SweepListGrows(cfg: Config, tc: T.Config, st: State<Repair>, order: seq<Key>, m: nat, n: nat,
                                          now: Time)
    requires m <= n <= |order|
    ensures Grows(SweepList(cfg, Wired(tc), st, order, m, now).env.tracker,
                  SweepList(cfg, Wired(tc), st, order, n, now).env.tracker)
  {
    hide SweepOne, Grows;
    if m == n {
      GrowsReflexive(SweepList(cfg, Wired(tc), st, order, n, now).env.tracker);
    } else {
      var mid := SweepList(cfg, Wired(tc), st, order, n - 1, now);
      SweepListGrows(cfg, tc, st, order, m, n - 1, now);
      SweepOneGrows(cfg, tc, mid, order[n - 1], now);
      GrowsTrans(SweepList(cfg, Wired(tc), st, order, m, now).env.tracker, mid.env.tracker,
                 SweepOne(cfg, Wired(tc), mid, order[n - 1], now).env.tracker);
    }
  }

  /** Up to its own turn a slot is left as it was, and nothing is said of abandoning it. */
  lemma {:induction false} UntouchedSoFar(cfg: Config, tc: T.Config, st: State<Repair>, order: seq<Key>, n: nat, k: Key,
                                          now: Time)
    requires Inv(cfg, st) && n <= |order| && k in st.slots && k !in order[..n]
    ensures var r := SweepList(cfg, Wired(tc), st, order, n, now);
            k in r.slots && r.slots[k] == st.slots[k] && NotAbandoned(st.log, r.log, k)
  {
    hide SweepOne, Inv, SlotsInv;
    if n > 0 {
      var mid := SweepList(cfg, Wired(tc), st, order, n - 1, now);
      assert order[..n] == order[..n - 1] + [order[n - 1]];
      UntouchedSoFar(cfg, tc, st, order, n - 1, k, now);
      SweepOneFrame(cfg, Wired(tc), mid, order[n - 1], now);
      MidSlots(cfg, Wired(tc), st, order, n - 1, now);
      OtherTurn(cfg, tc, mid, order[n - 1], k, now);
      NotAbandonedTrans(st.log, mid.log, SweepOne(cfg, Wired(tc), mid, order[n - 1], now).log, k);
    }
  }

  /** After its own turn a slot that is not due stays, and one that is gone stays gone. */
  lemma {:induction false} SettledFromHere(cfg: Config, tc: T.Config, st: State<Repair>, order: seq<Key>, m: nat, n: nat,
                                           k: Key, now: Time)
    requires Inv(cfg, st) && m <= n <= |order|
    requires var a := SweepList(cfg, Wired(tc), st, order, m, now); k in a.slots ==> now <= a.slots[k].deadline
    ensures var a := SweepList(cfg, Wired(tc), st, order, m, now);
            var b := SweepList(cfg, Wired(tc), st, order, n, now);
            && (k in b.slots <==> k in a.slots) && (k in b.slots ==> now <= b.slots[k].deadline)
            && (k in a.slots ==> NotAbandoned(a.log, b.log, k))
  {
    hide SweepOne, Inv, SlotsInv;
    var a := SweepList(cfg, Wired(tc), st, order, m, now);
    if m == n {
    } else {
      var mid, j := SweepList(cfg, Wired(tc), st, order, n - 1, now), order[n - 1];
      SettledFromHere(cfg, tc, st, order, m, n - 1, k, now);
      SweepOneFrame(cfg, Wired(tc), mid, j, now);
      MidSlots(cfg, Wired(tc), st, order, n - 1, now);
      if k in a.slots {
        if j == k {
          Untouched(cfg, tc, mid, k, now);
        } else {
          OtherTurn(cfg, tc, mid, j, k, now);
        }
        NotAbandonedTrans(a.log, mid.log, SweepOne(cfg, Wired(tc), mid, j, now).log, k);
      } else if j == k {
        GoneStaysGone(cfg, Wired(tc), mid, k, now);
      }
    }
  }

  lemma GoneStaysGone<E>(cfg: Config, hooks: Hooks<E>, st: State<E>, k: Key, now: Time)
    requires k !in st.slots
    ensures SweepOne(cfg, hooks, st, k, now) == st
  {
  }

  function FirstAt(order: seq<Key>, k: Key): (i: nat)
    requires k in order
    ensures i < |order| && order[i] == k && k !in order[..i]
  {
    if order[0] == k then 0
    else
      assert k in order[1..];
      var i := FirstAt(order[1..], k);
      assert order[..i + 1] == [order[0]] + order[1..][..i];
      i + 1
  }

  lemma NextTurn(cfg: Config, tc: T.Config, st: State<Repair>, order: seq<Key>, i: nat, now: Time)
    requires i < |order|
    ensures SweepList(cfg, Wired(tc), st, order, i + 1, now) ==
            SweepOne(cfg, Wired(tc), SweepList(cfg, Wired(tc), st, order, i, now), order[i], now)
  {
  }

  /** The state of the sweep when the turn of slot k comes: the slots listed before it have had theirs. */
  ghost function AtTurn(cfg: Config, tc: T.Config, st: State<Repair>, k: Key, now: Time): State<Repair>
    requires k in st.insertOrder
  {
    SweepList(cfg, Wired(tc), SweepDone(st, now), st.insertOrder, FirstAt(st.insertOrder, k), now)
  }

  /** If the slot is due at now, what keeps it holds when its turn comes. */
  ghost predicate Sheltered(cfg: Config, tc: T.Config, st: State<Repair>, k: Key, now: Time) {
    k in st.slots && now > st.slots[k].deadline ==>
      k in st.insertOrder && HeldAt(cfg, tc, AtTurn(cfg, tc, st, k, now).env.tracker, st.slots[k], now)
  }

  /** The turn of slot k inside a whole sweep. */
  lemma TurnInSweep(cfg: Config, tc: T.Config, st: State<Repair>, k: Key, now: Time)
    requires ConfigOk(cfg) && Inv(cfg, st) && k in st.slots
    ensures k in st.insertOrder
    ensures var mid := AtTurn(cfg, tc, st, k, now);
            var turn := SweepOne(cfg, Wired(tc), mid, k, now);
            var r := EvictExpired(cfg, Wired(tc), st, now);
            && k in mid.slots && mid.slots[k] == st.slots[k] && NotAbandoned(st.log, mid.log, k)
            && (k in r.slots <==> k in turn.slots) && (k in turn.slots ==> NotAbandoned(turn.log, r.log, k))
            && (k in turn.slots ==> NotAbandoned(mid.log, turn.log, k))
            && Grows(turn.env.tracker, r.env.tracker)
  {
    hide SweepList, SweepOne, SlotsInv, Memory, Balanced, AsksOnce, Grows;
    var swept, order, i := SweepDone(st, now), st.insertOrder, FirstAt(st.insertOrder, k);
    SweepDoneKeeps(cfg, st, now);
    UntouchedSoFar(cfg, tc, swept, order, i, k, now);
    var mid := SweepList(cfg, Wired(tc), swept, order, i, now);
    NextTurn(cfg, tc, swept, order, i, now);
    MidSlots(cfg, Wired(tc), swept, order, i, now);
    if k in SweepOne(cfg, Wired(tc), mid, k, now).slots {
      KeptQuietly(cfg, tc, mid, k, now);
    }
    SettledFromHere(cfg, tc, swept, order, i + 1, |order|, k, now);
    SweepListGrows(cfg, tc, swept, order, i + 1, |order|, now);
  }

  /**
   A whole sweep, over any number of slots sharing the tracker, keeps a slot if and only if it is not due,
   or it can name a missing number, is inside the age limit, and at its turn either has a missing number
   in repair or, at its first expiry, is admitted by the tracker. A kept slot is not reported abandoned.
   */
  lemma SweepKeepsRepaired(cfg: Config, tc: T.Config, st: State<Repair>, k: Key, now: Time)
    requires cfg.waits && cfg.asks && ConfigOk(cfg) && Inv(cfg, st) && k in st.slots
    ensures var r := EvictExpired(cfg, Wired(tc), st, now);
            && (k in r.slots <==> Sheltered(cfg, tc, st, k, now))
            && (k in r.slots ==> NotAbandoned(st.log, r.log, k))
  {
    hide SweepOne, Inv, EvictExpired, HeldAt, AtTurn, Grows;
    TurnInSweep(cfg, tc, st, k, now);
    var mid := AtTurn(cfg, tc, st, k, now);
    var turn := SweepOne(cfg, Wired(tc), mid, k, now);
    if now > st.slots[k].deadline {
      OwnTurn(cfg, tc, mid, k, now);
    } else {
      Untouched(cfg, tc, mid, k, now);
    }
    if k in turn.slots {
      NotAbandonedTrans(st.log, mid.log, turn.log, k);
      NotAbandonedTrans(st.log, turn.log, EvictExpired(cfg, Wired(tc), st, now).log, k);
    }
  }

  /**
   A slot a sweep keeps at its first expiry has everything it is missing in repair when the sweep is over,
   wherever in the sweep its turn comes.
   */
  lemma SweepAsksForAll(cfg: Config, tc: T.Config, st: State<Repair>, k: Key, now: Time)
    requires cfg.waits && cfg.asks && ConfigOk(cfg) && Inv(cfg, st)
    requires k in st.slots && FirstExpiry(cfg, st.slots[k], now)
    requires k in EvictExpired(cfg, Wired(tc), st, now).slots
    ensures AllPending(EvictExpired(cfg, Wired(tc), st, now).env.tracker, st.slots[k].hashKey, Missing(st.slots[k]))
  {
    hide SweepOne, Inv, EvictExpired, AtTurn, Grows, Missing, T.Admits;
    TurnInSweep(cfg, tc, st, k, now);
    var mid := AtTurn(cfg, tc, st, k, now);
    FirstExpiryHolds(cfg, tc, mid, k, now);
    GrowsAll(SweepOne(cfg, Wired(tc), mid, k, now).env.tracker, EvictExpired(cfg, Wired(tc), st, now).env.tracker,
             st.slots[k].hashKey, Missing(st.slots[k]));
  }

  /**
   In particular, whatever the slots before it ask for, a slot inside the age limit is kept if a missing
   number is in repair when the sweep starts, or if it has not asked and its flow is known or there is no
   cap on flows.
   */
  lemma InRepairIsSheltered(cfg: Config, tc: T.Config, st: State<Repair>, k: Key, now: Time)
    requires ConfigOk(cfg) && Inv(cfg, st) && k in st.slots && now < st.slots[k].born + cfg.maxAge
    requires var s, e := st.slots[k], st.env.tracker;
             Missing(s) != [] && (AnyPending(e, s.hashKey, Missing(s)) ||
                                  (!s.requested && (s.hashKey in e.flows || tc.maxFlows <= 0)))
    ensures Sheltered(cfg, tc, st, k, now)
  {
    hide SweepList, Missing, SlotsInv, Memory, Balanced, AsksOnce;
    var s := st.slots[k];
    var i := FirstAt(st.insertOrder, k);
    var mid := AtTurn(cfg, tc, st, k, now).env.tracker;
    SweepListGrows(cfg, tc, SweepDone(st, now), st.insertOrder, 0, i, now);
    NoTurnsYet(cfg, tc, SweepDone(st, now), st.insertOrder, now);
    if AnyPending(st.env.tracker, s.hashKey, Missing(s)) {
      GrowsPending(st.env.tracker, mid, s.hashKey, Missing(s));
    }
  }

  lemma NoTurnsYet(cfg: Config, tc: T.Config, st: State<Repair>, order: seq<Key>, now: Time)
    ensures SweepList(cfg, Wired(tc), st, order, 0, now) == st
  {
  }
}
