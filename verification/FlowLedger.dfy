/**
 The loss ledger. Every gap a flow ever detected is accounted for: filled, given up on, still
 pending, or dropped when another emitter took the flow over. A stale response can unbalance the
 books in one direction only, and exactly when it hits an entry it was not dispatched for.
 */
module FlowLedger {
  import opened Base
  import opened Flow

  /** Detected gaps that are not accounted for anywhere; zero when the books are exact. */
  ghost function Unaccounted(t: Track): int {
    t.books.detected - t.books.suppressed - t.books.unrecovered - t.books.dropped - |Real(t.flow.pending)|
  }

  /** Detected gaps neither filled nor pending any more. */
  ghost function Settled(t: Track): int {
    t.books.detected - t.books.suppressed - |Real(t.flow.pending)|
  }

  /** Abandoned gaps neither filled late nor still remembered. */
  ghost function LateMargin(t: Track): int {
    t.books.unrecovered - t.books.lateFilled - |t.flow.abandoned|
  }

  /** The margins never shrink. */
  ghost predicate Monotone(a: Track, b: Track) {
    Settled(a) <= Settled(b) && LateMargin(a) <= LateMargin(b)
  }

  /** In addition nothing goes unaccounted. */
  ghost predicate Fair(a: Track, b: Track) {
    Monotone(a, b) && Unaccounted(a) == Unaccounted(b)
  }

  // ----- the pending set -----

  lemma RealRemove(m: map<U64, Gap>, s: U64)
    ensures |Real(m - {s})| == if s in m && !m[s].speculative then |Real(m)| - 1 else |Real(m)|
  {
    assert Real(m - {s}) == Real(m) - {s};
  }

  lemma RealPut(m: map<U64, Gap>, s: U64, e: Gap)
    requires s !in m || m[s].speculative == e.speculative
    ensures |Real(m[s := e])| == if s !in m && !e.speculative then |Real(m)| + 1 else |Real(m)|
  {
    assert Real(m[s := e]) == if e.speculative then Real(m) else Real(m) + {s};
  }

  lemma SizeRemove(m: map<U64, Time>, s: U64)
    ensures |m - {s}| == if s in m then |m| - 1 else |m|
  {
    assert (m - {s}).Keys == m.Keys - {s};
  }

  lemma SizePut(m: map<U64, Time>, s: U64, at: Time)
    ensures |m[s := at]| <= |m| + 1
  {
    assert m[s := at].Keys == m.Keys + {s};
  }

  // ----- each piece -----

  lemma LateFillFair(t: Track, s: U64)
    ensures Fair(t, NoteLateFill(t, s))
  {
    SizeRemove(t.flow.abandoned, s);
  }

  lemma FillFair(t: Track, s: U64)
    requires s in t.flow.pending
    ensures Fair(t, FillPending(t, s))
  {
    RealRemove(t.flow.pending, s);
  }

  /** Abandoning adds one to unrecovered and at most one to what is remembered. */
  lemma AbandonBooks(t: Track, s: U64, at: Time)
    ensures var r := BookAbandon(t, s, at);
            && LateMargin(t) <= LateMargin(r) && Settled(r) == Settled(t)
            && Unaccounted(r) == Unaccounted(t) - 1
  {
    SizePut(t.flow.abandoned, s, at);
  }

  lemma RegisterFair(cfg: Config, t: Track, s: U64, now: Time, ch: Choices)
    ensures Fair(t, Register(cfg, t, s, now, ch))
  {
    if s !in t.flow.pending {
      RealPut(t.flow.pending, s, NewGap(cfg, s, now, ch.jitter(s)));
    }
  }

  lemma {:induction false} RangeFair(cfg: Config, t: Track, lo: U64, hi: U64, now: Time, ch: Choices)
    ensures Fair(t, RegisterRange(cfg, t, lo, hi, now, ch))
    decreases hi - lo
  {
    if lo < hi {
      RangeFair(cfg, t, lo, hi - 1, now, ch);
      RegisterFair(cfg, RegisterRange(cfg, t, lo, hi - 1, now, ch), hi - 1, now, ch);
    }
  }

  lemma {:induction false} ListFair(cfg: Config, t: Track, seqs: seq<U64>, n: nat, now: Time, ch: Choices)
    requires n <= |seqs|
    ensures Fair(t, RegisterList(cfg, t, seqs, n, now, ch))
  {
    if n > 0 {
      ListFair(cfg, t, seqs, n - 1, now, ch);
      RegisterFair(cfg, RegisterList(cfg, t, seqs, n - 1, now, ch), seqs[n - 1], now, ch);
    }
  }

  lemma RebaselineFair(cfg: Config, t: Track, seqNum: U64, elapsed: Time, now: Time, ch: Choices)
    requires seqNum > t.flow.last
    ensures Fair(t, Rebaseline(cfg, t, seqNum, elapsed, now, ch))
  {
    var cleared := Track(t.flow.(pending := map[]),
                         t.books.(dropped := t.books.dropped + |Real(t.flow.pending)|));
    assert Real(map[]) == {};
    var tail := TailLength(cfg, t.flow, seqNum, elapsed);
    RangeFair(cfg, cleared, seqNum - tail, seqNum, now, ch);
  }

  /** The order in which a map is walked: each key once. */
  ghost predicate Walks(order: seq<U64>, pending: map<U64, Gap>) {
    NoDup(order) && forall s :: s in order <==> s in pending
  }

  /** After a restart flush every real gap among those walked has been booked, once. */
  lemma {:induction false} FlushCounts(t: Track, order: seq<U64>, n: nat, ch: Choices)
    requires n <= |order|
    ensures var r := FlushList(t, order, n, ch);
            && r.flow.pending == t.flow.pending && r.flow.last == t.flow.last
            && Settled(r) == Settled(t) && LateMargin(t) <= LateMargin(r)
            && (NoDup(order) ==>
                  Unaccounted(r) == Unaccounted(t) - |Real(t.flow.pending) * Elements(order[..n])|)
  {
    if n == 0 {
      assert Real(t.flow.pending) * Elements(order[..0]) == {};
    } else {
      FlushCounts(t, order, n - 1, ch);
      var r, s := FlushList(t, order, n - 1, ch), order[n - 1];
      AbandonBooks(r, s, ch.stamp(s));
      FlushStep(t.flow.pending, order, n);
    }
  }

  lemma FlushStep(pending: map<U64, Gap>, order: seq<U64>, n: nat)
    requires 0 < n <= |order|
    ensures NoDup(order) ==>
              |Real(pending) * Elements(order[..n])| ==
              |Real(pending) * Elements(order[..n - 1])| + (if order[n - 1] in Real(pending) then 1 else 0)
  {
    var s := order[n - 1];
    assert order[..n] == order[..n - 1] + [s];
    assert Elements(order[..n]) == Elements(order[..n - 1]) + {s};
    if NoDup(order) {
      assert s !in order[..n - 1];
      if s in Real(pending) {
        assert Real(pending) * Elements(order[..n]) == Real(pending) * Elements(order[..n - 1]) + {s};
      } else {
        assert Real(pending) * Elements(order[..n]) == Real(pending) * Elements(order[..n - 1]);
      }
    }
  }

  lemma RestartFair(t: Track, seqNum: U64, ch: Choices)
    ensures Monotone(t, Restart(t, seqNum, ch))
    ensures Walks(ch.order, t.flow.pending) ==> Fair(t, Restart(t, seqNum, ch))
  {
    hide FlushList, NoDup;
    FlushCounts(t, ch.order, |ch.order|, ch);
    assert Real(map[]) == {};
    assert ch.order[..|ch.order|] == ch.order;
    if Walks(ch.order, t.flow.pending) {
      assert Real(t.flow.pending) * Elements(ch.order) == Real(t.flow.pending);
    }
  }

  lemma AdvanceFair(cfg: Config, t: Track, seqNum: U64, live: bool, elapsed: Time, now: Time, ch: Choices)
    ensures Monotone(t, Advance(cfg, t, seqNum, live, elapsed, now, ch))
    ensures Walks(ch.order, t.flow.pending) || !TripsRestart(cfg, t.flow, seqNum, live) ==>
              Fair(t, Advance(cfg, t, seqNum, live, elapsed, now, ch))
  {
    hide Restart, Rebaseline, RegisterRange, Walks, Real;
    if t.flow.last == 0 {
    } else if seqNum <= t.flow.last {
      RestartFair(t, seqNum, ch);
    } else if seqNum > t.flow.last + 1 {
      RebaselineFair(cfg, t, seqNum, elapsed, now, ch);
      RangeFair(cfg, t, t.flow.last + 1, seqNum, now, ch);
    }
  }

  lemma ObserveFair(cfg: Config, t: Track, seqNum: U64, live: bool, now: Time, ch: Choices)
    ensures Monotone(t, ObserveFrame(cfg, t, seqNum, live, now, ch))
    ensures Walks(ch.order, t.flow.pending) ==> Fair(t, ObserveFrame(cfg, t, seqNum, live, now, ch))
  {
    hide Advance, FillPending, NoteLateFill, Real, Walks;
    var seen := Touch(t, seqNum, now);
    TouchFair(t, seqNum, now);
    if seqNum != 0 {
      if seqNum in seen.flow.pending {
        FillFair(seen, seqNum);
        FilledFrame(seen, seqNum);
        if seqNum > seen.flow.last {
          FilledBeyond(cfg, seen, seqNum, live, now - t.flow.lastSeen, now, ch);
        }
      } else {
        AdvanceFair(cfg, seen, seqNum, live, now - t.flow.lastSeen, now, ch);
      }
    }
  }

  lemma TouchFair(t: Track, seqNum: U64, now: Time)
    ensures var r := Touch(t, seqNum, now);
            Fair(t, r) && r.flow.pending == t.flow.pending && r.flow.last == t.flow.last
  {
    LateFillFair(t.(flow := t.flow.(lastSeen := now, probeMisses := 0)), seqNum);
  }

  lemma FilledFrame(t: Track, seqNum: U64)
    requires seqNum in t.flow.pending
    ensures FillPending(t, seqNum).flow.last == t.flow.last
  {
  }

  /** A frame beyond the last one cannot look like a restart, so no walk of the map is needed. */
  lemma FilledBeyond(cfg: Config, t: Track, seqNum: U64, live: bool, elapsed: Time, now: Time, ch: Choices)
    requires seqNum in t.flow.pending && seqNum > t.flow.last
    ensures Fair(FillPending(t, seqNum), Advance(cfg, FillPending(t, seqNum), seqNum, live, elapsed, now, ch))
  {
    hide Restart, Rebaseline, RegisterRange, Walks, Real;
    AdvanceFair(cfg, FillPending(t, seqNum), seqNum, live, elapsed, now, ch);
  }

  // ----- sweeps -----

  lemma SweepGapFair(cfg: Config, t: Track, s: U64, now: Time, ch: Choices)
    ensures Fair(t, SweepGap(cfg, t, s, now, ch))
  {
    if s in t.flow.pending {
      var e := t.flow.pending[s];
      if GivesUp(cfg, e, now) {
        RealRemove(t.flow.pending, s);
        AbandonBooks(t.(flow := t.flow.(pending := t.flow.pending - {s})), s, ch.stamp(s));
      } else {
        RealPut(t.flow.pending, s, Stamped(cfg, e, now, ch.room(s)));
      }
    }
  }

  lemma {:induction false} SweepGapsFair(cfg: Config, t: Track, order: seq<U64>, n: nat, now: Time, ch: Choices)
    requires n <= |order|
    ensures Fair(t, SweepGaps(cfg, t, order, n, now, ch))
  {
    hide SweepGap, Real;
    if n > 0 {
      SweepGapsFair(cfg, t, order, n - 1, now, ch);
      SweepGapFair(cfg, SweepGaps(cfg, t, order, n - 1, now, ch), order[n - 1], now, ch);
    }
  }

  lemma ForgetFair(t: Track, now: Time)
    ensures Fair(t, ForgetAbandoned(t, now))
  {
    SubsetSize(ForgetAbandoned(t, now).flow.abandoned.Keys, t.flow.abandoned.Keys);
  }

  lemma ProbeFair(cfg: Config, t: Track, now: Time, ch: Choices)
    requires |t.flow.pending| == 0
    ensures Fair(t, MaybeProbe(cfg, t, now, ch))
  {
    assert t.flow.pending.Keys == {};
    assert Real(t.flow.pending) == {} && Real(MaybeProbe(cfg, t, now, ch).flow.pending) == {};
  }

  lemma SweepFair(cfg: Config, t: Track, now: Time, ch: Choices)
    ensures Fair(t, SweepFlow(cfg, t, now, ch))
  {
    hide SweepGaps, MaybeProbe, Real;
    var old_ := ForgetAbandoned(t, now);
    ForgetFair(t, now);
    SweepGapsFair(cfg, old_, ch.order, |ch.order|, now, ch);
    var swept := SweepGaps(cfg, old_, ch.order, |ch.order|, now, ch);
    if |swept.flow.pending| == 0 {
      ProbeFair(cfg, swept, now, ch);
    }
  }

  // ----- responses -----

  /**
   The copy still describes what is stored under its number: a real copy finds a real entry,
   a probe's copy finds no real one.
   */
  ghost predicate Current(pending: map<U64, Gap>, copy: Gap, resp: Response) {
    if resp.Refused? && !copy.speculative then copy.seqNum in Real(pending)
    else if resp.Refused? || (resp.Miss? && copy.speculative) then copy.seqNum !in Real(pending)
    else true
  }

  /** A response keeps the books exact precisely when it is current; it never shrinks a margin. */
  lemma RespondFair(cfg: Config, t: Track, copy: Gap, resp: Response, now: Time, share: nat)
    ensures Monotone(t, Respond(cfg, t, copy, resp, now, share))
    ensures Fair(t, Respond(cfg, t, copy, resp, now, share)) <==> Current(t.flow.pending, copy, resp)
  {
    hide Real, Retried, FillPending, Fair, Monotone, AbandonGap, ProbeMissed;
    if resp.Refused? {
      RefusedFair(t, copy, now);
    } else if resp.Miss? && copy.speculative {
      ProbeMissedFair(t, copy);
    } else if copy.seqNum !in t.flow.pending {
      UnmovedFair(t);
    } else if resp.Recovered? {
      FillFair(t, copy.seqNum);
      FairIsMonotone(t, FillPending(t, copy.seqNum));
    } else {
      RetriedFair(cfg, t, copy.seqNum, resp, now, share);
    }
  }

  lemma UnmovedFair(t: Track)
    ensures Fair(t, t) && Monotone(t, t)
  {
  }

  lemma FairIsMonotone(a: Track, b: Track)
    requires Fair(a, b)
    ensures Monotone(a, b)
  {
  }

  /** An entry taken out unbooked: what it leaves is short of it exactly if it was real. */
  lemma RemovedMargins(t: Track, s: U64)
    ensures var r := t.(flow := ClearProbing(t.flow.(pending := t.flow.pending - {s}), s));
            var one := if s in Real(t.flow.pending) then 1 else 0;
            && Settled(r) == Settled(t) + one && LateMargin(r) == LateMargin(t)
            && Unaccounted(r) == Unaccounted(t) + one
  {
    RealRemove(t.flow.pending, s);
  }

  lemma RefusedFair(t: Track, copy: Gap, now: Time)
    ensures Monotone(t, AbandonGap(t, copy, now))
    ensures Fair(t, AbandonGap(t, copy, now)) <==> copy.speculative == (copy.seqNum !in Real(t.flow.pending))
  {
    hide Real, BookAbandon, ClearProbing, Settled, LateMargin, Unaccounted;
    var s := copy.seqNum;
    RemovedMargins(t, s);
    AbandonBooks(t.(flow := ClearProbing(t.flow.(pending := t.flow.pending - {s}), s)), s, now);
  }

  lemma ProbeMissedFair(t: Track, copy: Gap)
    ensures Monotone(t, ProbeMissed(t, copy))
    ensures Fair(t, ProbeMissed(t, copy)) <==> copy.seqNum !in Real(t.flow.pending)
  {
    RealRemove(t.flow.pending, copy.seqNum);
  }

  lemma RetriedFair(cfg: Config, t: Track, s: U64, resp: Response, now: Time, share: nat)
    requires s in t.flow.pending
    ensures var e := Retried(cfg, t.flow.pending[s], resp, now, share);
            var r := t.(flow := t.flow.(pending := t.flow.pending[s := e]));
            Monotone(t, r) && Fair(t, r)
  {
    hide Real, Retried;
    RetriedKeepsKind(cfg, t.flow.pending[s], resp, now, share);
    RealPut(t.flow.pending, s, Retried(cfg, t.flow.pending[s], resp, now, share));
  }

  lemma RetriedKeepsKind(cfg: Config, e: Gap, resp: Response, now: Time, share: nat)
    ensures var r := Retried(cfg, e, resp, now, share);
            r.speculative == e.speculative && r.seqNum == e.seqNum && r.deadline == e.deadline
  {
  }

  // ----- over a flow's life -----

  /** A flow with no entry in the tracker has nothing pending and nothing remembered. */
  ghost function AsTrack(c: Cell): Track {
    Track(if c.flow.Some? then c.flow.value else NewFlow(0), c.books)
  }

  ghost predicate CellMonotone(a: Cell, b: Cell) {
    Monotone(AsTrack(a), AsTrack(b))
  }

  ghost predicate CellFair(a: Cell, b: Cell) {
    Fair(AsTrack(a), AsTrack(b))
  }

  /** The step walks maps completely and any answer in it is current. */
  ghost predicate Orderly(c: Cell, op: Op) {
    match op
    case Observe(_, _, _, _, ch) => c.flow.Some? ==> Walks(ch.order, c.flow.value.pending)
    case Answer(copy, resp, _, _) => c.flow.Some? ==> Current(c.flow.value.pending, copy, resp)
    case _ => true
  }

  lemma NewFlowNeutral(c: Cell, now: Time)
    requires c.flow.None?
    ensures Settled(Track(NewFlow(now), c.books)) == Settled(AsTrack(c))
    ensures LateMargin(Track(NewFlow(now), c.books)) == LateMargin(AsTrack(c))
    ensures Unaccounted(Track(NewFlow(now), c.books)) == Unaccounted(AsTrack(c))
  {
  }

  lemma NewFlowObserved(cfg: Config, books: Books, seqNum: U64, live: bool, now: Time, ch: Choices)
    ensures Fair(Track(NewFlow(now), books), ObserveFrame(cfg, Track(NewFlow(now), books), seqNum, live, now, ch))
  {
  }

  lemma StepFair(cfg: Config, c: Cell, op: Op)
    ensures CellMonotone(c, Step(cfg, c, op))
    ensures Orderly(c, op) ==> CellFair(c, Step(cfg, c, op))
  {
    hide ObserveFrame, RegisterList, Fill, SweepFlow, Respond, Real, Walks, Current, Settled, LateMargin, Unaccounted;
    match op
    case Observe(seqNum, live, now, admit, ch) =>
      if c.flow.Some? {
        ObserveFair(cfg, AsTrack(c), seqNum, live, now, ch);
      } else {
        NewFlowNeutral(c, now);
        NewFlowObserved(cfg, c.books, seqNum, live, now, ch);
      }
    case Request(seqs, now, admit, ch) =>
      if c.flow.Some? {
        ListFair(cfg, AsTrack(c), seqs, |seqs|, now, ch);
      } else {
        NewFlowNeutral(c, now);
        ListFair(cfg, Track(NewFlow(now), c.books), seqs, |seqs|, now, ch);
      }
    case FillFrame(seqNum) =>
      if c.flow.Some? {
        FillFrameFair(AsTrack(c), seqNum);
      }
    case Sweep(now, ch) =>
      if c.flow.Some? {
        SweepFair(cfg, AsTrack(c), now, ch);
        var t := SweepFlow(cfg, AsTrack(c), now, ch);
        if Idle(cfg, t.flow, now) {
          IdleFair(cfg, t, now);
          assert Monotone(t, AsTrack(Step(cfg, c, op)));
        }
      }
    case Answer(copy, resp, now, share) =>
      if c.flow.Some? {
        RespondFair(cfg, AsTrack(c), copy, resp, now, share);
      }
  }

  lemma FillFrameFair(t: Track, seqNum: U64)
    ensures Fair(t, Fill(t, seqNum))
  {
    LateFillFair(t, seqNum);
    if seqNum in t.flow.pending {
      FillFair(t, seqNum);
    }
  }

  lemma IdleFair(cfg: Config, t: Track, now: Time)
    requires Idle(cfg, t.flow, now)
    ensures Fair(t, Track(NewFlow(0), t.books))
  {
    assert t.flow.pending.Keys == {};
    assert Real(t.flow.pending) == {} && Real(NewFlow(0).pending) == {};
  }

  /** The tracker has never seen the flow. */
  function Unseen(): Cell {
    Cell(None, NewBooks())
  }

  /** Real gaps pending on the flow. */
  ghost function RealPending(c: Cell): nat {
    if c.flow.Some? then |Real(c.flow.value.pending)| else 0
  }

  /** Abandoned numbers the flow still remembers. */
  ghost function StillRemembered(c: Cell): nat {
    if c.flow.Some? then |c.flow.value.abandoned| else 0
  }

  lemma {:induction false} RunMonotone(cfg: Config, ops: seq<Op>)
    ensures CellMonotone(Unseen(), Run(cfg, Unseen(), ops))
  {
    hide Step, Settled, LateMargin;
    if ops != [] {
      RunMonotone(cfg, ops[..|ops| - 1]);
      StepFair(cfg, Run(cfg, Unseen(), ops[..|ops| - 1]), ops[|ops| - 1]);
    }
  }

  /**
   In every run, with responses as stale or as often repeated as they like: gaps filled plus gaps
   still pending never exceed gaps detected, and late fills plus remembered abandonments never
   exceed gaps booked unrecovered.
   */
  lemma LossLedger(cfg: Config, ops: seq<Op>)
    ensures var c := Run(cfg, Unseen(), ops);
            && c.books.suppressed + RealPending(c) <= c.books.detected
            && c.books.lateFilled + StillRemembered(c) <= c.books.unrecovered
  {
    hide Run;
    RunMonotone(cfg, ops);
    assert Real(NewFlow(0).pending) == {};
  }

  /** Every step of the run walks its maps completely and every answer in it is current. */
  ghost predicate AllOrderly(cfg: Config, ops: seq<Op>) {
    forall i :: 0 <= i < |ops| ==> Orderly(Run(cfg, Unseen(), ops[..i]), ops[i])
  }

  lemma {:induction false} RunFair(cfg: Config, ops: seq<Op>)
    requires AllOrderly(cfg, ops)
    ensures CellFair(Unseen(), Run(cfg, Unseen(), ops))
  {
    hide Step, Settled, LateMargin, Unaccounted, Orderly;
    if ops != [] {
      var front := ops[..|ops| - 1];
      assert forall i :: 0 <= i < |front| ==> front[..i] == ops[..i] && front[i] == ops[i];
      RunFair(cfg, front);
      StepFair(cfg, Run(cfg, Unseen(), front), ops[|ops| - 1]);
    }
  }

  /**
   When every answer is current, each detected gap is filled, given up on, pending, or was dropped
   at a re-baseline: nothing else can happen to it.
   */
  lemma ExactLedger(cfg: Config, ops: seq<Op>)
    requires AllOrderly(cfg, ops)
    ensures var c := Run(cfg, Unseen(), ops);
            c.books.detected == c.books.suppressed + c.books.unrecovered + RealPending(c) + c.books.dropped
  {
    hide Run, AllOrderly;
    RunFair(cfg, ops);
    assert Real(NewFlow(0).pending) == {};
  }

  /** A refusal that arrives after its gap was filled is booked as a loss all the same. */
  lemma StaleRefusalOvercounts(cfg: Config, ch: Choices)
    ensures var ops := [Request([7], 0, true, ch), FillFrame(7),
                        Answer(NewGap(cfg, 7, 0, ch.jitter(7)), Refused, 0, 0)];
            var b := Run(cfg, Unseen(), ops).books;
            b.detected == 1 && b.suppressed == 1 && b.unrecovered == 1
  {
    var ops := [Request([7], 0, true, ch), FillFrame(7),
                Answer(NewGap(cfg, 7, 0, ch.jitter(7)), Refused, 0, 0)];
    assert ops[..2][..1] == [ops[0]] && ops[..3] == ops && ops[..2] == [ops[0], ops[1]];
    var one := Step(cfg, Unseen(), ops[0]);
    assert RegisterList(cfg, Track(NewFlow(0), NewBooks()), [7], 1, 0, ch) ==
           Register(cfg, Track(NewFlow(0), NewBooks()), 7, 0, ch);
    assert Run(cfg, Unseen(), [ops[0]]) == one by {
      assert [ops[0]][..0] == [];
    }
    var two := Step(cfg, one, ops[1]);
    assert Run(cfg, Unseen(), ops[..2]) == two;
    assert Run(cfg, Unseen(), ops) == Step(cfg, two, ops[2]);
  }
}
