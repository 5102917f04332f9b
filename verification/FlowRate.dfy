/**
 Repairs do not disturb the stream, forward jumps stay bounded, and the rate estimate the
 plausibility test divides by stays within the samples it was built from.
 */
module FlowRate {
  import opened Base
  import opened Flow
  import opened FlowSequence

  // ----- repair isolation -----

  /** Nothing of the stream position or the rate estimate differs. */
  ghost predicate SameStream(a: FlowState, b: FlowState) {
    a.last == b.last && a.ewma == b.ewma && a.contiguous == b.contiguous && a.samples == b.samples
  }

  /**
   A frame at or below the last one, when it is a repair (no live source) or fills a pending gap,
   leaves the stream alone and touches no pending or abandoned entry but its own.
   */
  lemma RepairIsIsolated(cfg: Config, t: Track, seqNum: U64, live: bool, now: Time, ch: Choices)
    requires 0 < seqNum <= t.flow.last
    requires !live || seqNum in t.flow.pending
    ensures var r := ObserveFrame(cfg, t, seqNum, live, now, ch).flow;
            && SameStream(t.flow, r)
            && r.pending == t.flow.pending - {seqNum}
            && r.abandoned == t.flow.abandoned - {seqNum}
  {
    if seqNum !in t.flow.pending {
      assert t.flow.pending - {seqNum} == t.flow.pending;
    }
    if seqNum !in t.flow.abandoned {
      assert t.flow.abandoned - {seqNum} == t.flow.abandoned;
    }
  }

  /**
   While a flow keeps its entry, its position moves back only on a live frame that fills nothing,
   is at or below the threshold, and finds the position above it; the position is then that frame's.
   */
  lemma MovesBackOnlyOnRestart(cfg: Config, c: Cell, op: Op)
    requires c.flow.Some? && Step(cfg, c, op).flow.Some?
    requires Step(cfg, c, op).flow.value.last < c.flow.value.last
    ensures && op.Observe? && op.live
            && op.seqNum !in c.flow.value.pending
            && op.seqNum <= Threshold(cfg) < c.flow.value.last
            && Step(cfg, c, op).flow.value.last == op.seqNum
  {
    hide FlushList, Rebaseline, RegisterRange, SweepGaps, Implausible;
    var f := c.flow.value;
    var t := Track(f, c.books);
    match op
    case Observe(seqNum, live, now, admit, ch) => ObserveMoves(cfg, t, seqNum, live, now, ch);
    case Request(seqs, now, admit, ch) => ListKeepsLast(cfg, t, seqs, |seqs|, now, ch);
    case FillFrame(seqNum) =>
    case Sweep(now, ch) => SweepKeepsLast(cfg, t, now, ch);
    case Answer(copy, resp, now, share) =>
  }

  lemma {:induction false} ListKeepsLast(cfg: Config, t: Track, seqs: seq<U64>, n: nat, now: Time, ch: Choices)
    requires n <= |seqs|
    ensures SameStream(t.flow, RegisterList(cfg, t, seqs, n, now, ch).flow)
  {
    if n > 0 {
      ListKeepsLast(cfg, t, seqs, n - 1, now, ch);
    }
  }

  lemma {:induction false} SweepGapsKeepLast(cfg: Config, t: Track, order: seq<U64>, n: nat, now: Time, ch: Choices)
    requires n <= |order|
    ensures SameStream(t.flow, SweepGaps(cfg, t, order, n, now, ch).flow)
  {
    if n > 0 {
      SweepGapsKeepLast(cfg, t, order, n - 1, now, ch);
    }
  }

  lemma SweepKeepsLast(cfg: Config, t: Track, now: Time, ch: Choices)
    ensures SameStream(t.flow, SweepFlow(cfg, t, now, ch).flow)
  {
    SweepGapsKeepLast(cfg, ForgetAbandoned(t, now), ch.order, |ch.order|, now, ch);
  }

  /** Where one frame takes the position. */
  lemma ObserveMoves(cfg: Config, t: Track, seqNum: U64, live: bool, now: Time, ch: Choices)
    ensures var r := ObserveFrame(cfg, t, seqNum, live, now, ch).flow;
            && (r.last == t.flow.last || r.last == seqNum)
            && (r.last < t.flow.last ==> live && seqNum !in t.flow.pending && TripsRestart(cfg, t.flow, seqNum, live))
  {
    hide FlushList, Rebaseline, RegisterRange, Implausible;
    TouchKeeps(t, seqNum, now);
    var u := Touch(t, seqNum, now);
    if seqNum > u.flow.last {
      var v := if seqNum in u.flow.pending then FillPending(u, seqNum) else u;
      RebaselineLeavesTail(cfg, v, seqNum, now - t.flow.lastSeen, now, ch);
      RangeKeys(cfg, v, v.flow.last + 1, seqNum, now, ch);
    }
  }

  // ----- forward jumps -----

  /** After a re-baseline the only pending numbers are the bounded tail just before the new position. */
  lemma RebaselineLeavesTail(cfg: Config, t: Track, seqNum: U64, elapsed: Time, now: Time, ch: Choices)
    requires seqNum > t.flow.last
    ensures var r := Rebaseline(cfg, t, seqNum, elapsed, now, ch).flow;
            var tail := TailLength(cfg, t.flow, seqNum, elapsed);
            && r.last == seqNum && r.ewma == 0 && r.contiguous == 0 && r.samples == 0
            && tail <= MaxJump(cfg) && tail < seqNum - t.flow.last
            && (forall n: U64 :: n in r.pending <==> seqNum - tail <= n < seqNum)
            && ((t.flow.ewma <= 0 || t.flow.contiguous < MIN_SETTLED) ==> r.pending == map[])
  {
    var tail := TailLength(cfg, t.flow, seqNum, elapsed);
    var cleared := Track(t.flow.(pending := map[]),
                         t.books.(dropped := t.books.dropped + |Real(t.flow.pending)|));
    RangeKeys(cfg, cleared, seqNum - tail, seqNum, now, ch);
  }

  lemma {:induction false} RangeBound(a: set<U64>, lo: int, hi: int)
    requires lo <= hi && forall n :: n in a ==> lo <= n < hi
    ensures |a| <= hi - lo
    decreases hi - lo
  {
    if lo == hi {
      assert a == {};
    } else if hi - 1 in a {
      var b := a - {hi - 1};
      RangeBound(b, lo, hi - 1);
      assert a == b + {hi - 1};
    } else {
      RangeBound(a, lo, hi - 1);
    }
  }

  /** The numbers pending after the step that were not pending before. */
  function Added(a: FlowState, b: FlowState): set<U64> {
    b.pending.Keys - a.pending.Keys
  }

  /** The step added at most MaxForwardJump numbers, all below seqNum and above the old position. */
  ghost predicate AddsFew(cfg: Config, a: FlowState, b: FlowState, seqNum: U64) {
    && |Added(a, b)| <= MaxJump(cfg)
    && forall n :: n in Added(a, b) ==> a.last < n < seqNum && b.last == seqNum
  }

  lemma RebaselineAdds(cfg: Config, t: Track, seqNum: U64, elapsed: Time, now: Time, ch: Choices)
    requires seqNum > t.flow.last
    ensures AddsFew(cfg, t.flow, Rebaseline(cfg, t, seqNum, elapsed, now, ch).flow, seqNum)
  {
    hide Rebaseline, TailLength;
    RebaselineLeavesTail(cfg, t, seqNum, elapsed, now, ch);
    RangeBound(Added(t.flow, Rebaseline(cfg, t, seqNum, elapsed, now, ch).flow),
               seqNum - TailLength(cfg, t.flow, seqNum, elapsed), seqNum);
  }

  lemma OpenGapAdds(cfg: Config, t: Track, seqNum: U64, now: Time, ch: Choices)
    requires t.flow.last < seqNum && seqNum - t.flow.last - 1 <= MaxJump(cfg)
    ensures AddsFew(cfg, t.flow, OpenGap(cfg, t, seqNum, now, ch).flow, seqNum)
  {
    hide RegisterRange, MaxJump;
    RangeKeys(cfg, t, t.flow.last + 1, seqNum, now, ch);
    RangeBound(Added(t.flow, OpenGap(cfg, t, seqNum, now, ch).flow), t.flow.last + 1, seqNum);
  }

  lemma NothingAdded(cfg: Config, a: FlowState, b: FlowState, seqNum: U64)
    requires b.pending.Keys <= a.pending.Keys
    ensures AddsFew(cfg, a, b, seqNum)
  {
    assert Added(a, b) == {};
  }

  lemma AdvanceAdds(cfg: Config, t: Track, seqNum: U64, live: bool, elapsed: Time, now: Time, ch: Choices)
    ensures AddsFew(cfg, t.flow, Advance(cfg, t, seqNum, live, elapsed, now, ch).flow, seqNum)
  {
    hide FlushList, Rebaseline, OpenGap, MaxJump, AddsFew, Expected;
    if t.flow.last == 0 || seqNum <= t.flow.last + 1 {
      NothingAdded(cfg, t.flow, Advance(cfg, t, seqNum, live, elapsed, now, ch).flow, seqNum);
    } else if Implausible(cfg, t.flow, seqNum, elapsed) {
      RebaselineAdds(cfg, t, seqNum, elapsed, now, ch);
    } else {
      OpenGapAdds(cfg, t, seqNum, now, ch);
    }
  }

  /**
   Whatever it is, one observed frame adds at most MaxForwardJump gaps, all strictly between the
   old position and the frame.
   */
  lemma JumpIsBounded(cfg: Config, t: Track, seqNum: U64, live: bool, now: Time, ch: Choices)
    ensures var r := ObserveFrame(cfg, t, seqNum, live, now, ch).flow;
            && |Added(t.flow, r)| <= MaxJump(cfg)
            && forall n :: n in Added(t.flow, r) ==> t.flow.last < n < seqNum && r.last == seqNum
  {
    hide Advance, Touch, FillPending, Added, MaxJump;
    TouchKeeps(t, seqNum, now);
    var u := Touch(t, seqNum, now);
    var r := ObserveFrame(cfg, t, seqNum, live, now, ch).flow;
    AddedMore(t.flow, t.flow, t.flow);
    if seqNum in u.flow.pending {
      var v := FillPending(u, seqNum);
      FillKeeps(u, seqNum);
      AdvanceAdds(cfg, v, seqNum, live, now - t.flow.lastSeen, now, ch);
      AddedMore(t.flow, v.flow, r);
    } else {
      AdvanceAdds(cfg, u, seqNum, live, now - t.flow.lastSeen, now, ch);
      AddedMore(t.flow, u.flow, r);
    }
  }

  lemma FillKeeps(t: Track, seqNum: U64)
    requires seqNum in t.flow.pending
    ensures FillPending(t, seqNum).flow.last == t.flow.last
    ensures FillPending(t, seqNum).flow.pending.Keys <= t.flow.pending.Keys
  {
  }

  lemma AddedMore(a: FlowState, b: FlowState, r: FlowState)
    requires b.pending.Keys <= a.pending.Keys
    ensures Added(a, r) <= Added(b, r) && |Added(a, r)| <= |Added(b, r)|
    ensures r.pending.Keys <= a.pending.Keys ==> Added(a, r) == {}
  {
    SubsetSize(Added(a, r), Added(b, r));
  }

  // ----- the rate estimate -----

  /** The estimate is unset or lies between the bounds. */
  predicate Within(ewma: Time, lo: Time, hi: Time) {
    ewma == 0 || lo <= ewma <= hi
  }

  /** Smoothing a sample between the bounds keeps the estimate between them; it is then set. */
  lemma SmoothWithin(ewma: Time, elapsed: Time, lo: Time, hi: Time)
    requires 0 < lo && Within(ewma, lo, hi) && (elapsed > 0 ==> lo <= elapsed <= hi)
    ensures Within(Smooth(ewma, elapsed), lo, hi)
    ensures elapsed > 0 ==> Smooth(ewma, elapsed) > 0
  {
    if elapsed > 0 && ewma != 0 {
      var d := elapsed - ewma;
      if d >= 0 {
        assert 0 <= d / 8 <= d;
      } else {
        assert 0 <= (-d) / 8 <= -d;
      }
    }
  }

  /** The frame feeds the estimate: it is the next in sequence, after a positive silence. */
  predicate Samples(c: Cell, op: Op) {
    && op.Observe? && c.flow.Some? && op.seqNum == c.flow.value.last + 1
    && op.now > c.flow.value.lastSeen
  }

  /** If the frame is a sample, it lies between the bounds. */
  predicate SampleWithin(c: Cell, op: Op, lo: Time, hi: Time) {
    Samples(c, op) ==> lo <= op.now - c.flow.value.lastSeen <= hi
  }

  lemma ObserveRate(cfg: Config, t: Track, seqNum: U64, live: bool, now: Time, ch: Choices)
    ensures var r := ObserveFrame(cfg, t, seqNum, live, now, ch).flow;
            || r.ewma == t.flow.ewma || r.ewma == 0
            || (seqNum == t.flow.last + 1 && r.ewma == Smooth(t.flow.ewma, now - t.flow.lastSeen))
  {
    hide FlushList, Rebaseline, RegisterRange, Implausible, Smooth;
    TouchKeeps(t, seqNum, now);
    var u := Touch(t, seqNum, now);
    var v := if seqNum in u.flow.pending then FillPending(u, seqNum) else u;
    FlushKeepsRate(v, ch.order, |ch.order|, ch);
    if seqNum > v.flow.last {
      RebaselineLeavesTail(cfg, v, seqNum, now - t.flow.lastSeen, now, ch);
      RangeKeys(cfg, v, v.flow.last + 1, seqNum, now, ch);
    }
  }

  lemma {:induction false} FlushKeepsRate(t: Track, order: seq<U64>, n: nat, ch: Choices)
    requires n <= |order|
    ensures FlushList(t, order, n, ch).flow.ewma == t.flow.ewma
  {
    if n > 0 {
      FlushKeepsRate(t, order, n - 1, ch);
    }
  }

  lemma StepRate(cfg: Config, c: Cell, op: Op, lo: Time, hi: Time)
    requires 0 < lo && (c.flow.Some? ==> Within(c.flow.value.ewma, lo, hi)) && SampleWithin(c, op, lo, hi)
    ensures var r := Step(cfg, c, op).flow;
            r.Some? ==> Within(r.value.ewma, lo, hi)
  {
    hide ObserveFrame, SweepFlow, RegisterList, Smooth;
    match op
    case Observe(seqNum, live, now, admit, ch) =>
      if c.flow.Some? {
        var t := Track(c.flow.value, c.books);
        ObserveRate(cfg, t, seqNum, live, now, ch);
        if seqNum == t.flow.last + 1 {
          SmoothWithin(t.flow.ewma, now - t.flow.lastSeen, lo, hi);
        }
      } else {
        NewFlowRate(cfg, c.books, seqNum, live, now, ch);
      }
    case Request(seqs, now, admit, ch) =>
      if c.flow.Some? {
        ListKeepsLast(cfg, Track(c.flow.value, c.books), seqs, |seqs|, now, ch);
      } else {
        ListKeepsLast(cfg, Track(NewFlow(now), c.books), seqs, |seqs|, now, ch);
      }
    case FillFrame(_) =>
    case Sweep(now, ch) =>
      if c.flow.Some? {
        SweepKeepsLast(cfg, Track(c.flow.value, c.books), now, ch);
      }
    case Answer(_, _, _, _) =>
  }

  lemma NewFlowRate(cfg: Config, books: Books, seqNum: U64, live: bool, now: Time, ch: Choices)
    ensures ObserveFrame(cfg, Track(NewFlow(now), books), seqNum, live, now, ch).flow.ewma == 0
  {
  }

  ghost predicate SamplesWithin(cfg: Config, c: Cell, ops: seq<Op>, lo: Time, hi: Time) {
    forall i :: 0 <= i < |ops| ==> SampleWithin(Run(cfg, c, ops[..i]), ops[i], lo, hi)
  }

  /**
   Starting from a flow without an estimate, the estimate is unset or lies between any bounds that
   contain every sample since, that is, every positive silence before a frame that is next in sequence;
   outages, duplicates and repairs do not count. In particular it is never negative, so the plausibility
   test and the probe never divide by zero or less.
   */
  lemma {:induction false} RateStaysWithin(cfg: Config, c: Cell, ops: seq<Op>, lo: Time, hi: Time)
    requires 0 < lo && (c.flow.Some? ==> c.flow.value.ewma == 0) && SamplesWithin(cfg, c, ops, lo, hi)
    ensures var r := Run(cfg, c, ops).flow;
            r.Some? ==> Within(r.value.ewma, lo, hi)
  {
    hide Step;
    if ops != [] {
      var front := ops[..|ops| - 1];
      assert forall i :: 0 <= i < |front| ==> front[..i] == ops[..i] && front[i] == ops[i];
      RateStaysWithin(cfg, c, front, lo, hi);
      StepRate(cfg, Run(cfg, c, front), ops[|ops| - 1], lo, hi);
    }
  }

  // ----- a real outage -----

  lemma ProductOrder(a: nat, b: nat, c: nat)
    requires c > 0
    ensures a > b ==> a * c > b * c
  {
  }

  lemma WithinHeadroom(missing: nat, elapsed: nat, ewma: nat)
    requires ewma > 0 && missing * ewma <= 4 * elapsed
    ensures missing <= 4 * (elapsed / ewma + 1)
  {
    var q := elapsed / ewma;
    assert elapsed < (q + 1) * ewma;
    ProductOrder(missing, 4 * (q + 1), ewma);
    assert (4 * (q + 1)) * ewma == 4 * ((q + 1) * ewma);
  }

  /**
   An outage that lost no more frames than four times the flow's observed rate explains, or no more
   than 64, and no more than MaxForwardJump, is repaired and not mistaken for an emitter change:
   every number it skipped is pending afterwards.
   */
  lemma OutageIsRepaired(cfg: Config, t: Track, seqNum: U64, live: bool, now: Time, ch: Choices)
    requires 0 < t.flow.last < seqNum && 0 <= now - t.flow.lastSeen < 0x2000_0000_0000_0000
    requires var missing := seqNum - t.flow.last - 1;
             missing <= MaxJump(cfg) &&
             (t.flow.ewma > 0 ==> missing <= 64 || missing * t.flow.ewma <= 4 * (now - t.flow.lastSeen))
    ensures var r := ObserveFrame(cfg, t, seqNum, live, now, ch).flow;
            r.last == seqNum && forall n: U64 :: t.flow.last < n < seqNum ==> n in r.pending
  {
    hide RegisterRange, Implausible;
    var elapsed := now - t.flow.lastSeen;
    Plausible(cfg, t.flow, seqNum, elapsed);
    var seen := Touch(t, seqNum, now);
    TouchKeeps(t, seqNum, now);
    var filled := if seqNum in seen.flow.pending then FillPending(seen, seqNum) else seen;
    SameVerdict(cfg, t.flow, filled.flow, seqNum, live, elapsed);
    RangeKeys(cfg, filled, t.flow.last + 1, seqNum, now, ch);
  }

  lemma Plausible(cfg: Config, f: FlowState, seqNum: U64, elapsed: Time)
    requires f.last < seqNum && 0 <= elapsed < 0x2000_0000_0000_0000
    requires var missing := seqNum - f.last - 1;
             missing <= MaxJump(cfg) && (f.ewma > 0 ==> missing <= 64 || missing * f.ewma <= 4 * elapsed)
    ensures !Implausible(cfg, f, seqNum, elapsed)
  {
    hide Expected;
    var missing := seqNum - f.last - 1;
    if f.ewma > 0 && missing > 64 {
      WithinHeadroom(missing, elapsed, f.ewma);
      ExpectedIs(elapsed, f.ewma);
    }
  }

  lemma ExpectedIs(elapsed: Time, ewma: Time)
    requires 0 <= elapsed < 0x2000_0000_0000_0000 && ewma > 0
    ensures Expected(elapsed, ewma) == elapsed / ewma < 0x2000_0000_0000_0000
  {
    QuotientAtMost(elapsed, ewma);
  }

  lemma QuotientAtMost(a: nat, b: nat)
    requires b >= 1
    ensures 0 <= a / b <= a
  {
  }
}
