/**
 What silence does to a flow: when a sweep issues a tail probe and when it forgets the flow, each as an
 if-and-only-if on the flow as the sweep finds it, and what that means over runs.
 */
module FlowSilence {
  import opened Base
  import opened Flow
  import opened FlowLedger
  import opened FlowEntries
  import opened FlowProbes
  import Books = FlowBooks
  import Dispatch = FlowDispatch
  import Forward = FlowForward
  import Rate = FlowRate
  import Retry = FlowRetry
  import Seq = FlowSequence

  /** The sweep gives up everything pending, if anything is. */
  ghost predicate Spent(cfg: Config, f: FlowState, now: Time) {
    forall s :: s in f.pending ==> now > f.pending[s].deadline || f.pending[s].failRounds >= cfg.maxRetries
  }

  /** The probe in flight is still pending. */
  predicate InFlight(f: FlowState) {
    f.probing in f.pending && f.pending[f.probing].speculative
  }

  /** How long a flow of this rhythm must be silent before it is asked about. */
  function IdleTime(cfg: Config, f: FlowState): Time {
    Max(cfg.tailIdle(f.ewma), if cfg.tailProbeMinIdle <= 0 then 500_000_000 else cfg.tailProbeMinIdle)
  }

  /**
   The flow has nothing pending once the sweep is through, a settled rhythm, fewer unanswered probes than
   allowed (3 by default; one given up by this sweep counts), none in flight, and has been silent long enough.
   */
  ghost predicate Quiet(cfg: Config, f: FlowState, now: Time) {
    && Spent(cfg, f, now)
    && cfg.tailProbe && (f.probing == 0 || InFlight(f))
    && f.ewma > 0 && f.samples >= 16
    && f.probeMisses + (if InFlight(f) then 1 else 0) < (if cfg.tailProbeMaxMisses <= 0 then 3 else cfg.tailProbeMaxMisses)
    && now - f.lastSeen >= IdleTime(cfg, f)
  }

  // ----- the loop over the gaps -----

  /** The loop retires the probe in flight exactly when it gives it up. */
  lemma {:induction false} SweptProbe(cfg: Config, t: Track, order: seq<U64>, n: nat, now: Time, ch: Choices)
    requires n <= |order| && NoDup(order) && OneProbe(t.flow)
    ensures var f, r := t.flow, SweepGaps(cfg, t, order, n, now, ch).flow;
            var retired := f.probing in order[..n] && InFlight(f) && GivesUp(cfg, f.pending[f.probing], now);
            && r.probing == (if retired then 0 else f.probing)
            && r.probeMisses == f.probeMisses + (if retired then 1 else 0)
            && r.lastSeen == f.lastSeen
  {
    if n > 0 {
      var s := order[n - 1];
      assert order[..n] == order[..n - 1] + [s];
      assert s !in order[..n - 1];
      hide GivesUp, Stamped, NoDup;
      SweptProbe(cfg, t, order, n - 1, now, ch);
      Books.Unvisited(cfg, t, order, n - 1, now, ch, s);
    }
  }

  /** What the loop leaves of a flow it visits completely. */
  lemma AfterLoop(cfg: Config, t: Track, now: Time, ch: Choices)
    requires OneProbe(t.flow) && Walks(ch.order, t.flow.pending)
    ensures var f, r := t.flow, SweepGaps(cfg, ForgetAbandoned(t, now), ch.order, |ch.order|, now, ch);
            && (|r.flow.pending| == 0 <==> Spent(cfg, f, now))
            && r.flow.last == f.last && r.flow.ewma == f.ewma && r.flow.samples == f.samples
            && r.flow.lastSeen == f.lastSeen
            && (Spent(cfg, f, now) ==>
                  && r.flow.probing == (if InFlight(f) then 0 else f.probing)
                  && r.flow.probeMisses == f.probeMisses + (if InFlight(f) then 1 else 0))
            && r.books.probesSent == t.books.probesSent
  {
    hide SweepGaps, NoDup, OneProbe;
    var u := ForgetAbandoned(t, now);
    var r := SweepGaps(cfg, u, ch.order, |ch.order|, now, ch);
    assert ch.order[..|ch.order|] == ch.order;
    ForgetBudget(cfg, t, now);
    SweptProbe(cfg, u, ch.order, |ch.order|, now, ch);
    Rate.SweepGapsKeepLast(cfg, u, ch.order, |ch.order|, now, ch);
    Books.SweepBooks(cfg, u, ch.order, |ch.order|, now, ch);
    LoopEmpties(cfg, u, now, ch);
  }

  lemma LoopEmpties(cfg: Config, t: Track, now: Time, ch: Choices)
    requires Walks(ch.order, t.flow.pending)
    ensures |SweepGaps(cfg, t, ch.order, |ch.order|, now, ch).flow.pending| == 0 <==> Spent(cfg, t.flow, now)
  {
    hide SweepGaps, NoDup;
    var r := SweepGaps(cfg, t, ch.order, |ch.order|, now, ch).flow.pending;
    assert ch.order[..|ch.order|] == ch.order;
    forall s | s in t.flow.pending
      ensures s in r <==> !GivesUp(cfg, t.flow.pending[s], now)
    {
      SweptEntry(cfg, t, ch.order, |ch.order|, now, ch, s);
    }
    Retry.SweptGapsStay(cfg, t, ch.order, |ch.order|, now, ch);
    if |r| == 0 {
      assert r.Keys == {};
      assert forall s :: s in t.flow.pending ==> s !in r.Keys;
    } else {
      assert r.Keys != {};
      var s :| s in r.Keys;
      assert s in t.flow.pending && !GivesUp(cfg, t.flow.pending[s], now);
    }
  }

  // ----- the probe -----

  /** The number after the last one seen. */
  function NextNumber(f: FlowState): U64 {
    (f.last + 1) % 0x1_0000_0000_0000_0000
  }

  /** The sweep issued a probe for the next number: it is all that is pending, and all that was queued. */
  predicate Probed(cfg: Config, f: FlowState, now: Time, r: Cell, q: seq<Gap>) {
    var probe := Gap(NextNumber(f), 0, 0, now, now + cfg.gapTTL, 0, true);
    r.flow.Some? && r.flow.value.pending == map[NextNumber(f) := probe] && r.flow.value.probing == NextNumber(f) && q == [probe]
  }

  /** The sweep issued none: speculative entries and queued copies are of entries it found and did not give up. */
  ghost predicate NotProbed(cfg: Config, f: FlowState, now: Time, r: Cell, q: seq<Gap>) {
    && (forall s :: Has(r, s) ==> s in f.pending && r.flow.value.pending[s].speculative == f.pending[s].speculative &&
                                  r.flow.value.pending[s].deadline == f.pending[s].deadline)
    && (forall g :: g in q ==> g.seqNum in f.pending && now <= f.pending[g.seqNum].deadline &&
                               f.pending[g.seqNum].failRounds < cfg.maxRetries)
  }

  lemma LoopQueues(cfg: Config, t: Track, now: Time, ch: Choices)
    requires OneProbe(t.flow) && Walks(ch.order, t.flow.pending)
    ensures var q := QueuedBy(cfg, ForgetAbandoned(t, now), ch.order, |ch.order|, now, ch);
            && (forall g :: g in q ==> g.seqNum in t.flow.pending && now <= t.flow.pending[g.seqNum].deadline &&
                                       t.flow.pending[g.seqNum].failRounds < cfg.maxRetries)
            && (Spent(cfg, t.flow, now) ==> q == [])
  {
    hide QueuedBy, NoDup, OneProbe;
    ForgetBudget(cfg, t, now);
    Dispatch.QueueIsExact(cfg, ForgetAbandoned(t, now), ch.order, |ch.order|, now, ch);
    var q := QueuedBy(cfg, ForgetAbandoned(t, now), ch.order, |ch.order|, now, ch);
    if q != [] {
      assert q[0] in q;
    }
  }

  lemma LoopKeeps(cfg: Config, t: Track, now: Time, ch: Choices)
    requires Walks(ch.order, t.flow.pending)
    ensures var r := SweepGaps(cfg, ForgetAbandoned(t, now), ch.order, |ch.order|, now, ch).flow.pending;
            forall s :: s in r ==> s in t.flow.pending && r[s].speculative == t.flow.pending[s].speculative &&
                                   r[s].deadline == t.flow.pending[s].deadline
  {
    hide SweepGaps, NoDup, GivesUp;
    var u := ForgetAbandoned(t, now);
    var r := SweepGaps(cfg, u, ch.order, |ch.order|, now, ch).flow.pending;
    Retry.SweptGapsStay(cfg, u, ch.order, |ch.order|, now, ch);
    forall s | s in r
      ensures s in t.flow.pending && r[s].speculative == t.flow.pending[s].speculative
    {
      SweptEntry(cfg, u, ch.order, |ch.order|, now, ch, s);
    }
  }

  /** MaybeProbe on what the loop leaves of a spent flow. */
  lemma WantsExactlyWhen(cfg: Config, t: Track, now: Time, ch: Choices)
    requires OneProbe(t.flow) && Walks(ch.order, t.flow.pending) && Spent(cfg, t.flow, now)
    ensures var swept := SweepGaps(cfg, ForgetAbandoned(t, now), ch.order, |ch.order|, now, ch);
            && swept.flow.pending == map[] && ProbeSeq(swept.flow) == NextNumber(t.flow)
            && (WantsProbe(cfg, swept.flow, now) <==> Quiet(cfg, t.flow, now))
  {
    hide SweepGaps, NoDup, OneProbe, Spent;
    AfterLoop(cfg, t, now, ch);
    var swept := SweepGaps(cfg, ForgetAbandoned(t, now), ch.order, |ch.order|, now, ch);
    assert swept.flow.pending.Keys == {};
  }

  /** What one sweep makes of a flow and puts on the queue. */
  lemma SweepIs(cfg: Config, c: Cell, now: Time, ch: Choices)
    requires c.flow.Some?
    ensures var t := Track(c.flow.value, c.books);
            var swept := SweepGaps(cfg, ForgetAbandoned(t, now), ch.order, |ch.order|, now, ch);
            var q := QueuedBy(cfg, ForgetAbandoned(t, now), ch.order, |ch.order|, now, ch);
            var end := if |swept.flow.pending| == 0 then MaybeProbe(cfg, swept, now, ch) else swept;
            && Step(cfg, c, Sweep(now, ch)) == (if Idle(cfg, end.flow, now) then Cell(None, end.books) else Put(end))
            && SweepQueues(cfg, t, now, ch) ==
               q + (if |swept.flow.pending| == 0 then ProbeQueued(cfg, swept.flow, now, ch) else [])
  {
  }

  /**
   A sweep issues a tail probe exactly when the flow is quiet and the queue has room. The probe asks for the
   number after the last one seen, with the lifetime of an ordinary gap, and a copy of it is queued. The
   attempt is counted with or without room.
   */
  lemma ProbedExactlyWhen(cfg: Config, c: Cell, now: Time, ch: Choices)
    requires c.flow.Some? && OneProbe(c.flow.value) && Walks(ch.order, c.flow.value.pending)
    ensures var f, r := c.flow.value, Step(cfg, c, Sweep(now, ch));
            var q := SweepQueues(cfg, Track(f, c.books), now, ch);
            && (if Quiet(cfg, f, now) && ch.room(NextNumber(f))
                then Probed(cfg, f, now, r, q) && !NotProbed(cfg, f, now, r, q)
                else NotProbed(cfg, f, now, r, q))
            && r.books.probesSent == c.books.probesSent + (if Quiet(cfg, f, now) then 1 else 0)
  {
    hide SweepGaps, QueuedBy, NoDup, OneProbe, Quiet, Step, SweepQueues, WantsProbe, ProbeSeq, Walks, Spent;
    var f, t := c.flow.value, Track(c.flow.value, c.books);
    SweepIs(cfg, c, now, ch);
    AfterLoop(cfg, t, now, ch);
    LoopQueues(cfg, t, now, ch);
    LoopKeeps(cfg, t, now, ch);
    if Spent(cfg, f, now) {
      WantsExactlyWhen(cfg, t, now, ch);
      SpentIsNotProbed(cfg, f, now, Step(cfg, c, Sweep(now, ch)), SweepQueues(cfg, t, now, ch));
    } else {
      QuietIsSpent(cfg, f, now);
      assert NotProbed(cfg, f, now, Step(cfg, c, Sweep(now, ch)), SweepQueues(cfg, t, now, ch));
    }
  }

  lemma QuietIsSpent(cfg: Config, f: FlowState, now: Time)
    ensures Quiet(cfg, f, now) ==> Spent(cfg, f, now)
  {
  }

  lemma SpentIsNotProbed(cfg: Config, f: FlowState, now: Time, r: Cell, q: seq<Gap>)
    requires Spent(cfg, f, now)
    ensures NotProbed(cfg, f, now, r, q) ==> q == []
  {
    assert q != [] ==> q[0] in q;
  }

  /**
   A sweep forgets a flow exactly when it leaves nothing pending, no probe among it, and the flow has been
   silent for longer than its lifetime: TailTTL, or GapTTL where that is not set.
   */
  lemma ForgottenExactlyWhen(cfg: Config, c: Cell, now: Time, ch: Choices)
    requires c.flow.Some? && OneProbe(c.flow.value) && Walks(ch.order, c.flow.value.pending)
    ensures var f := c.flow.value;
            Step(cfg, c, Sweep(now, ch)).flow.None? <==>
            && Spent(cfg, f, now) && !(Quiet(cfg, f, now) && ch.room(NextNumber(f)))
            && now - f.lastSeen > (if cfg.tailTTL <= 0 then cfg.gapTTL else cfg.tailTTL)
  {
    hide SweepGaps, QueuedBy, NoDup, OneProbe, Quiet, Step, SweepQueues, WantsProbe, ProbeSeq, Walks, Spent;
    var t := Track(c.flow.value, c.books);
    SweepIs(cfg, c, now, ch);
    AfterLoop(cfg, t, now, ch);
    if Spent(cfg, c.flow.value, now) {
      WantsExactlyWhen(cfg, t, now, ch);
    } else {
      QuietIsSpent(cfg, c.flow.value, now);
    }
  }

  // ----- over runs -----

  /** When the flow was last heard: its latest stamped frame in the run, else at. */
  function Heard(at: Time, ops: seq<Op>): Time {
    if ops == [] then at
    else
      var op := ops[|ops| - 1];
      if op.Observe? && op.seqNum != 0 then op.now else Heard(at, ops[..|ops| - 1])
  }

  /** The flow keeps its place in the tracker throughout the run. */
  ghost predicate Stays(cfg: Config, c: Cell, ops: seq<Op>) {
    forall i :: 0 <= i <= |ops| ==> Run(cfg, c, ops[..i]).flow.Some?
  }

  lemma {:induction false} ListHeard(cfg: Config, t: Track, seqs: seq<U64>, n: nat, now: Time, ch: Choices)
    requires n <= |seqs|
    ensures RegisterList(cfg, t, seqs, n, now, ch).flow.lastSeen == t.flow.lastSeen
  {
    if n > 0 {
      ListHeard(cfg, t, seqs, n - 1, now, ch);
    }
  }

  lemma {:induction false} GapsHeard(cfg: Config, t: Track, order: seq<U64>, n: nat, now: Time, ch: Choices)
    requires n <= |order|
    ensures SweepGaps(cfg, t, order, n, now, ch).flow.lastSeen == t.flow.lastSeen
  {
    if n > 0 {
      GapsHeard(cfg, t, order, n - 1, now, ch);
    }
  }

  lemma FrameHeard(cfg: Config, t: Track, seqNum: U64, live: bool, now: Time, ch: Choices)
    requires seqNum != 0
    ensures ObserveFrame(cfg, t, seqNum, live, now, ch).flow.lastSeen == now
  {
    hide Advance, Touch, FillPending, Forward.Cleared;
    if t.flow.last == 0 {
      Forward.FirstSetsPosition(cfg, t, seqNum, live, now, ch);
    } else if seqNum <= t.flow.last {
      Forward.RestartExactlyWhen(cfg, t, seqNum, live, now, ch);
    } else if seqNum == t.flow.last + 1 {
      Forward.NextInSequence(cfg, t, seqNum, live, now, ch);
    } else {
      Forward.JumpHeard(cfg, t, seqNum, live, now, ch);
    }
  }

  /** A step hears the flow exactly when it brings a stamped frame of it, or starts it. */
  lemma StepHeard(cfg: Config, c: Cell, op: Op)
    requires Step(cfg, c, op).flow.Some?
    ensures Step(cfg, c, op).flow.value.lastSeen ==
            if (op.Observe? && op.seqNum != 0) || c.flow.None? then op.now else c.flow.value.lastSeen
  {
    hide ObserveFrame, RegisterList, SweepGaps, Retried;
    var f := if c.flow.Some? then c.flow.value else NewFlow(if op.FillFrame? then 0 else op.now);
    var t := Track(f, c.books);
    match op
    case Observe(seqNum, live, now, admit, ch) =>
      if seqNum != 0 {
        FrameHeard(cfg, t, seqNum, live, now, ch);
      }
    case Request(seqs, now, admit, ch) => ListHeard(cfg, t, seqs, |seqs|, now, ch);
    case FillFrame(_) =>
    case Sweep(now, ch) => GapsHeard(cfg, ForgetAbandoned(t, now), ch.order, |ch.order|, now, ch);
    case Answer(_, _, _, _) =>
  }

  lemma {:induction false} RunHeard(cfg: Config, c: Cell, ops: seq<Op>)
    requires c.flow.Some? && Stays(cfg, c, ops)
    ensures Run(cfg, c, ops).flow.Some? && Run(cfg, c, ops).flow.value.lastSeen == Heard(c.flow.value.lastSeen, ops)
  {
    hide Step;
    assert ops[..|ops|] == ops;
    if ops != [] {
      var front := ops[..|ops| - 1];
      assert forall i :: 0 <= i <= |front| ==> front[..i] == ops[..i];
      RunHeard(cfg, c, front);
      StepHeard(cfg, Run(cfg, c, front), ops[|ops| - 1]);
    }
  }

  /**
   Over any run, a flow heard less than its idle time ago is not probed, and one heard within its lifetime is
   not forgotten, whatever came in between.
   */
  lemma BusyIsLeftAlone(cfg: Config, c: Cell, ops: seq<Op>, now: Time, ch: Choices)
    requires CellOneProbe(c) && c.flow.Some? && Stays(cfg, c, ops)
    requires Run(cfg, c, ops).flow.Some? ==> Walks(ch.order, Run(cfg, c, ops).flow.value.pending)
    ensures Run(cfg, c, ops).flow.Some?
    ensures var mid, silence := Run(cfg, c, ops), now - Heard(c.flow.value.lastSeen, ops);
            var f, r := mid.flow.value, Step(cfg, mid, Sweep(now, ch));
            && (silence < IdleTime(cfg, f) ==>
                  NotProbed(cfg, f, now, r, SweepQueues(cfg, Track(f, mid.books), now, ch)))
            && (silence <= (if cfg.tailTTL <= 0 then cfg.gapTTL else cfg.tailTTL) ==> r.flow.Some?)
  {
    hide Run, Stays, Heard, Step, SweepQueues, NotProbed, Probed, Walks, OneProbe, Spent;
    RunHeard(cfg, c, ops);
    RunOneProbe(cfg, c, ops);
    ProbedExactlyWhen(cfg, Run(cfg, c, ops), now, ch);
    ForgottenExactlyWhen(cfg, Run(cfg, c, ops), now, ch);
  }

  /** A probe that comes back with a frame gives the flow its whole probe budget back and leaves none in flight. */
  lemma AnsweredProbeRestores(cfg: Config, c: Cell, op: Op, s: U64)
    requires Books.Fills(c, op, s) && c.flow.value.pending[s].speculative && OneProbe(c.flow.value)
    ensures var r := Step(cfg, c, op).flow;
            r.Some? && r.value.probeMisses == 0 && r.value.probing == 0
  {
    hide ObserveFrame;
    if op.Observe? {
      FrameClearsProbe(cfg, Track(c.flow.value, c.books), op.seqNum, op.live, op.now, op.ch);
    }
  }

  lemma FrameClearsProbe(cfg: Config, t: Track, seqNum: U64, live: bool, now: Time, ch: Choices)
    requires seqNum != 0
    ensures var r := ObserveFrame(cfg, t, seqNum, live, now, ch).flow;
            && r.probeMisses == 0
            && (seqNum in t.flow.pending && t.flow.pending[seqNum].seqNum == t.flow.probing ==> r.probing == 0)
  {
    hide Advance, Forward.Cleared;
    var v := Forward.Cleared(t, seqNum, now);
    Forward.ClearedIs(t, seqNum, now);
    AdvanceKeepsProbe(cfg, v, seqNum, live, now - t.flow.lastSeen, now, ch);
    if seqNum > t.flow.last || seqNum !in t.flow.pending {
      Forward.GoesOn(cfg, t, seqNum, live, now, ch);
    } else {
      Forward.FillsBehind(cfg, t, seqNum, live, now, ch);
    }
  }

  lemma AdvanceKeepsProbe(cfg: Config, t: Track, seqNum: U64, live: bool, elapsed: Time, now: Time, ch: Choices)
    ensures var r := Advance(cfg, t, seqNum, live, elapsed, now, ch).flow;
            r.probing == t.flow.probing && r.probeMisses == t.flow.probeMisses
  {
    hide RegisterRange, FlushList, Implausible, TailLength, Real, Smooth;
    if seqNum <= t.flow.last {
      Forward.FlushKeeps(t, ch.order, |ch.order|, ch);
    } else {
      Seq.RangeKeys(cfg, t, t.flow.last + 1, seqNum, now, ch);
      var cleared := Track(t.flow.(pending := map[]), t.books.(dropped := t.books.dropped + |Real(t.flow.pending)|));
      Seq.RangeKeys(cfg, cleared, seqNum - TailLength(cfg, t.flow, seqNum, elapsed), seqNum, now, ch);
    }
  }
}
