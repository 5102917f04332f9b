/**
 Tail probes. A flow asks at most one speculative question at a time, and a silent flow is asked only a
 bounded number of times. What probes book is in module FlowBooks.
 */
module FlowProbes {
  import opened Base
  import opened Flow

  /** A speculative entry is the probe in flight, and every entry is stored under its own number. */
  ghost predicate OneProbe(f: FlowState) {
    forall s :: s in f.pending ==> f.pending[s].seqNum == s && (f.pending[s].speculative ==> f.probing == s)
  }

  /** At most one pending entry is speculative. */
  lemma AtMostOneProbe(f: FlowState, a: U64, b: U64)
    requires OneProbe(f)
    requires a in f.pending && f.pending[a].speculative && b in f.pending && f.pending[b].speculative
    ensures a == b == f.probing
  {
  }

  // ----- every step keeps it -----

  lemma FillOne(t: Track, s: U64)
    requires OneProbe(t.flow) && s in t.flow.pending
    ensures OneProbe(FillPending(t, s).flow)
  {
  }

  lemma {:induction false} RangeOne(cfg: Config, t: Track, lo: U64, hi: U64, now: Time, ch: Choices)
    requires OneProbe(t.flow)
    ensures OneProbe(RegisterRange(cfg, t, lo, hi, now, ch).flow)
    decreases hi - lo
  {
    if lo < hi {
      RangeOne(cfg, t, lo, hi - 1, now, ch);
    }
  }

  lemma {:induction false} ListOne(cfg: Config, t: Track, seqs: seq<U64>, n: nat, now: Time, ch: Choices)
    requires OneProbe(t.flow) && n <= |seqs|
    ensures OneProbe(RegisterList(cfg, t, seqs, n, now, ch).flow)
  {
    if n > 0 {
      ListOne(cfg, t, seqs, n - 1, now, ch);
    }
  }

  lemma AdvanceOne(cfg: Config, t: Track, seqNum: U64, live: bool, elapsed: Time, now: Time, ch: Choices)
    requires OneProbe(t.flow)
    ensures OneProbe(Advance(cfg, t, seqNum, live, elapsed, now, ch).flow)
  {
    hide FlushList, RegisterRange, Implausible, TailLength;
    if t.flow.last != 0 && seqNum > t.flow.last {
      var cleared := Track(t.flow.(pending := map[]),
                           t.books.(dropped := t.books.dropped + |Real(t.flow.pending)|));
      RangeOne(cfg, cleared, seqNum - TailLength(cfg, t.flow, seqNum, elapsed), seqNum, now, ch);
      RangeOne(cfg, t, t.flow.last + 1, seqNum, now, ch);
    }
  }

  lemma ObserveOne(cfg: Config, t: Track, seqNum: U64, live: bool, now: Time, ch: Choices)
    requires OneProbe(t.flow)
    ensures OneProbe(ObserveFrame(cfg, t, seqNum, live, now, ch).flow)
  {
    hide Advance, FillPending;
    var u := Touch(t, seqNum, now);
    if seqNum in u.flow.pending {
      FillOne(u, seqNum);
      AdvanceOne(cfg, FillPending(u, seqNum), seqNum, live, now - t.flow.lastSeen, now, ch);
    } else {
      AdvanceOne(cfg, u, seqNum, live, now - t.flow.lastSeen, now, ch);
    }
  }

  lemma {:induction false} SweepGapsOne(cfg: Config, t: Track, order: seq<U64>, n: nat, now: Time, ch: Choices)
    requires OneProbe(t.flow) && n <= |order|
    ensures OneProbe(SweepGaps(cfg, t, order, n, now, ch).flow)
  {
    if n > 0 {
      SweepGapsOne(cfg, t, order, n - 1, now, ch);
    }
  }

  lemma SweepOne(cfg: Config, t: Track, now: Time, ch: Choices)
    requires OneProbe(t.flow)
    ensures OneProbe(SweepFlow(cfg, t, now, ch).flow)
  {
    hide SweepGaps;
    SweepGapsOne(cfg, ForgetAbandoned(t, now), ch.order, |ch.order|, now, ch);
    var swept := SweepGaps(cfg, ForgetAbandoned(t, now), ch.order, |ch.order|, now, ch);
    assert |swept.flow.pending| == 0 ==> swept.flow.pending.Keys == {};
  }

  lemma RespondOne(cfg: Config, t: Track, copy: Gap, resp: Response, now: Time, share: nat)
    requires OneProbe(t.flow)
    ensures OneProbe(Respond(cfg, t, copy, resp, now, share).flow)
  {
    hide CappedShift, Jittered;
  }

  ghost predicate CellOneProbe(c: Cell) {
    c.flow.Some? ==> OneProbe(c.flow.value)
  }

  lemma StepOneProbe(cfg: Config, c: Cell, op: Op)
    requires CellOneProbe(c)
    ensures CellOneProbe(Step(cfg, c, op))
  {
    hide ObserveFrame, RegisterList, SweepFlow, Respond;
    var t := Track(if c.flow.Some? then c.flow.value else NewFlow(0), c.books);
    match op
    case Observe(seqNum, live, now, admit, ch) =>
      ObserveOne(cfg, t, seqNum, live, now, ch);
      ObserveOne(cfg, Track(NewFlow(now), c.books), seqNum, live, now, ch);
    case Request(seqs, now, admit, ch) =>
      ListOne(cfg, t, seqs, |seqs|, now, ch);
      ListOne(cfg, Track(NewFlow(now), c.books), seqs, |seqs|, now, ch);
    case FillFrame(seqNum) =>
      if seqNum in t.flow.pending {
        FillOne(t, seqNum);
      }
    case Sweep(now, ch) => SweepOne(cfg, t, now, ch);
    case Answer(copy, resp, now, share) => RespondOne(cfg, t, copy, resp, now, share);
  }

  /** In every reachable state the speculative entry, if any, is unique and is the one in flight. */
  lemma {:induction false} RunOneProbe(cfg: Config, c: Cell, ops: seq<Op>)
    requires CellOneProbe(c)
    ensures CellOneProbe(Run(cfg, c, ops))
  {
    hide Step;
    if ops != [] {
      RunOneProbe(cfg, c, ops[..|ops| - 1]);
      StepOneProbe(cfg, Run(cfg, c, ops[..|ops| - 1]), ops[|ops| - 1]);
    }
  }

  // ----- how often a silent flow is asked -----

  /** A probe is in flight, or one was when its entry went away unanswered. */
  ghost predicate Outstanding(f: FlowState) {
    f.probing != 0 || exists s :: s in f.pending && f.pending[s].speculative
  }

  /** How many more probes the flow can be asked without hearing anything. */
  ghost function Budget(cfg: Config, c: Cell): nat {
    if c.flow.None? || c.flow.value.ewma <= 0 || c.flow.value.samples < MIN_SETTLED then 0
    else Max(0, MaxMisses(cfg) - c.flow.value.probeMisses - (if Outstanding(c.flow.value) then 1 else 0))
  }

  /** No frame is seen in the step, and it neither fills nor rejects the probe in flight. */
  predicate Silent(c: Cell, op: Op) {
    match op
    case Observe(_, _, _, _, _) => false
    case FillFrame(s) => c.flow.Some? && s in c.flow.value.pending ==> s != c.flow.value.probing
    case Answer(copy, Recovered, _, _) =>
      c.flow.Some? && copy.seqNum in c.flow.value.pending ==> copy.seqNum != c.flow.value.probing
    case Answer(copy, Refused, _, _) => c.flow.Some? ==> copy.seqNum != c.flow.value.probing
    case _ => true
  }

  /** The flow after the sweep has gone through its pending gaps. */
  function AfterGaps(cfg: Config, c: Cell, now: Time, ch: Choices): Track
    requires c.flow.Some?
  {
    SweepGaps(cfg, ForgetAbandoned(Track(c.flow.value, c.books), now), ch.order, |ch.order|, now, ch)
  }

  /** The step puts a probe on the dispatch queue. */
  predicate Asks(cfg: Config, c: Cell, op: Op) {
    op.Sweep? && c.flow.Some? &&
    var t := AfterGaps(cfg, c, op.now, op.ch);
    |t.flow.pending| == 0 && WantsProbe(cfg, t.flow, op.now) && op.ch.room(ProbeSeq(t.flow))
  }

  /** The budget of a flow seen as a track. */
  ghost function TrackBudget(cfg: Config, f: FlowState): nat {
    Budget(cfg, Cell(Some(f), NewBooks()))
  }

  lemma SweepGapBudget(cfg: Config, t: Track, s: U64, now: Time, ch: Choices)
    requires OneProbe(t.flow)
    ensures TrackBudget(cfg, SweepGap(cfg, t, s, now, ch).flow) <= TrackBudget(cfg, t.flow)
    ensures OneProbe(SweepGap(cfg, t, s, now, ch).flow)
  {
    var r := SweepGap(cfg, t, s, now, ch).flow;
    if s in t.flow.pending && !(GivesUp(cfg, t.flow.pending[s], now) && t.flow.pending[s].speculative) {
      OutstandingStays(t.flow, r, s);
    }
  }

  /** The speculative entry is still there when only another entry went, or none. */
  lemma OutstandingStays(a: FlowState, b: FlowState, s: U64)
    requires a.probing == b.probing
    requires forall x :: x in a.pending && a.pending[x].speculative ==>
                           x in b.pending && b.pending[x].speculative
    ensures Outstanding(a) ==> Outstanding(b)
  {
  }

  lemma {:induction false} SweepGapsBudget(cfg: Config, t: Track, order: seq<U64>, n: nat, now: Time, ch: Choices)
    requires OneProbe(t.flow) && n <= |order|
    ensures var r := SweepGaps(cfg, t, order, n, now, ch).flow;
            OneProbe(r) && TrackBudget(cfg, r) <= TrackBudget(cfg, t.flow)
  {
    hide SweepGap, TrackBudget, OneProbe;
    if n > 0 {
      SweepGapsBudget(cfg, t, order, n - 1, now, ch);
      SweepGapBudget(cfg, SweepGaps(cfg, t, order, n - 1, now, ch), order[n - 1], now, ch);
    }
  }

  lemma ProbeBudget(cfg: Config, t: Track, now: Time, ch: Choices)
    requires |t.flow.pending| == 0
    ensures var asks := WantsProbe(cfg, t.flow, now) && ch.room(ProbeSeq(t.flow));
            TrackBudget(cfg, MaybeProbe(cfg, t, now, ch).flow) + (if asks then 1 else 0) <= TrackBudget(cfg, t.flow)
  {
    assert t.flow.pending.Keys == {};
    var r := MaybeProbe(cfg, t, now, ch).flow;
    if WantsProbe(cfg, t.flow, now) {
      assert !Outstanding(t.flow);
      if ch.room(ProbeSeq(t.flow)) {
        assert ProbeSeq(t.flow) in r.pending && r.pending[ProbeSeq(t.flow)].speculative;
      }
    }
  }

  lemma SweepBudget(cfg: Config, c: Cell, now: Time, ch: Choices)
    requires c.flow.Some? && OneProbe(c.flow.value)
    ensures Budget(cfg, Step(cfg, c, Sweep(now, ch))) + (if Asks(cfg, c, Sweep(now, ch)) then 1 else 0)
            <= Budget(cfg, c)
  {
    hide SweepGaps, MaybeProbe, WantsProbe, OneProbe, Outstanding;
    var t := ForgetAbandoned(Track(c.flow.value, c.books), now);
    ForgetBudget(cfg, Track(c.flow.value, c.books), now);
    SweepGapsBudget(cfg, t, ch.order, |ch.order|, now, ch);
    var swept := SweepGaps(cfg, t, ch.order, |ch.order|, now, ch);
    if |swept.flow.pending| == 0 {
      ProbeBudget(cfg, swept, now, ch);
    }
  }

  lemma ForgetBudget(cfg: Config, t: Track, now: Time)
    ensures TrackBudget(cfg, ForgetAbandoned(t, now).flow) == TrackBudget(cfg, t.flow)
    ensures OneProbe(t.flow) ==> OneProbe(ForgetAbandoned(t, now).flow)
  {
    OutstandingStays(t.flow, ForgetAbandoned(t, now).flow, 0);
    OutstandingStays(ForgetAbandoned(t, now).flow, t.flow, 0);
  }

  lemma RespondBudget(cfg: Config, t: Track, copy: Gap, resp: Response, now: Time, share: nat)
    requires OneProbe(t.flow)
    requires resp.Recovered? && copy.seqNum in t.flow.pending ==> copy.seqNum != t.flow.probing
    requires resp.Refused? ==> copy.seqNum != t.flow.probing
    ensures TrackBudget(cfg, Respond(cfg, t, copy, resp, now, share).flow) <= TrackBudget(cfg, t.flow)
  {
    hide CappedShift, Jittered;
    var r := Respond(cfg, t, copy, resp, now, share).flow;
    if resp.Miss? && copy.speculative {
      if copy.seqNum != t.flow.probing {
        OutstandingStays(t.flow, r, copy.seqNum);
      }
    } else {
      OutstandingStays(t.flow, r, copy.seqNum);
    }
  }

  lemma {:induction false} ListBudget(cfg: Config, t: Track, seqs: seq<U64>, n: nat, now: Time, ch: Choices)
    requires n <= |seqs|
    ensures TrackBudget(cfg, RegisterList(cfg, t, seqs, n, now, ch).flow) <= TrackBudget(cfg, t.flow)
  {
    if n > 0 {
      ListBudget(cfg, t, seqs, n - 1, now, ch);
      var a := RegisterList(cfg, t, seqs, n - 1, now, ch);
      OutstandingStays(a.flow, Register(cfg, a, seqs[n - 1], now, ch).flow, 0);
    }
  }

  lemma FillBudget(cfg: Config, t: Track, s: U64)
    requires OneProbe(t.flow) && (s in t.flow.pending ==> s != t.flow.probing)
    ensures TrackBudget(cfg, Fill(t, s).flow) <= TrackBudget(cfg, t.flow)
  {
    OutstandingStays(t.flow, Fill(t, s).flow, s);
  }

  /** A silent step spends one of the budget when it asks, and never adds to it. */
  lemma StepBudget(cfg: Config, c: Cell, op: Op)
    requires CellOneProbe(c) && Silent(c, op)
    ensures Budget(cfg, Step(cfg, c, op)) + (if Asks(cfg, c, op) then 1 else 0) <= Budget(cfg, c)
  {
    hide RegisterList, SweepFlow, Respond, Fill, OneProbe, Outstanding, AfterGaps;
    match op
    case Request(seqs, now, admit, ch) =>
      if c.flow.Some? {
        ListBudget(cfg, Track(c.flow.value, c.books), seqs, |seqs|, now, ch);
      } else {
        ListBudget(cfg, Track(NewFlow(now), c.books), seqs, |seqs|, now, ch);
      }
    case FillFrame(s) =>
      if c.flow.Some? {
        FillBudget(cfg, Track(c.flow.value, c.books), s);
      }
    case Sweep(now, ch) =>
      if c.flow.Some? {
        SweepBudget(cfg, c, now, ch);
      }
    case Answer(copy, resp, now, share) =>
      if c.flow.Some? {
        RespondBudget(cfg, Track(c.flow.value, c.books), copy, resp, now, share);
      }
  }

  /** How many probes a run puts on the dispatch queue. */
  ghost function ProbesAsked(cfg: Config, c: Cell, ops: seq<Op>): nat {
    if ops == [] then 0
    else
      var front := ops[..|ops| - 1];
      ProbesAsked(cfg, c, front) + (if Asks(cfg, Run(cfg, c, front), ops[|ops| - 1]) then 1 else 0)
  }

  ghost predicate AllSilent(cfg: Config, c: Cell, ops: seq<Op>) {
    forall i :: 0 <= i < |ops| ==> Silent(Run(cfg, c, ops[..i]), ops[i])
  }

  lemma {:induction false} SilenceSpends(cfg: Config, c: Cell, ops: seq<Op>)
    requires CellOneProbe(c) && AllSilent(cfg, c, ops)
    ensures ProbesAsked(cfg, c, ops) + Budget(cfg, Run(cfg, c, ops)) <= Budget(cfg, c)
  {
    hide Step, Budget, Silent, Asks, CellOneProbe;
    if ops != [] {
      var front := ops[..|ops| - 1];
      assert forall i :: 0 <= i < |front| ==> front[..i] == ops[..i] && front[i] == ops[i];
      SilenceSpends(cfg, c, front);
      RunOneProbe(cfg, c, front);
      StepBudget(cfg, Run(cfg, c, front), ops[|ops| - 1]);
    }
  }

  /**
   In any stretch in which no frame of the flow is seen and no probe is filled or rejected, at most
   TailProbeMaxMisses probes are asked, however long the stretch and whatever else happens.
   */
  lemma SilenceIsNotPolled(cfg: Config, c: Cell, ops: seq<Op>)
    requires CellOneProbe(c) && AllSilent(cfg, c, ops)
    ensures ProbesAsked(cfg, c, ops) <= MaxMisses(cfg)
  {
    hide Run, AllSilent, ProbesAsked, CellOneProbe, Outstanding;
    SilenceSpends(cfg, c, ops);
  }
}
