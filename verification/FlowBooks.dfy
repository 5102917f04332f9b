/**
 What each step books. A gap is booked detected when it is registered, or when a probe comes back with a
 frame; it is booked unrecovered when a real entry is given up. A question is never a loss.
 */
module FlowBooks {
  import opened Base
  import opened Flow
  import opened FlowLedger
  import opened FlowEntries
  import Seq = FlowSequence
  import Rate = FlowRate

  // ----- detected -----

  /** The numbers in [lo, hi) that are not pending. */
  function Absent(pending: map<U64, Gap>, lo: int, hi: int): set<U64> {
    set n: U64 | lo <= n < hi && n !in pending
  }

  /** The numbers a frame registers on a flow. */
  function FrameRegisters(cfg: Config, f: FlowState, seqNum: U64, now: Time): set<U64> {
    if f.last == 0 || seqNum <= f.last + 1 then {}
    else if Rebaselines(cfg, f, seqNum, now) then
      Absent(map[], seqNum - TailLength(cfg, f, seqNum, now - f.lastSeen), seqNum)
    else Absent(f.pending, f.last + 1, seqNum)
  }

  /** The numbers of a request that are not pending yet. */
  function ListRegisters(f: FlowState, seqs: seq<U64>): set<U64> {
    set s | s in seqs && s !in f.pending
  }

  /** The numbers a step registers as real gaps. */
  function Registers(cfg: Config, c: Cell, op: Op): set<U64> {
    match op
    case Observe(seqNum, _, now, _, _) => if c.flow.Some? then FrameRegisters(cfg, c.flow.value, seqNum, now) else {}
    case Request(seqs, now, admit, _) =>
      if c.flow.Some? then ListRegisters(c.flow.value, seqs) else if admit then ListRegisters(NewFlow(now), seqs) else {}
    case _ => {}
  }

  ghost predicate AllNew(cfg: Config, pending: map<U64, Gap>, part: set<U64>, now: Time, ch: Choices) {
    forall n :: n in part ==> n in pending && pending[n] == NewGap(cfg, n, now, ch.jitter(n))
  }

  lemma AbsentStep(pending: map<U64, Gap>, lo: U64, hi: U64)
    requires lo < hi
    ensures Absent(pending, lo, hi) == Absent(pending, lo, hi - 1) + (if hi - 1 in pending then {} else {hi - 1})
    ensures hi - 1 !in Absent(pending, lo, hi - 1)
  {
  }

  lemma {:induction false} RangeBooks(cfg: Config, t: Track, lo: U64, hi: U64, now: Time, ch: Choices)
    ensures var r := RegisterRange(cfg, t, lo, hi, now, ch);
            var part := Absent(t.flow.pending, lo, hi);
            r.books == t.books.(detected := t.books.detected + |part|) && AllNew(cfg, r.flow.pending, part, now, ch)
    decreases hi - lo
  {
    var part := Absent(t.flow.pending, lo, hi);
    if lo >= hi {
      assert part == {};
    } else {
      hide Absent, NewGap;
      RangeBooks(cfg, t, lo, hi - 1, now, ch);
      Seq.RangeKeys(cfg, t, lo, hi - 1, now, ch);
      AbsentStep(t.flow.pending, lo, hi);
    }
  }

  lemma ListStep(f: FlowState, part: seq<U64>, s: U64)
    ensures ListRegisters(f, part + [s]) == ListRegisters(f, part) + (if s in f.pending then {} else {s})
    ensures s in ListRegisters(f, part) <==> s in part && s !in f.pending
  {
  }

  lemma {:induction false} ListKeys(cfg: Config, t: Track, seqs: seq<U64>, n: nat, now: Time, ch: Choices, s: U64)
    requires n <= |seqs|
    ensures var r := RegisterList(cfg, t, seqs, n, now, ch).flow.pending;
            && (s in r <==> s in t.flow.pending || s in seqs[..n])
            && (s in r && s !in t.flow.pending ==> r[s] == NewGap(cfg, s, now, ch.jitter(s)))
  {
    if n > 0 {
      ListKeys(cfg, t, seqs, n - 1, now, ch, s);
      assert seqs[..n] == seqs[..n - 1] + [seqs[n - 1]];
    }
  }

  lemma {:induction false} ListBooks(cfg: Config, t: Track, seqs: seq<U64>, n: nat, now: Time, ch: Choices)
    requires n <= |seqs|
    ensures RegisterList(cfg, t, seqs, n, now, ch).books ==
            t.books.(detected := t.books.detected + |ListRegisters(t.flow, seqs[..n])|)
  {
    if n > 0 {
      hide ListRegisters, NewGap;
      ListBooks(cfg, t, seqs, n - 1, now, ch);
      assert seqs[..n] == seqs[..n - 1] + [seqs[n - 1]];
      ListStep(t.flow, seqs[..n - 1], seqs[n - 1]);
      ListKeys(cfg, t, seqs, n - 1, now, ch, seqs[n - 1]);
    } else {
      assert ListRegisters(t.flow, seqs[..0]) == {};
    }
  }

  function Among(part: seq<U64>, all: set<U64>): set<U64> {
    set s | s in part && s in all
  }

  lemma AmongStep(part: seq<U64>, s: U64, all: set<U64>)
    ensures Among(part + [s], all) == Among(part, all) + (if s in all then {s} else {})
    ensures s in Among(part, all) <==> s in part && s in all
  {
  }

  lemma {:induction false} FlushBooks(t: Track, order: seq<U64>, n: nat, ch: Choices)
    requires n <= |order| && NoDup(order)
    ensures var r := FlushList(t, order, n, ch);
            r.books == t.books.(unrecovered := t.books.unrecovered + |Among(order[..n], Real(t.flow.pending))|)
  {
    if n == 0 {
      assert Among(order[..0], Real(t.flow.pending)) == {};
    } else {
      var s := order[n - 1];
      assert order[..n] == order[..n - 1] + [s];
      assert s !in order[..n - 1];
      FlushBooks(t, order, n - 1, ch);
      AmongStep(order[..n - 1], s, Real(t.flow.pending));
    }
  }

  lemma {:induction false} FlushOnly(t: Track, order: seq<U64>, n: nat, ch: Choices)
    requires n <= |order|
    ensures var b := FlushList(t, order, n, ch).books;
            b == t.books.(unrecovered := b.unrecovered)
  {
    if n > 0 {
      FlushOnly(t, order, n - 1, ch);
    }
  }

  /** How much of the books a fill moves. */
  lemma FillBooks(t: Track, s: U64)
    requires s in t.flow.pending
    ensures var b := FillPending(t, s).books;
            var probe := if t.flow.pending[s].speculative then 1 else 0;
            b == t.books.(detected := t.books.detected + probe, suppressed := t.books.suppressed + 1,
                          probesRecovered := t.books.probesRecovered + probe)
  {
  }

  /** The frame is taken for a restart of the proxy. */
  predicate Restarts(cfg: Config, f: FlowState, seqNum: U64, live: bool) {
    f.last != 0 && seqNum <= f.last && seqNum !in f.pending && TripsRestart(cfg, f, seqNum, live)
  }

  lemma AdvanceBooks(cfg: Config, t: Track, seqNum: U64, live: bool, elapsed: Time, now: Time, ch: Choices)
    ensures var b := Advance(cfg, t, seqNum, live, elapsed, now, ch).books;
            var at := t.flow.(lastSeen := now - elapsed);
            var restarts := t.flow.last != 0 && seqNum <= t.flow.last && TripsRestart(cfg, t.flow, seqNum, live);
            && b.detected == t.books.detected + |FrameRegisters(cfg, at, seqNum, now)|
            && (Walks(ch.order, t.flow.pending) ==>
                  b.unrecovered == t.books.unrecovered + (if restarts then |Real(t.flow.pending)| else 0))
            && b.probesRecovered == t.books.probesRecovered && b.suppressed == t.books.suppressed
  {
    hide RegisterRange, FlushList, Implausible, TailLength, Contiguous, Real, NoDup;
    var at := t.flow.(lastSeen := now - elapsed);
    if t.flow.last != 0 && seqNum > t.flow.last + 1 {
      AdvanceRegisters(cfg, t, seqNum, elapsed, now, ch);
    } else if t.flow.last != 0 && seqNum <= t.flow.last {
      FlushOnly(t, ch.order, |ch.order|, ch);
      if Walks(ch.order, t.flow.pending) {
        FlushBooks(t, ch.order, |ch.order|, ch);
        RealWalked(t.flow.pending, ch.order);
      }
    } else {
      ContiguousBooks(t, seqNum, elapsed);
    }
  }

  lemma ContiguousBooks(t: Track, seqNum: U64, elapsed: Time)
    ensures Contiguous(t, seqNum, elapsed).books == t.books
  {
  }

  lemma RealWalked(pending: map<U64, Gap>, order: seq<U64>)
    requires Walks(order, pending)
    ensures Among(order[..|order|], Real(pending)) == Real(pending)
  {
    assert order[..|order|] == order;
  }

  lemma AdvanceRegisters(cfg: Config, t: Track, seqNum: U64, elapsed: Time, now: Time, ch: Choices)
    requires t.flow.last != 0 && seqNum > t.flow.last + 1
    ensures var r := if Implausible(cfg, t.flow, seqNum, elapsed) then Rebaseline(cfg, t, seqNum, elapsed, now, ch)
                     else OpenGap(cfg, t, seqNum, now, ch);
            var part := FrameRegisters(cfg, t.flow.(lastSeen := now - elapsed), seqNum, now);
            && r.books.detected == t.books.detected + |part| && r.books.unrecovered == t.books.unrecovered
            && r.books.probesRecovered == t.books.probesRecovered && r.books.suppressed == t.books.suppressed
            && AllNew(cfg, r.flow.pending, part, now, ch)
  {
    hide RegisterRange, Implausible, TailLength, Real, AllNew;
    var at := t.flow.(lastSeen := now - elapsed);
    SameJudgement(cfg, t.flow, at, seqNum, elapsed);
    if Implausible(cfg, t.flow, seqNum, elapsed) {
      var tail := TailLength(cfg, t.flow, seqNum, elapsed);
      var cleared := Track(t.flow.(pending := map[]), t.books.(dropped := t.books.dropped + |Real(t.flow.pending)|));
      RangeBooks(cfg, cleared, seqNum - tail, seqNum, now, ch);
    } else {
      RangeBooks(cfg, t, t.flow.last + 1, seqNum, now, ch);
    }
  }

  lemma SameJudgement(cfg: Config, a: FlowState, b: FlowState, seqNum: U64, elapsed: Time)
    requires a.last == b.last && a.ewma == b.ewma && a.contiguous == b.contiguous && seqNum > a.last
    ensures Implausible(cfg, a, seqNum, elapsed) == Implausible(cfg, b, seqNum, elapsed)
    ensures TailLength(cfg, a, seqNum, elapsed) == TailLength(cfg, b, seqNum, elapsed)
  {
  }

  lemma ObserveBooks(cfg: Config, t: Track, seqNum: U64, live: bool, now: Time, ch: Choices)
    requires seqNum != 0
    ensures var b := ObserveFrame(cfg, t, seqNum, live, now, ch).books;
            var probe := if seqNum in t.flow.pending && t.flow.pending[seqNum].speculative then 1 else 0;
            && b.detected == t.books.detected + |FrameRegisters(cfg, t.flow, seqNum, now)| + probe
            && b.probesRecovered == t.books.probesRecovered + probe
            && b.suppressed == t.books.suppressed + (if seqNum in t.flow.pending then 1 else 0)
            && (Walks(ch.order, t.flow.pending) ==>
                  b.unrecovered == t.books.unrecovered +
                                   (if Restarts(cfg, t.flow, seqNum, live) then |Real(t.flow.pending)| else 0))
  {
    hide Advance, Real, Walks, FrameRegisters, FillPending;
    var elapsed := now - t.flow.lastSeen;
    var seen := Touch(t, seqNum, now);
    Seq.TouchKeeps(t, seqNum, now);
    TouchBooks(t, seqNum, now);
    if seqNum in t.flow.pending {
      FillBooks(seen, seqNum);
      var v := FillPending(seen, seqNum);
      FilledFlow(seen, seqNum);
      if seqNum <= t.flow.last {
        NoneRegistered(cfg, t.flow, seqNum, now);
      } else {
        AdvanceForward(cfg, v, seqNum, live, elapsed, now, ch);
        SameRegisters(cfg, t.flow, v.flow.(lastSeen := now - elapsed), seqNum, now);
      }
    } else {
      AdvanceBooks(cfg, seen, seqNum, live, elapsed, now, ch);
      SameRegisters(cfg, t.flow, seen.flow.(lastSeen := now - elapsed), seqNum, now);
    }
  }

  lemma TouchBooks(t: Track, seqNum: U64, now: Time)
    ensures var b := Touch(t, seqNum, now).books;
            b == t.books.(lateFilled := b.lateFilled)
  {
  }

  lemma FilledFlow(t: Track, s: U64)
    requires s in t.flow.pending
    ensures var f := FillPending(t, s).flow;
            && f.last == t.flow.last && f.ewma == t.flow.ewma && f.contiguous == t.flow.contiguous
            && f.pending == t.flow.pending - {s}
  {
  }

  lemma NoneRegistered(cfg: Config, f: FlowState, seqNum: U64, now: Time)
    requires seqNum <= f.last + 1
    ensures FrameRegisters(cfg, f, seqNum, now) == {}
  {
  }

  /** What a frame registers does not depend on whether it fills its own entry first. */
  lemma SameRegisters(cfg: Config, a: FlowState, b: FlowState, seqNum: U64, now: Time)
    requires a.last == b.last && a.ewma == b.ewma && a.contiguous == b.contiguous && a.lastSeen == b.lastSeen
    requires forall n :: n != seqNum ==> (n in a.pending <==> n in b.pending)
    ensures FrameRegisters(cfg, a, seqNum, now) == FrameRegisters(cfg, b, seqNum, now)
  {
    hide Implausible, TailLength;
    if a.last != 0 && seqNum > a.last + 1 {
      SameJudgement(cfg, a, b, seqNum, now - a.lastSeen);
      assert Absent(a.pending, a.last + 1, seqNum) == Absent(b.pending, a.last + 1, seqNum);
    }
  }

  /** A frame ahead of the position flushes nothing. */
  lemma AdvanceForward(cfg: Config, t: Track, seqNum: U64, live: bool, elapsed: Time, now: Time, ch: Choices)
    requires seqNum > t.flow.last
    ensures var b := Advance(cfg, t, seqNum, live, elapsed, now, ch).books;
            && b.detected == t.books.detected +
                             |FrameRegisters(cfg, t.flow.(lastSeen := now - elapsed), seqNum, now)|
            && b.unrecovered == t.books.unrecovered
            && b.probesRecovered == t.books.probesRecovered && b.suppressed == t.books.suppressed
  {
    hide RegisterRange, Implausible, TailLength, Contiguous, Real, AllNew, OpenGap, Rebaseline;
    var at := t.flow.(lastSeen := now - elapsed);
    if t.flow.last != 0 && seqNum > t.flow.last + 1 {
      AdvanceRegisters(cfg, t, seqNum, elapsed, now, ch);
    } else {
      ContiguousBooks(t, seqNum, elapsed);
    }
  }

  // ----- unrecovered -----

  /** The real entries a sweep gives up. */
  ghost function SweepAbandons(cfg: Config, f: FlowState, now: Time): set<U64> {
    set s | s in Real(f.pending) && GivesUp(cfg, f.pending[s], now)
  }

  lemma {:induction false} SweepBooks(cfg: Config, t: Track, order: seq<U64>, n: nat, now: Time, ch: Choices)
    requires n <= |order| && NoDup(order)
    ensures var b := SweepGaps(cfg, t, order, n, now, ch).books;
            b == t.books.(unrecovered := t.books.unrecovered + |Among(order[..n], SweepAbandons(cfg, t.flow, now))|)
  {
    var all := SweepAbandons(cfg, t.flow, now);
    if n == 0 {
      assert Among(order[..0], all) == {};
    } else {
      var s := order[n - 1];
      assert order[..n] == order[..n - 1] + [s];
      assert s !in order[..n - 1];
      SweepBooks(cfg, t, order, n - 1, now, ch);
      AmongStep(order[..n - 1], s, all);
      Unvisited(cfg, t, order, n - 1, now, ch, s);
      OneAbandoned(cfg, t.flow, now, s);
      hide SweepAbandons, Among, GivesUp, Stamped, NoDup;
    }
  }

  lemma OneAbandoned(cfg: Config, f: FlowState, now: Time, s: U64)
    ensures s in SweepAbandons(cfg, f, now) <==>
            s in f.pending && !f.pending[s].speculative && GivesUp(cfg, f.pending[s], now)
  {
  }

  lemma {:induction false} Unvisited(cfg: Config, t: Track, order: seq<U64>, n: nat, now: Time, ch: Choices, s: U64)
    requires n <= |order| && s !in order[..n]
    ensures var r := SweepGaps(cfg, t, order, n, now, ch).flow.pending;
            (s in r <==> s in t.flow.pending) && (s in r ==> r[s] == t.flow.pending[s])
  {
    hide GivesUp, Stamped;
    if n > 0 {
      assert order[..n] == order[..n - 1] + [order[n - 1]];
      Unvisited(cfg, t, order, n - 1, now, ch, s);
    }
  }

  lemma SweepFlowBooks(cfg: Config, t: Track, now: Time, ch: Choices)
    requires Walks(ch.order, t.flow.pending)
    ensures var b := SweepFlow(cfg, t, now, ch).books;
            b == t.books.(unrecovered := t.books.unrecovered + |SweepAbandons(cfg, t.flow, now)|,
                          probesSent := b.probesSent)
  {
    var u := ForgetAbandoned(t, now);
    SweepBooks(cfg, u, ch.order, |ch.order|, now, ch);
    assert ch.order[..|ch.order|] == ch.order;
    assert Among(ch.order, SweepAbandons(cfg, t.flow, now)) == SweepAbandons(cfg, t.flow, now);
    hide SweepGaps, SweepAbandons, Among, WantsProbe;
  }

  /** The real entries a step gives up. */
  ghost function Abandons(cfg: Config, c: Cell, op: Op): set<U64> {
    if c.flow.None? then {}
    else
      match op
      case Observe(seqNum, live, _, _, _) =>
        if seqNum != 0 && Restarts(cfg, c.flow.value, seqNum, live) then Real(c.flow.value.pending) else {}
      case Sweep(now, _) => SweepAbandons(cfg, c.flow.value, now)
      case _ => {}
  }

  /** Sweeps and flushes visit each entry once. */
  ghost predicate Complete(c: Cell, op: Op) {
    c.flow.Some? && (op.Sweep? || op.Observe?) ==> Walks(op.ch.order, c.flow.value.pending)
  }

  /** The pending entry the step fills, if any. */
  predicate Fills(c: Cell, op: Op, s: U64) {
    Has(c, s) &&
    match op
    case Observe(seqNum, _, _, _, _) => seqNum == s && s != 0
    case FillFrame(seqNum) => seqNum == s && s != 0
    case Answer(copy, resp, _, _) => resp.Recovered? && copy.seqNum == s
    case _ => false
  }

  /**
   In every step, gaps are booked detected for exactly the numbers newly registered and the probes that
   came back with a frame, and unrecovered for exactly the real entries given up and the real copies
   refused. Issuing a probe, or losing one to its queue, a MISS, a refusal, its deadline, its retries, a
   restart or a re-baseline, books neither.
   */
  lemma StepBooks(cfg: Config, c: Cell, op: Op)
    requires Complete(c, op)
    ensures var b := Step(cfg, c, op).books;
            && b.detected == c.books.detected + |Registers(cfg, c, op)| + (b.probesRecovered - c.books.probesRecovered)
            && b.unrecovered == c.books.unrecovered + |Abandons(cfg, c, op)| +
                                (if c.flow.Some? && op.Answer? && op.resp.Refused? && !op.copy.speculative then 1 else 0)
            && (c.flow.Some? ==> Abandons(cfg, c, op) <= Real(c.flow.value.pending))
  {
    hide ObserveFrame, RegisterList, SweepFlow, Real, Walks, FrameRegisters, ListRegisters, Retried;
    match op
    case Observe(seqNum, live, now, admit, ch) =>
      if seqNum != 0 && c.flow.Some? {
        ObserveBooks(cfg, Track(c.flow.value, c.books), seqNum, live, now, ch);
      } else if seqNum != 0 && admit {
        FirstFrameBooks(cfg, c.books, seqNum, live, now, ch);
      } else if c.flow.Some? {
        NoneRegistered(cfg, c.flow.value, seqNum, now);
      }
    case Request(seqs, now, admit, ch) =>
      assert seqs[..|seqs|] == seqs;
      if c.flow.Some? {
        EmptyRequest(c.flow.value, seqs);
        ListBooks(cfg, Track(c.flow.value, c.books), seqs, |seqs|, now, ch);
      } else {
        EmptyRequest(NewFlow(now), seqs);
        ListBooks(cfg, Track(NewFlow(now), c.books), seqs, |seqs|, now, ch);
      }
    case FillFrame(_) =>
    case Sweep(now, ch) =>
      if c.flow.Some? {
        SweepFlowBooks(cfg, Track(c.flow.value, c.books), now, ch);
      }
    case Answer(_, _, _, _) =>
  }

  lemma EmptyRequest(f: FlowState, seqs: seq<U64>)
    ensures seqs == [] ==> ListRegisters(f, seqs) == {}
  {
  }

  lemma FirstFrameBooks(cfg: Config, books: Books, seqNum: U64, live: bool, now: Time, ch: Choices)
    ensures ObserveFrame(cfg, Track(NewFlow(now), books), seqNum, live, now, ch).books == books
  {
  }

  /** A filled probe is one gap detected, suppressed and counted as a probe recovered, on every path. */
  lemma ProbeFilled(cfg: Config, c: Cell, op: Op, s: U64)
    requires Fills(c, op, s) && Complete(c, op)
    ensures var b := Step(cfg, c, op).books;
            && b.suppressed == c.books.suppressed + 1
            && b.probesRecovered == c.books.probesRecovered + (if c.flow.value.pending[s].speculative then 1 else 0)
  {
    hide ObserveFrame, Real, Walks, FrameRegisters;
    if op.Observe? {
      ObserveBooks(cfg, Track(c.flow.value, c.books), op.seqNum, op.live, op.now, op.ch);
    }
  }

  lemma FrameRegisteredPending(cfg: Config, t: Track, seqNum: U64, live: bool, now: Time, ch: Choices)
    requires seqNum != 0
    ensures AllNew(cfg, ObserveFrame(cfg, t, seqNum, live, now, ch).flow.pending,
                   FrameRegisters(cfg, t.flow, seqNum, now), now, ch)
  {
    hide Real, FrameRegisters, FillPending, Implausible, OpenGap, Rebaseline, AllNew;
    var seen := Touch(t, seqNum, now);
    Seq.TouchKeeps(t, seqNum, now);
    NothingNew(cfg, ObserveFrame(cfg, t, seqNum, live, now, ch).flow.pending, now, ch);
    if t.flow.last == 0 || seqNum <= t.flow.last + 1 {
      FewRegistered(cfg, t.flow, seqNum, now);
    } else {
      var v := if seqNum in seen.flow.pending then FillPending(seen, seqNum) else seen;
      if seqNum in seen.flow.pending {
        FilledFlow(seen, seqNum);
      }
      AdvanceRegisters(cfg, v, seqNum, now - t.flow.lastSeen, now, ch);
      SameRegisters(cfg, t.flow, v.flow.(lastSeen := t.flow.lastSeen), seqNum, now);
    }
  }

  lemma NothingNew(cfg: Config, pending: map<U64, Gap>, now: Time, ch: Choices)
    ensures AllNew(cfg, pending, {}, now, ch)
  {
  }

  lemma FewRegistered(cfg: Config, f: FlowState, seqNum: U64, now: Time)
    requires f.last == 0 || seqNum <= f.last + 1
    ensures FrameRegisters(cfg, f, seqNum, now) == {}
  {
  }

  /**
   What a step registers is pending afterwards as a real gap: nothing tried yet, to be asked for at the first
   endpoint once its jitter has passed, and for one GapTTL.
   */
  lemma RegisteredArePending(cfg: Config, c: Cell, op: Op, n: U64)
    requires n in Registers(cfg, c, op)
    ensures var r := Step(cfg, c, op);
            Has(r, n) && r.flow.value.pending[n] == Gap(n, 0, 0, op.now + op.ch.jitter(n), op.now + cfg.gapTTL, 0, false)
  {
    hide ObserveFrame, RegisterList, FrameRegisters;
    if op.Observe? {
      if op.seqNum == 0 {
        NoneRegistered(cfg, c.flow.value, op.seqNum, op.now);
        assert false;
      }
      FrameRegisteredPending(cfg, Track(c.flow.value, c.books), op.seqNum, op.live, op.now, op.ch);
    } else {
      var f := if c.flow.Some? then c.flow.value else NewFlow(op.now);
      ListKeys(cfg, Track(f, c.books), op.seqs, |op.seqs|, op.now, op.ch, n);
      assert op.seqs[..|op.seqs|] == op.seqs;
    }
  }

  // ----- how much one frame can register -----

  lemma {:induction false} AbsentBound(pending: map<U64, Gap>, lo: int, hi: int)
    requires lo <= hi
    ensures |Absent(pending, lo, hi)| <= hi - lo
    decreases hi - lo
  {
    Rate.RangeBound(Absent(pending, lo, hi), lo, hi);
  }

  /**
   Whatever it is, one observed frame books at most MaxForwardJump gaps detected, plus one if it fills a
   probe, and registers nothing but numbers strictly between the old position and itself.
   */
  lemma DetectedIsBounded(cfg: Config, t: Track, seqNum: U64, live: bool, now: Time, ch: Choices)
    ensures var b := ObserveFrame(cfg, t, seqNum, live, now, ch).books;
            b.detected <= t.books.detected + MaxJump(cfg) + (b.probesRecovered - t.books.probesRecovered)
    ensures forall n :: n in FrameRegisters(cfg, t.flow, seqNum, now) ==> t.flow.last < n < seqNum
  {
    hide ObserveFrame, Walks, Absent, MaxJump;
    if seqNum != 0 {
      ObserveBooks(cfg, t, seqNum, live, now, ch);
    } else {
      SilentZero(cfg, t, live, now, ch);
    }
    FrameRegistersFew(cfg, t.flow, seqNum, now);
  }

  lemma SilentZero(cfg: Config, t: Track, live: bool, now: Time, ch: Choices)
    ensures ObserveFrame(cfg, t, 0, live, now, ch) == t
  {
  }

  lemma FrameRegistersFew(cfg: Config, f: FlowState, seqNum: U64, now: Time)
    ensures |FrameRegisters(cfg, f, seqNum, now)| <= MaxJump(cfg)
    ensures forall n :: n in FrameRegisters(cfg, f, seqNum, now) ==> f.last < n < seqNum
  {
    if f.last != 0 && seqNum > f.last + 1 {
      hide Expected, MaxJump;
      AbsentBound(map[], seqNum - TailLength(cfg, f, seqNum, now - f.lastSeen), seqNum);
      AbsentBound(f.pending, f.last + 1, seqNum);
    }
  }
}
