/**
 The life of one pending entry. Whatever else happens to a flow, the entry of a number is changed only
 by a sweep that stamps it and by answers to its own copies, until it is removed or a re-baseline or a
 tail probe registers the number anew. Retries therefore end in every run.
 */
module FlowEntries {
  import opened Base
  import opened Flow
  import opened FlowLedger
  import opened FlowRetry
  import Seq = FlowSequence
  import Rate = FlowRate
  import Probes = FlowProbes

  // ----- one step -----

  /** The frame makes the flow start over from another emitter. */
  predicate Rebaselines(cfg: Config, f: FlowState, seqNum: U64, now: Time) {
    f.last != 0 && seqNum > f.last + 1 && Implausible(cfg, f, seqNum, now - f.lastSeen)
  }

  /** The step drops what is pending under s, if anything, and registers the number again. */
  predicate Reregisters(cfg: Config, c: Cell, op: Op, s: U64) {
    c.flow.Some? &&
    var f := c.flow.value;
    match op
    case Observe(seqNum, _, now, _, _) =>
      Rebaselines(cfg, f, seqNum, now) && seqNum - TailLength(cfg, f, seqNum, now - f.lastSeen) <= s < seqNum
    case Sweep(_, _) => Probes.Asks(cfg, c, op) && s == ProbeSeq(f)
    case _ => false
  }

  /** What the step makes of the entry of s, if it leaves it in place. */
  function NextEntry(cfg: Config, e: Gap, op: Op, s: U64): Gap {
    match op
    case Sweep(now, ch) => Stamped(cfg, e, now, ch.room(s))
    case Answer(copy, resp, now, share) => if copy.seqNum == s then Retried(cfg, e, resp, now, share) else e
    case _ => e
  }

  /** A sweep visits each entry once. */
  ghost predicate Visits(c: Cell, op: Op) {
    op.Sweep? && c.flow.Some? ==> Walks(op.ch.order, c.flow.value.pending)
  }

  predicate Has(c: Cell, s: U64) {
    c.flow.Some? && s in c.flow.value.pending
  }

  lemma OneSwept(cfg: Config, t: Track, at: U64, now: Time, ch: Choices, s: U64)
    ensures var r := SweepGap(cfg, t, at, now, ch).flow.pending;
            && (s in r <==> s in t.flow.pending && (s != at || !GivesUp(cfg, t.flow.pending[s], now)))
            && (s in r ==>
                  r[s] == if s == at then Stamped(cfg, t.flow.pending[s], now, ch.room(s)) else t.flow.pending[s])
  {
    hide GivesUp, Stamped;
  }

  lemma {:induction false} SweptEntry(cfg: Config, t: Track, order: seq<U64>, n: nat, now: Time, ch: Choices, s: U64)
    requires n <= |order| && NoDup(order) && s in t.flow.pending
    ensures var r := SweepGaps(cfg, t, order, n, now, ch).flow.pending;
            var e := t.flow.pending[s];
            && (s in r <==> s !in order[..n] || !GivesUp(cfg, e, now))
            && (s in r ==> r[s] == if s in order[..n] then Stamped(cfg, e, now, ch.room(s)) else e)
  {
    if n > 0 {
      assert order[..n] == order[..n - 1] + [order[n - 1]];
      assert order[n - 1] !in order[..n - 1];
      hide GivesUp, Stamped, NoDup, SweepGap;
      SweptEntry(cfg, t, order, n - 1, now, ch, s);
      OneSwept(cfg, SweepGaps(cfg, t, order, n - 1, now, ch), order[n - 1], now, ch, s);
    }
  }

  /** A complete sweep drops the entry exactly when it gives it up. */
  lemma SweepEntry(cfg: Config, c: Cell, now: Time, ch: Choices, s: U64)
    requires Has(c, s) && Walks(ch.order, c.flow.value.pending)
    ensures var r := Step(cfg, c, Sweep(now, ch));
            var e := c.flow.value.pending[s];
            if GivesUp(cfg, e, now) then
              Has(r, s) ==>
                Probes.Asks(cfg, c, Sweep(now, ch)) && s == ProbeSeq(c.flow.value) &&
                r.flow.value.pending[s] == ProbeGap(cfg, s, now)
            else
              Has(r, s) && r.flow.value.pending[s] == Stamped(cfg, e, now, ch.room(s)) &&
              !Probes.Asks(cfg, c, Sweep(now, ch))
  {
    hide SweepGaps, GivesUp, Stamped, WantsProbe, NoDup;
    var t := Track(c.flow.value, c.books);
    var swept := SweepGaps(cfg, ForgetAbandoned(t, now), ch.order, |ch.order|, now, ch);
    assert ch.order[..|ch.order|] == ch.order;
    SweptEntry(cfg, ForgetAbandoned(t, now), ch.order, |ch.order|, now, ch, s);
    Rate.SweepGapsKeepLast(cfg, ForgetAbandoned(t, now), ch.order, |ch.order|, now, ch);
    assert |swept.flow.pending| == 0 ==> swept.flow.pending.Keys == {};
    assert s in swept.flow.pending ==> s in swept.flow.pending.Keys;
  }

  lemma ObserveEntry(cfg: Config, t: Track, seqNum: U64, live: bool, now: Time, ch: Choices, s: U64)
    requires s in t.flow.pending && seqNum != 0
    requires !(Rebaselines(cfg, t.flow, seqNum, now) &&
               seqNum - TailLength(cfg, t.flow, seqNum, now - t.flow.lastSeen) <= s < seqNum)
    ensures var r := ObserveFrame(cfg, t, seqNum, live, now, ch).flow.pending;
            s in r ==> r[s] == t.flow.pending[s]
  {
    hide RegisterRange, FlushList, Rebaseline, Implausible, TailLength;
    var elapsed := now - t.flow.lastSeen;
    var seen := Touch(t, seqNum, now);
    Seq.TouchKeeps(t, seqNum, now);
    var v := if seqNum in seen.flow.pending then FillPending(seen, seqNum) else seen;
    assert s in v.flow.pending ==> v.flow.pending[s] == t.flow.pending[s];
    if v.flow.last != 0 && seqNum > v.flow.last {
      Seq.SameVerdict(cfg, t.flow, v.flow, seqNum, live, elapsed);
      SameTail(cfg, t.flow, v.flow, seqNum, elapsed);
      Rate.RebaselineLeavesTail(cfg, v, seqNum, elapsed, now, ch);
      Seq.RangeKeys(cfg, v, v.flow.last + 1, seqNum, now, ch);
    }
  }

  lemma SameTail(cfg: Config, a: FlowState, b: FlowState, seqNum: U64, elapsed: Time)
    requires a.last == b.last && a.ewma == b.ewma && a.contiguous == b.contiguous && seqNum > a.last
    ensures TailLength(cfg, a, seqNum, elapsed) == TailLength(cfg, b, seqNum, elapsed)
  {
  }

  lemma {:induction false} ListEntry(cfg: Config, t: Track, seqs: seq<U64>, n: nat, now: Time, ch: Choices, s: U64)
    requires n <= |seqs| && s in t.flow.pending
    ensures var r := RegisterList(cfg, t, seqs, n, now, ch).flow.pending;
            s in r && r[s] == t.flow.pending[s]
  {
    if n > 0 {
      ListEntry(cfg, t, seqs, n - 1, now, ch, s);
    }
  }

  /** No step but a sweep or an answer to s changes an entry it leaves in place, and those only so. */
  lemma StepEntry(cfg: Config, c: Cell, op: Op, s: U64)
    requires Has(c, s) && Visits(c, op) && !Reregisters(cfg, c, op, s)
    ensures var r := Step(cfg, c, op);
            Has(r, s) ==> r.flow.value.pending[s] == NextEntry(cfg, c.flow.value.pending[s], op, s)
  {
    hide ObserveFrame, SweepFlow, RegisterList, Retried, Stamped, Probes.Asks, Walks, GivesUp, TailLength, Rebaselines;
    var t := Track(c.flow.value, c.books);
    match op
    case Observe(seqNum, live, now, admit, ch) =>
      if seqNum != 0 {
        ObserveEntry(cfg, t, seqNum, live, now, ch, s);
      }
    case Request(seqs, now, admit, ch) => ListEntry(cfg, t, seqs, |seqs|, now, ch, s);
    case FillFrame(_) =>
    case Sweep(now, ch) => SweepEntry(cfg, c, now, ch, s);
    case Answer(_, _, _, _) =>
  }

  /** A number at or behind the position is never registered anew while it is pending, and stays behind. */
  lemma BehindIsKept(cfg: Config, c: Cell, op: Op, s: U64)
    requires Has(c, s) && 1 <= s <= c.flow.value.last
    ensures !Reregisters(cfg, c, op, s)
    ensures Has(Step(cfg, c, op), s) ==> s <= Step(cfg, c, op).flow.value.last
  {
    hide Step, Implausible, Probes.Asks, TailLength;
    if Has(Step(cfg, c, op), s) && Step(cfg, c, op).flow.value.last < c.flow.value.last {
      Rate.MovesBackOnlyOnRestart(cfg, c, op);
      RestartDropsAll(cfg, c, op);
    }
  }

  lemma RestartDropsAll(cfg: Config, c: Cell, op: Op)
    requires c.flow.Some? && op.Observe? && Step(cfg, c, op).flow.Some?
    requires Step(cfg, c, op).flow.value.last < c.flow.value.last
    ensures Step(cfg, c, op).flow.value.pending == map[]
  {
    hide RegisterRange, FlushList, Rebaseline, Implausible;
    var t := Track(c.flow.value, c.books);
    var seen := Touch(t, op.seqNum, op.now);
    Seq.TouchKeeps(t, op.seqNum, op.now);
    var v := if op.seqNum in seen.flow.pending then FillPending(seen, op.seqNum) else seen;
    if v.flow.last != 0 && op.seqNum > v.flow.last {
      Rate.RebaselineLeavesTail(cfg, v, op.seqNum, op.now - t.flow.lastSeen, op.now, op.ch);
    }
  }

  // ----- a run -----

  /** The entry of s stays in place throughout the run, and sweeps visit each entry once. */
  ghost predicate Persists(cfg: Config, c: Cell, ops: seq<Op>, s: U64) {
    && (forall i :: 0 <= i <= |ops| ==> Has(Run(cfg, c, ops[..i]), s))
    && (forall i :: 0 <= i < |ops| ==>
                      Visits(Run(cfg, c, ops[..i]), ops[i]) && !Reregisters(cfg, Run(cfg, c, ops[..i]), ops[i], s))
  }

  /** For a number at or behind the position, staying pending is all it takes. */
  lemma {:induction false} BehindPersists(cfg: Config, c: Cell, ops: seq<Op>, s: U64)
    requires Has(c, s) && 1 <= s <= c.flow.value.last
    requires forall i :: 0 <= i <= |ops| ==> Has(Run(cfg, c, ops[..i]), s)
    requires forall i :: 0 <= i < |ops| ==> Visits(Run(cfg, c, ops[..i]), ops[i])
    ensures Persists(cfg, c, ops, s) && Has(Run(cfg, c, ops), s) && s <= Run(cfg, c, ops).flow.value.last
  {
    hide Visits, Reregisters, Step;
    assert ops[..|ops|] == ops;
    if ops != [] {
      var front, op := ops[..|ops| - 1], ops[|ops| - 1];
      assert forall i :: 0 <= i <= |front| ==> front[..i] == ops[..i];
      assert forall i :: 0 <= i < |front| ==> front[i] == ops[i];
      BehindPersists(cfg, c, front, s);
      BehindIsKept(cfg, Run(cfg, c, front), op, s);
    }
  }

  function EntryAfter(cfg: Config, e: Gap, ops: seq<Op>, s: U64): Gap {
    if ops == [] then e else NextEntry(cfg, EntryAfter(cfg, e, ops[..|ops| - 1], s), ops[|ops| - 1], s)
  }

  lemma PersistsFront(cfg: Config, c: Cell, ops: seq<Op>, s: U64)
    requires Persists(cfg, c, ops, s) && ops != []
    ensures var front, op := ops[..|ops| - 1], ops[|ops| - 1];
            var mid := Run(cfg, c, front);
            && Persists(cfg, c, front, s) && Has(mid, s) && Visits(mid, op) && !Reregisters(cfg, mid, op, s)
            && Has(Run(cfg, c, ops), s)
  {
    hide Has, Visits, Reregisters, Run;
    var front := ops[..|ops| - 1];
    assert forall i :: 0 <= i <= |front| ==> front[..i] == ops[..i];
    assert forall i :: 0 <= i < |front| ==> front[i] == ops[i];
    assert ops[..|ops|] == ops;
  }

  /** Over any run that keeps it, the entry is what its own sweeps and answers make of it. */
  lemma {:induction false} RunEntry(cfg: Config, c: Cell, ops: seq<Op>, s: U64)
    requires Persists(cfg, c, ops, s)
    ensures Has(c, s) && Has(Run(cfg, c, ops), s)
    ensures Run(cfg, c, ops).flow.value.pending[s] == EntryAfter(cfg, c.flow.value.pending[s], ops, s)
  {
    hide Step, Visits, Reregisters, NextEntry;
    if ops == [] {
      assert ops[..0] == [];
      assert Has(Run(cfg, c, ops[..0]), s);
    } else {
      PersistsFront(cfg, c, ops, s);
      RunEntry(cfg, c, ops[..|ops| - 1], s);
      StepEntry(cfg, Run(cfg, c, ops[..|ops| - 1]), ops[|ops| - 1], s);
    }
  }

  // ----- retries end -----

  /** The outcomes of the copies of s that come in during the run. */
  function AnswersTo(ops: seq<Op>, s: U64): seq<Try> {
    if ops == [] then []
    else
      var op := ops[|ops| - 1];
      AnswersTo(ops[..|ops| - 1], s) +
      (if op.Answer? && op.copy.seqNum == s then [Try(op.resp, op.now, op.share)] else [])
  }

  /** All of an entry but the time of its next attempt. */
  function Core(e: Gap): Gap {
    e.(nextAttempt := 0)
  }

  lemma RetriedCore(cfg: Config, a: Gap, b: Gap, resp: Response, now: Time, share: nat)
    requires Core(a) == Core(b)
    ensures Core(Retried(cfg, a, resp, now, share)) == Core(Retried(cfg, b, resp, now, share))
  {
    hide CappedShift, Jittered;
  }

  /** Apart from its stamp, an entry is its first state and the answers it has drawn. */
  lemma {:induction false} EntryIsItsAnswers(cfg: Config, e: Gap, ops: seq<Op>, s: U64)
    ensures Core(EntryAfter(cfg, e, ops, s)) == Core(Retry(cfg, e, AnswersTo(ops, s)))
  {
    hide Retried;
    if ops != [] {
      var front, op := ops[..|ops| - 1], ops[|ops| - 1];
      EntryIsItsAnswers(cfg, e, front, s);
      if op.Answer? && op.copy.seqNum == s {
        var tries := AnswersTo(ops, s);
        assert tries[..|tries| - 1] == AnswersTo(front, s);
        RetriedCore(cfg, EntryAfter(cfg, e, front, s), Retry(cfg, e, AnswersTo(front, s)), op.resp, op.now, op.share);
      } else {
        assert AnswersTo(ops, s) == AnswersTo(front, s);
      }
    }
  }

  lemma {:induction false} AnswersKeepDeadline(cfg: Config, e: Gap, tries: seq<Try>)
    ensures var r := Retry(cfg, e, tries);
            r.deadline == e.deadline && r.seqNum == e.seqNum && r.speculative == e.speculative
  {
    hide CappedShift, Jittered;
    if tries != [] {
      AnswersKeepDeadline(cfg, e, tries[..|tries| - 1]);
    }
  }

  /** The sweep ends the entry: if s is pending afterwards, it is a tail probe issued by that sweep. */
  ghost predicate Ends(cfg: Config, c: Cell, now: Time, ch: Choices, s: U64) {
    var r := Step(cfg, c, Sweep(now, ch));
    Has(r, s) ==> r.flow.value.pending[s] == ProbeGap(cfg, s, now)
  }

  /**
   A gap's deadline is fixed when it is registered. However long it is throttled, swept and answered,
   and whatever frames, fills and requests come in between, the first sweep past it ends the entry.
   */
  lemma ThrottlingEndsAtDeadline(cfg: Config, c: Cell, ops: seq<Op>, s: U64, now: Time, ch: Choices)
    requires Persists(cfg, c, ops, s) && Has(c, s) && now > c.flow.value.pending[s].deadline
    requires Visits(Run(cfg, c, ops), Sweep(now, ch))
    ensures Ends(cfg, Run(cfg, c, ops), now, ch, s)
  {
    hide Run, Persists, EntryAfter, Probes.Asks, Stamped, Step;
    RunEntry(cfg, c, ops, s);
    EntryIsItsAnswers(cfg, c.flow.value.pending[s], ops, s);
    AnswersKeepDeadline(cfg, c.flow.value.pending[s], AnswersTo(ops, s));
    SweepEntry(cfg, Run(cfg, c, ops), now, ch, s);
  }

  /**
   With at most n endpoints known, n - 1 + MaxRetries unsuccessful outcomes for a gap exhaust it, with
   any THROTTLED holds and anything else that happens to the flow in between: the next sweep ends it.
   */
  lemma RetriesEnd(cfg: Config, c: Cell, ops: seq<Op>, s: U64, n: nat, now: Time, ch: Choices)
    requires Persists(cfg, c, ops, s) && n >= 1
    requires FailsOrHolds(AnswersTo(ops, s), n) && Failures(AnswersTo(ops, s), n) >= n - 1 + cfg.maxRetries
    requires Visits(Run(cfg, c, ops), Sweep(now, ch))
    ensures Ends(cfg, Run(cfg, c, ops), now, ch, s)
  {
    hide Run, Persists, EntryAfter, Probes.Asks, Stamped, Step, FailsOrHolds, Failures;
    RunEntry(cfg, c, ops, s);
    EntryIsItsAnswers(cfg, c.flow.value.pending[s], ops, s);
    BudgetIsSpent(cfg, c.flow.value.pending[s], AnswersTo(ops, s), n);
    SweepEntry(cfg, Run(cfg, c, ops), now, ch, s);
  }
}
