/**
 One request in flight. A sweep stamps a gap's next attempt before it queues a copy, so that later sweeps
 leave the gap alone until the answer is overdue. It is stated exactly when a sweep queues a gap, over
 any run in which the gap's entry stays in place and draws no answer.
 */
module FlowDispatch {
  import opened Base
  import opened Flow
  import opened FlowEntries
  import opened FlowLedger
  import opened FlowRetry
  import Books = FlowBooks
  import Probes = FlowProbes
  import Rate = FlowRate

  /** The sweep queues a copy of the gap of s. */
  predicate Dispatches(cfg: Config, c: Cell, op: Op, s: U64) {
    op.Sweep? && Has(c, s) && s in op.ch.order && Queues(cfg, c.flow.value.pending[s], op.now, op.ch.room(s))
  }

  // ----- the queue -----

  ghost predicate QueueIs(cfg: Config, pending: map<U64, Gap>, part: seq<U64>, now: Time, ch: Choices, q: seq<Gap>) {
    && NoDup(q)
    && (forall g :: g in q ==>
                      g.seqNum in part && g.seqNum in pending && Queues(cfg, pending[g.seqNum], now, ch.room(g.seqNum)) &&
                      g == Stamped(cfg, pending[g.seqNum], now, true))
    && (forall s :: s in part && s in pending && Queues(cfg, pending[s], now, ch.room(s)) ==>
                      Stamped(cfg, pending[s], now, true) in q)
  }

  /** A sweep queues exactly the entries that are due, not given up and find room, each once and as stamped. */
  lemma {:induction false} QueueIsExact(cfg: Config, t: Track, order: seq<U64>, n: nat, now: Time, ch: Choices)
    requires n <= |order| && NoDup(order) && Probes.OneProbe(t.flow)
    ensures QueueIs(cfg, t.flow.pending, order[..n], now, ch, QueuedBy(cfg, t, order, n, now, ch))
  {
    hide GivesUp, SweepGaps, Probes.OneProbe;
    if n > 0 {
      var s := order[n - 1];
      assert order[..n] == order[..n - 1] + [s];
      assert s !in order[..n - 1];
      hide NoDup, QueueIs, Stamped, Queues;
      QueueIsExact(cfg, t, order, n - 1, now, ch);
      Books.Unvisited(cfg, t, order, n - 1, now, ch, s);
      KeyedByNumber(t.flow, s);
      QueueGrows(cfg, t.flow.pending, order[..n - 1], s, now, ch, QueuedBy(cfg, t, order, n - 1, now, ch));
    }
  }

  lemma KeyedByNumber(f: FlowState, s: U64)
    requires Probes.OneProbe(f)
    ensures s in f.pending ==> f.pending[s].seqNum == s
  {
  }

  /** One more entry is walked. */
  lemma QueueGrows(cfg: Config, pending: map<U64, Gap>, part: seq<U64>, s: U64, now: Time, ch: Choices, q: seq<Gap>)
    requires QueueIs(cfg, pending, part, now, ch, q) && s !in part && (s in pending ==> pending[s].seqNum == s)
    ensures QueueIs(cfg, pending, part + [s], now, ch,
                    q + (if s in pending && Queues(cfg, pending[s], now, ch.room(s)) then [Stamped(cfg, pending[s], now, true)]
                         else []))
  {
    hide GivesUp;
  }

  // ----- when a gap is queued -----

  /** No answer to a copy of s comes in. */
  predicate Unanswered(ops: seq<Op>, s: U64) {
    forall i :: 0 <= i < |ops| ==> !(ops[i].Answer? && ops[i].copy.seqNum == s)
  }

  /** When the gap of s is next due: every sweep past that time moves it. */
  function DueAfter(cfg: Config, at: Time, ops: seq<Op>, s: U64): Time {
    if ops == [] then at
    else
      var op, due := ops[|ops| - 1], DueAfter(cfg, at, ops[..|ops| - 1], s);
      if op.Sweep? && op.now > due then
        if op.ch.room(s) then op.now + cfg.respTimeout + SWEEP_SLACK else op.now
      else due
  }

  lemma {:induction false} UnansweredEntry(cfg: Config, e: Gap, ops: seq<Op>, s: U64)
    requires Unanswered(ops, s)
    ensures EntryAfter(cfg, e, ops, s) == e.(nextAttempt := DueAfter(cfg, e.nextAttempt, ops, s))
  {
    hide Retried;
    if ops != [] {
      UnansweredEntry(cfg, e, ops[..|ops| - 1], s);
    }
  }

  /**
   Over any run that keeps the gap's entry and brings no answer to it, a sweep queues a copy exactly
   when the gap is due by the sweeps before it, the queue has room, and the gap is not to be given up.
   */
  lemma QueuedExactlyWhen(cfg: Config, c: Cell, ops: seq<Op>, s: U64, now: Time, ch: Choices)
    requires Persists(cfg, c, ops, s) && Has(c, s) && Unanswered(ops, s)
    requires Visits(Run(cfg, c, ops), Sweep(now, ch))
    ensures Dispatches(cfg, Run(cfg, c, ops), Sweep(now, ch), s) <==>
            && now > DueAfter(cfg, c.flow.value.pending[s].nextAttempt, ops, s)
            && ch.room(s) && !GivesUp(cfg, c.flow.value.pending[s], now)
  {
    hide Run, Persists, DueAfter, EntryAfter, Unanswered;
    RunEntry(cfg, c, ops, s);
    UnansweredEntry(cfg, c.flow.value.pending[s], ops, s);
  }

  /** No sweep of the run comes later than at. */
  predicate SweptBy(ops: seq<Op>, at: Time) {
    forall i :: 0 <= i < |ops| ==> ops[i].Sweep? ==> ops[i].now <= at
  }

  lemma {:induction false} StillDue(cfg: Config, at: Time, ops: seq<Op>, s: U64)
    requires SweptBy(ops, at)
    ensures DueAfter(cfg, at, ops, s) == at
  {
    if ops != [] {
      StillDue(cfg, at, ops[..|ops| - 1], s);
    }
  }

  /**
   After a sweep has queued a copy of a gap, the next sweep queues another exactly when it comes later
   than the response timeout plus its slack, finds room, and does not give the gap up: whatever frames,
   requests, fills, earlier sweeps and answers to other gaps there are in between.
   */
  lemma SecondCopyExactlyWhen(cfg: Config, c: Cell, now: Time, ch: Choices, ops: seq<Op>, s: U64,
                              later: Time, ch': Choices)
    requires Visits(c, Sweep(now, ch)) && Dispatches(cfg, c, Sweep(now, ch), s)
    requires var first := Step(cfg, c, Sweep(now, ch));
             Persists(cfg, first, ops, s) && Visits(Run(cfg, first, ops), Sweep(later, ch'))
    requires Unanswered(ops, s) && SweptBy(ops, now + cfg.respTimeout + SWEEP_SLACK)
    ensures Dispatches(cfg, Run(cfg, Step(cfg, c, Sweep(now, ch)), ops), Sweep(later, ch'), s) <==>
            later > now + cfg.respTimeout + SWEEP_SLACK && ch'.room(s) && !GivesUp(cfg, c.flow.value.pending[s], later)
  {
    hide Run, Step, Persists, Unanswered, SweptBy, Probes.Asks;
    SweepEntry(cfg, c, now, ch, s);
    StillDue(cfg, now + cfg.respTimeout + SWEEP_SLACK, ops, s);
    QueuedExactlyWhen(cfg, Step(cfg, c, Sweep(now, ch)), ops, s, later, ch');
  }

  /**
   A request queues its copies itself, without a stamp: for a gap it registers, on a flow it may have
   created, the next sweep queues a second copy exactly when it comes later than the gap's jitter, finds
   room, and does not give it up.
   */
  lemma RequestCopyExactlyWhen(cfg: Config, c: Cell, seqs: seq<U64>, now: Time, ch: Choices, ops: seq<Op>, s: U64,
                               later: Time, ch': Choices)
    requires !Has(c, s) && s in seqs
    requires var first := Step(cfg, c, Request(seqs, now, true, ch));
             Persists(cfg, first, ops, s) && Visits(Run(cfg, first, ops), Sweep(later, ch'))
    requires Unanswered(ops, s) && SweptBy(ops, now + ch.jitter(s))
    ensures Dispatches(cfg, Run(cfg, Step(cfg, c, Request(seqs, now, true, ch)), ops), Sweep(later, ch'), s) <==>
            later > now + ch.jitter(s) && ch'.room(s) && later <= now + cfg.gapTTL && cfg.maxRetries > 0
  {
    hide Run, Persists, Unanswered, SweptBy, RegisterList;
    var f := if c.flow.Some? then c.flow.value else NewFlow(now);
    Books.ListKeys(cfg, Track(f, c.books), seqs, |seqs|, now, ch, s);
    assert seqs[..|seqs|] == seqs;
    StillDue(cfg, now + ch.jitter(s), ops, s);
    QueuedExactlyWhen(cfg, Step(cfg, c, Request(seqs, now, true, ch)), ops, s, later, ch');
  }

  /** A request collects one copy of each gap it registers, and of nothing else. */
  lemma {:induction false} RequestCopiesAreExact(cfg: Config, t: Track, seqs: seq<U64>, n: nat, now: Time, ch: Choices)
    requires n <= |seqs|
    ensures var q := RequestCopies(cfg, t, seqs, n, now, ch);
            && NoDup(q)
            && (forall g :: g in q ==>
                              g.seqNum in seqs[..n] && g.seqNum !in t.flow.pending &&
                              g == NewGap(cfg, g.seqNum, now, ch.jitter(g.seqNum)))
            && (forall s :: s in seqs[..n] && s !in t.flow.pending ==> NewGap(cfg, s, now, ch.jitter(s)) in q)
  {
    hide RegisterList;
    if n > 0 {
      RequestCopiesAreExact(cfg, t, seqs, n - 1, now, ch);
      var s := seqs[n - 1];
      assert seqs[..n] == seqs[..n - 1] + [s];
      Books.ListKeys(cfg, t, seqs, n - 1, now, ch, s);
    }
  }

  /** The queue takes the copies in order up to the first it has no room for, and none of the rest. */
  lemma {:induction false} QueueStopsWhenFull(copies: seq<Gap>, ch: Choices)
    ensures var q := Accepted(copies, ch);
            && |q| <= |copies| && q == copies[..|q|]
            && (forall i :: 0 <= i < |q| ==> ch.room(q[i].seqNum))
            && (|q| < |copies| ==> !ch.room(copies[|q|].seqNum))
  {
    if copies != [] && ch.room(copies[0].seqNum) {
      QueueStopsWhenFull(copies[1..], ch);
    }
  }

  /**
   A tail probe is queued unstamped as well: the next sweep queues a second copy exactly when it comes
   later than the one that issued the probe, finds room, and does not give the probe up.
   */
  lemma ProbeCopyExactlyWhen(cfg: Config, c: Cell, now: Time, ch: Choices, ops: seq<Op>, later: Time, ch': Choices)
    requires Probes.Asks(cfg, c, Sweep(now, ch)) && Step(cfg, c, Sweep(now, ch)).flow.Some?
    requires var first, s := Step(cfg, c, Sweep(now, ch)), ProbeSeq(c.flow.value);
             Persists(cfg, first, ops, s) && Visits(Run(cfg, first, ops), Sweep(later, ch')) && Unanswered(ops, s)
    requires SweptBy(ops, now)
    ensures Dispatches(cfg, Run(cfg, Step(cfg, c, Sweep(now, ch)), ops), Sweep(later, ch'), ProbeSeq(c.flow.value)) <==>
            later > now && ch'.room(ProbeSeq(c.flow.value)) && later <= now + cfg.gapTTL && cfg.maxRetries > 0
  {
    hide Run, Persists, Unanswered, SweptBy, SweepGaps, WantsProbe;
    var s := ProbeSeq(c.flow.value);
    var t := ForgetAbandoned(Track(c.flow.value, c.books), now);
    Rate.SweepGapsKeepLast(cfg, t, ch.order, |ch.order|, now, ch);
    assert Has(Step(cfg, c, Sweep(now, ch)), s) &&
           Step(cfg, c, Sweep(now, ch)).flow.value.pending[s] == ProbeGap(cfg, s, now);
    StillDue(cfg, now, ops, s);
    QueuedExactlyWhen(cfg, Step(cfg, c, Sweep(now, ch)), ops, s, later, ch');
  }

  // ----- a held gap -----

  /** The loop of a sweep that comes no later than the gap's next attempt queues no copy of it. */
  lemma NotYetQueued(cfg: Config, c: Cell, now: Time, ch: Choices, s: U64)
    requires Has(c, s) && Probes.OneProbe(c.flow.value) && Walks(ch.order, c.flow.value.pending)
    requires now <= c.flow.value.pending[s].nextAttempt
    ensures forall g :: g in SweepQueues(cfg, Track(c.flow.value, c.books), now, ch) && g.seqNum == s ==>
                          g == ProbeGap(cfg, s, now)
  {
    hide QueuedBy, SweepGaps, NoDup, WantsProbe;
    var t := Track(c.flow.value, c.books);
    Probes.ForgetBudget(cfg, t, now);
    QueueIsExact(cfg, ForgetAbandoned(t, now), ch.order, |ch.order|, now, ch);
  }

  /** A gap that is due, alive and finds room has its copy queued, as stamped. */
  lemma DueIsQueued(cfg: Config, c: Cell, now: Time, ch: Choices, s: U64)
    requires Has(c, s) && Probes.OneProbe(c.flow.value) && Walks(ch.order, c.flow.value.pending)
    requires var e := c.flow.value.pending[s];
             e.nextAttempt < now <= e.deadline && e.failRounds < cfg.maxRetries && ch.room(s)
    ensures c.flow.value.pending[s].(nextAttempt := now + cfg.respTimeout + 100_000_000) in
              SweepQueues(cfg, Track(c.flow.value, c.books), now, ch)
  {
    hide QueuedBy, SweepGaps, NoDup, WantsProbe;
    var t := Track(c.flow.value, c.books);
    assert ch.order[..|ch.order|] == ch.order;
    Probes.ForgetBudget(cfg, t, now);
    QueueIsExact(cfg, ForgetAbandoned(t, now), ch.order, |ch.order|, now, ch);
  }

  lemma SweptEarlier(ops: seq<Op>, at: Time, later: Time)
    requires SweptBy(ops, at) && at <= later
    ensures SweptBy(ops, later)
  {
  }

  /**
   After a THROTTLED answer to a gap, and until the next answer, no sweep within half the hinted hold queues
   a copy of it, and a sweep past the whole hold does, if it finds room and the gap is neither past its
   deadline nor out of retries: whatever else happens to the flow in between.
   */
  lemma ThrottledIsHeld(cfg: Config, c: Cell, copy: Gap, flags: Byte, now: Time, share: nat, ops: seq<Op>,
                        later: Time, ch: Choices)
    requires Has(c, copy.seqNum) && Probes.CellOneProbe(c)
    requires cfg.backoffMax >= 0 && share <= Min(125_000_000 * Pow2(flags % 16), cfg.backoffMax) / 2
    requires var first := Step(cfg, c, Answer(copy, Throttled(flags), now, share));
             Persists(cfg, first, ops, copy.seqNum) && Visits(Run(cfg, first, ops), Sweep(later, ch))
    requires var hold := Min(125_000_000 * Pow2(flags % 16), cfg.backoffMax);
             Unanswered(ops, copy.seqNum) && SweptBy(ops, now + hold / 2)
    ensures var hold := Min(125_000_000 * Pow2(flags % 16), cfg.backoffMax);
            var s, e := copy.seqNum, c.flow.value.pending[copy.seqNum];
            var mid := Run(cfg, Step(cfg, c, Answer(copy, Throttled(flags), now, share)), ops);
            Has(mid, s) &&
            var q := SweepQueues(cfg, Track(mid.flow.value, mid.books), later, ch);
            && (later <= now + hold / 2 ==> forall g :: g in q && g.seqNum == s ==> g == ProbeGap(cfg, s, later))
            && (now + hold < later <= e.deadline && e.failRounds < cfg.maxRetries && ch.room(s) ==>
                  e.(retries := e.retries + 1, nextAttempt := later + cfg.respTimeout + 100_000_000) in q)
  {
    hide Run, Persists, Unanswered, SweptBy, Retried, Pow2, SweepQueues, ProbeGap, DueAfter, EntryAfter;
    var s, e := copy.seqNum, c.flow.value.pending[copy.seqNum];
    var op := Answer(copy, Throttled(flags), now, share);
    var first := Step(cfg, c, op);
    var held := Retried(cfg, e, Throttled(flags), now, share);
    ThrottledWaits(cfg, e, flags, now, share);
    assert Has(first, s) && first.flow.value.pending[s] == held;
    Probes.StepOneProbe(cfg, c, op);
    Probes.RunOneProbe(cfg, first, ops);
    SweptEarlier(ops, now + Min(125_000_000 * Pow2(flags % 16), cfg.backoffMax) / 2, held.nextAttempt);
    StillDue(cfg, held.nextAttempt, ops, s);
    RunEntry(cfg, first, ops, s);
    UnansweredEntry(cfg, held, ops, s);
    var mid := Run(cfg, first, ops);
    assert mid.flow.value.pending[s] == held;
    if later <= held.nextAttempt {
      NotYetQueued(cfg, mid, later, ch, s);
    } else if later <= e.deadline && e.failRounds < cfg.maxRetries && ch.room(s) {
      DueIsQueued(cfg, mid, later, ch, s);
    }
  }
}
