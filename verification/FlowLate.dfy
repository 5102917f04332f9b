/**
 Frames that come after all. A gap given up is remembered for two minutes, up to 4096 of them, so that its
 frame is counted as filled late when it does come.
 */
module FlowLate {
  import opened Base
  import opened Flow
  import opened FlowLedger
  import opened FlowEntries
  import opened FlowBooks
  import Forward = FlowForward
  import Silence = FlowSilence

  const TWO_MINUTES: Time := 120_000_000_000

  predicate Recalls(c: Cell, s: U64) {
    c.flow.Some? && s in c.flow.value.abandoned
  }

  // ----- when a late fill is counted -----

  /** The step brings the frame of s to the flow: seen on the wire, or taken from a retry endpoint. */
  predicate Brings(c: Cell, op: Op, s: U64) {
    s != 0 && ((op.Observe? && op.seqNum == s) || (op.FillFrame? && op.seqNum == s && !Has(c, s)))
  }

  lemma {:induction false} ListLate(cfg: Config, t: Track, seqs: seq<U64>, n: nat, now: Time, ch: Choices)
    requires n <= |seqs|
    ensures var r := RegisterList(cfg, t, seqs, n, now, ch);
            r.books.lateFilled == t.books.lateFilled && r.flow.abandoned == t.flow.abandoned
  {
    if n > 0 {
      ListLate(cfg, t, seqs, n - 1, now, ch);
    }
  }

  lemma {:induction false} RangeLate(cfg: Config, t: Track, lo: U64, hi: U64, now: Time, ch: Choices)
    ensures var r := RegisterRange(cfg, t, lo, hi, now, ch);
            r.books.lateFilled == t.books.lateFilled && r.flow.abandoned == t.flow.abandoned
    decreases hi - lo
  {
    if lo < hi {
      RangeLate(cfg, t, lo, hi - 1, now, ch);
    }
  }

  lemma {:induction false} FlushLate(t: Track, order: seq<U64>, n: nat, ch: Choices, s: U64)
    requires n <= |order|
    ensures var r := FlushList(t, order, n, ch);
            && r.books.lateFilled == t.books.lateFilled
            && (s !in t.flow.pending ==>
                  (s in r.flow.abandoned <==> s in t.flow.abandoned) &&
                  (s in r.flow.abandoned ==> r.flow.abandoned[s] == t.flow.abandoned[s]))
  {
    if n > 0 {
      FlushLate(t, order, n - 1, ch, s);
    }
  }

  lemma {:induction false} GapsLate(cfg: Config, t: Track, order: seq<U64>, n: nat, now: Time, ch: Choices, s: U64)
    requires n <= |order|
    ensures var r := SweepGaps(cfg, t, order, n, now, ch);
            && r.books.lateFilled == t.books.lateFilled
            && (s !in t.flow.pending ==>
                  s !in r.flow.pending &&
                  (s in r.flow.abandoned <==> s in t.flow.abandoned) &&
                  (s in r.flow.abandoned ==> r.flow.abandoned[s] == t.flow.abandoned[s]))
  {
    hide GivesUp, Stamped;
    if n > 0 {
      GapsLate(cfg, t, order, n - 1, now, ch, s);
    }
  }

  lemma AdvanceLate(cfg: Config, t: Track, seqNum: U64, live: bool, elapsed: Time, now: Time, ch: Choices, s: U64)
    ensures var r := Advance(cfg, t, seqNum, live, elapsed, now, ch);
            && r.books.lateFilled == t.books.lateFilled
            && (s !in t.flow.pending ==>
                  (s in r.flow.abandoned <==> s in t.flow.abandoned) &&
                  (s in r.flow.abandoned ==> r.flow.abandoned[s] == t.flow.abandoned[s]))
  {
    hide RegisterRange, FlushList, Implausible, TailLength, Real, Smooth;
    FlushLate(t, ch.order, |ch.order|, ch, s);
    if seqNum > t.flow.last {
      RangeLate(cfg, t, t.flow.last + 1, seqNum, now, ch);
      var cleared := Track(t.flow.(pending := map[]), t.books.(dropped := t.books.dropped + |Real(t.flow.pending)|));
      RangeLate(cfg, cleared, seqNum - TailLength(cfg, t.flow, seqNum, elapsed), seqNum, now, ch);
    }
  }

  lemma ClearedLate(t: Track, seqNum: U64, now: Time)
    ensures Forward.Cleared(t, seqNum, now).books.lateFilled ==
            t.books.lateFilled + (if seqNum in t.flow.abandoned then 1 else 0)
  {
  }

  lemma FrameLate(cfg: Config, t: Track, seqNum: U64, live: bool, now: Time, ch: Choices, s: U64)
    requires seqNum != 0
    ensures var r := ObserveFrame(cfg, t, seqNum, live, now, ch);
            && r.books.lateFilled == t.books.lateFilled + (if seqNum in t.flow.abandoned then 1 else 0)
            && (s !in t.flow.pending ==>
                  (s in r.flow.abandoned <==> s in t.flow.abandoned && s != seqNum) &&
                  (s in r.flow.abandoned ==> r.flow.abandoned[s] == t.flow.abandoned[s]))
  {
    hide Advance, Forward.Cleared;
    var v := Forward.Cleared(t, seqNum, now);
    ClearedLate(t, seqNum, now);
    Forward.ClearedIs(t, seqNum, now);
    AdvanceLate(cfg, v, seqNum, live, now - t.flow.lastSeen, now, ch, s);
    if seqNum > t.flow.last || seqNum !in t.flow.pending {
      Forward.GoesOn(cfg, t, seqNum, live, now, ch);
    } else {
      Forward.FillsBehind(cfg, t, seqNum, live, now, ch);
    }
  }

  /** In every step, one late fill is counted exactly when the step brings the frame of a remembered number. */
  lemma LateFillExactlyWhen(cfg: Config, c: Cell, op: Op)
    ensures Step(cfg, c, op).books.lateFilled ==
            c.books.lateFilled + (if exists s :: Recalls(c, s) && Brings(c, op, s) then 1 else 0)
  {
    hide ObserveFrame, RegisterList, SweepGaps, Retried;
    var f := if c.flow.Some? then c.flow.value else NewFlow(if op.FillFrame? then 0 else op.now);
    var t := Track(f, c.books);
    match op
    case Observe(seqNum, live, now, admit, ch) =>
      assert Recalls(c, seqNum) && seqNum != 0 ==> Brings(c, op, seqNum);
      if seqNum != 0 {
        FrameLate(cfg, t, seqNum, live, now, ch, 0);
      }
    case Request(seqs, now, admit, ch) => ListLate(cfg, t, seqs, |seqs|, now, ch);
    case FillFrame(seqNum) => assert Recalls(c, seqNum) && seqNum != 0 && !Has(c, seqNum) ==> Brings(c, op, seqNum);
    case Sweep(now, ch) => GapsLate(cfg, ForgetAbandoned(t, now), ch.order, |ch.order|, now, ch, 0);
    case Answer(_, _, _, _) =>
  }

  // ----- how long a number is remembered -----

  /** The step neither brings the frame of s nor gives s up anew. */
  predicate Spares(c: Cell, op: Op, s: U64) {
    && !Has(c, s) && !Brings(c, op, s)
    && !(op.Answer? && op.resp.Refused? && op.copy.seqNum == s && !op.copy.speculative)
  }

  /** Of the steps that spare it, only a sweep more than two minutes after the stamp forgets the number. */
  lemma StepRecalls(cfg: Config, c: Cell, op: Op, s: U64)
    requires Recalls(c, s) && Spares(c, op, s) && Step(cfg, c, op).flow.Some?
    ensures var r, at := Step(cfg, c, op), c.flow.value.abandoned[s];
            && (Recalls(r, s) <==> !(op.Sweep? && op.now - at > TWO_MINUTES))
            && (Recalls(r, s) ==> r.flow.value.abandoned[s] == at)
  {
    hide ObserveFrame, RegisterList, SweepGaps, Retried;
    var t := Track(c.flow.value, c.books);
    match op
    case Observe(seqNum, live, now, admit, ch) =>
      if seqNum != 0 {
        FrameLate(cfg, t, seqNum, live, now, ch, s);
      }
    case Request(seqs, now, admit, ch) => ListLate(cfg, t, seqs, |seqs|, now, ch);
    case FillFrame(_) =>
    case Sweep(now, ch) => GapsLate(cfg, ForgetAbandoned(t, now), ch.order, |ch.order|, now, ch, s);
    case Answer(_, _, _, _) =>
  }

  ghost predicate AllSpare(cfg: Config, c: Cell, ops: seq<Op>, s: U64) {
    forall i :: 0 <= i < |ops| ==> Spares(Run(cfg, c, ops[..i]), ops[i], s)
  }

  /** No sweep of the run comes more than two minutes after at. */
  predicate SweptWithin(ops: seq<Op>, at: Time) {
    forall i :: 0 <= i < |ops| && ops[i].Sweep? ==> ops[i].now - at <= TWO_MINUTES
  }

  lemma {:induction false} NotRecalledAgain(cfg: Config, c: Cell, op: Op, s: U64)
    requires !Recalls(c, s) && c.flow.Some? && Spares(c, op, s)
    ensures !Recalls(Step(cfg, c, op), s)
  {
    hide ObserveFrame, RegisterList, SweepGaps, Retried;
    var t := Track(c.flow.value, c.books);
    match op
    case Observe(seqNum, live, now, admit, ch) =>
      if seqNum != 0 {
        FrameLate(cfg, t, seqNum, live, now, ch, s);
      }
    case Request(seqs, now, admit, ch) => ListLate(cfg, t, seqs, |seqs|, now, ch);
    case FillFrame(_) =>
    case Sweep(now, ch) => GapsLate(cfg, ForgetAbandoned(t, now), ch.order, |ch.order|, now, ch, s);
    case Answer(_, _, _, _) =>
  }

  lemma {:induction false} RunRecalls(cfg: Config, c: Cell, ops: seq<Op>, s: U64)
    requires Recalls(c, s) && Silence.Stays(cfg, c, ops) && AllSpare(cfg, c, ops, s)
    ensures var r, at := Run(cfg, c, ops), c.flow.value.abandoned[s];
            && r.flow.Some? && (Recalls(r, s) <==> SweptWithin(ops, at))
            && (Recalls(r, s) ==> r.flow.value.abandoned[s] == at)
  {
    hide Step, Spares;
    assert ops[..|ops|] == ops;
    if ops != [] {
      var front, op := ops[..|ops| - 1], ops[|ops| - 1];
      assert forall i :: 0 <= i <= |front| ==> front[..i] == ops[..i];
      assert forall i :: 0 <= i < |front| ==> front[i] == ops[i];
      RunRecalls(cfg, c, front, s);
      var mid := Run(cfg, c, front);
      if Recalls(mid, s) {
        StepRecalls(cfg, mid, op, s);
      } else {
        NotRecalledAgain(cfg, mid, op, s);
      }
    }
  }

  /**
   Over any run that keeps the flow and neither brings nor gives up the number, the frame of a gap given up
   at time at is counted as filled late, when it comes, exactly if no sweep in between was more than two
   minutes after at.
   */
  lemma LateFrameCounts(cfg: Config, c: Cell, ops: seq<Op>, s: U64, op: Op)
    requires Recalls(c, s) && Silence.Stays(cfg, c, ops) && AllSpare(cfg, c, ops, s)
    requires Brings(Run(cfg, c, ops), op, s)
    ensures var mid := Run(cfg, c, ops);
            Step(cfg, mid, op).books.lateFilled ==
            mid.books.lateFilled + (if SweptWithin(ops, c.flow.value.abandoned[s]) then 1 else 0)
  {
    hide Run, Silence.Stays, AllSpare, SweptWithin, Step;
    RunRecalls(cfg, c, ops, s);
    LateFillExactlyWhen(cfg, Run(cfg, c, ops), op);
    assert forall x :: Brings(Run(cfg, c, ops), op, x) ==> x == s;
  }

  // ----- what is remembered -----

  ghost predicate Bounded(c: Cell) {
    c.flow.Some? ==> |c.flow.value.abandoned| <= 4096
  }

  lemma AbandonBounded(t: Track, s: U64, at: Time)
    requires |t.flow.abandoned| <= 4096
    ensures |BookAbandon(t, s, at).flow.abandoned| <= 4096
  {
    SizePut(t.flow.abandoned, s, at);
  }

  lemma {:induction false} FlushBounded(t: Track, order: seq<U64>, n: nat, ch: Choices)
    requires n <= |order| && |t.flow.abandoned| <= 4096
    ensures |FlushList(t, order, n, ch).flow.abandoned| <= 4096
  {
    if n > 0 {
      FlushBounded(t, order, n - 1, ch);
      AbandonBounded(FlushList(t, order, n - 1, ch), order[n - 1], ch.stamp(order[n - 1]));
    }
  }

  /** One turn of the sweep remembers what it gives up, if there is room, and at most one number more than before. */
  lemma OneRemembered(cfg: Config, t: Track, at: U64, now: Time, ch: Choices)
    ensures var r := SweepGap(cfg, t, at, now, ch).flow;
            && |r.abandoned| <= |t.flow.abandoned| + 1 && (|t.flow.abandoned| <= 4096 ==> |r.abandoned| <= 4096)
            && (forall s :: s != at ==> (s in r.abandoned <==> s in t.flow.abandoned) &&
                                        (s in r.abandoned ==> r.abandoned[s] == t.flow.abandoned[s]))
            && (at in t.flow.pending && !t.flow.pending[at].speculative && GivesUp(cfg, t.flow.pending[at], now) ==>
                  (|t.flow.abandoned| < 4096 ==> at in r.abandoned && r.abandoned[at] == ch.stamp(at)))
  {
    hide GivesUp, Stamped;
    SizePut(t.flow.abandoned, at, ch.stamp(at));
  }

  lemma {:induction false} GapsBounded(cfg: Config, t: Track, order: seq<U64>, n: nat, now: Time, ch: Choices)
    requires n <= |order| && |t.flow.abandoned| <= 4096
    ensures |SweepGaps(cfg, t, order, n, now, ch).flow.abandoned| <= 4096
  {
    hide SweepGap;
    if n > 0 {
      GapsBounded(cfg, t, order, n - 1, now, ch);
      OneRemembered(cfg, SweepGaps(cfg, t, order, n - 1, now, ch), order[n - 1], now, ch);
    }
  }

  lemma AdvanceBounded(cfg: Config, t: Track, seqNum: U64, live: bool, elapsed: Time, now: Time, ch: Choices)
    requires |t.flow.abandoned| <= 4096
    ensures |Advance(cfg, t, seqNum, live, elapsed, now, ch).flow.abandoned| <= 4096
  {
    hide RegisterRange, FlushList, Implausible, TailLength, Real, Smooth;
    if seqNum <= t.flow.last {
      FlushBounded(t, ch.order, |ch.order|, ch);
    } else {
      RangeLate(cfg, t, t.flow.last + 1, seqNum, now, ch);
      var cleared := Track(t.flow.(pending := map[]), t.books.(dropped := t.books.dropped + |Real(t.flow.pending)|));
      RangeLate(cfg, cleared, seqNum - TailLength(cfg, t.flow, seqNum, elapsed), seqNum, now, ch);
    }
  }

  lemma FrameBounded(cfg: Config, t: Track, seqNum: U64, live: bool, now: Time, ch: Choices)
    requires seqNum != 0 && |t.flow.abandoned| <= 4096
    ensures |ObserveFrame(cfg, t, seqNum, live, now, ch).flow.abandoned| <= 4096
  {
    hide Advance, Forward.Cleared, ObserveFrame;
    var v := Forward.Cleared(t, seqNum, now);
    Forward.ClearedIs(t, seqNum, now);
    SizeRemove(t.flow.abandoned, seqNum);
    AdvanceBounded(cfg, v, seqNum, live, now - t.flow.lastSeen, now, ch);
    if seqNum > t.flow.last || seqNum !in t.flow.pending {
      Forward.GoesOn(cfg, t, seqNum, live, now, ch);
    } else {
      Forward.FillsBehind(cfg, t, seqNum, live, now, ch);
    }
  }

  lemma SweepBounded(cfg: Config, t: Track, now: Time, ch: Choices)
    requires |t.flow.abandoned| <= 4096
    ensures |SweepFlow(cfg, t, now, ch).flow.abandoned| <= 4096
  {
    hide SweepGaps, WantsProbe;
    SubsetSize(ForgetAbandoned(t, now).flow.abandoned.Keys, t.flow.abandoned.Keys);
    GapsBounded(cfg, ForgetAbandoned(t, now), ch.order, |ch.order|, now, ch);
  }

  lemma FillBounded(t: Track, seqNum: U64)
    requires |t.flow.abandoned| <= 4096
    ensures |Fill(t, seqNum).flow.abandoned| <= 4096
  {
    SizeRemove(t.flow.abandoned, seqNum);
  }

  lemma AnswerBounded(cfg: Config, t: Track, copy: Gap, resp: Response, now: Time, share: nat)
    requires |t.flow.abandoned| <= 4096
    ensures |Respond(cfg, t, copy, resp, now, share).flow.abandoned| <= 4096
  {
    hide Retried, BookAbandon;
    AbandonBounded(t.(flow := ClearProbing(t.flow.(pending := t.flow.pending - {copy.seqNum}), copy.seqNum)),
                   copy.seqNum, now);
  }

  lemma StepBounded(cfg: Config, c: Cell, op: Op)
    requires Bounded(c)
    ensures Bounded(Step(cfg, c, op))
  {
    hide ObserveFrame, RegisterList, SweepFlow, Respond, Fill;
    var f := if c.flow.Some? then c.flow.value else NewFlow(if op.FillFrame? then 0 else op.now);
    var t := Track(f, c.books);
    match op
    case Observe(seqNum, live, now, admit, ch) =>
      if seqNum != 0 {
        FrameBounded(cfg, t, seqNum, live, now, ch);
      }
    case Request(seqs, now, admit, ch) => ListLate(cfg, t, seqs, |seqs|, now, ch);
    case FillFrame(seqNum) => FillBounded(t, seqNum);
    case Sweep(now, ch) => SweepBounded(cfg, t, now, ch);
    case Answer(copy, resp, now, share) => AnswerBounded(cfg, t, copy, resp, now, share);
  }

  /** In every run a flow remembers at most 4096 numbers it has given up. */
  lemma {:induction false} RunBounded(cfg: Config, c: Cell, ops: seq<Op>)
    requires Bounded(c)
    ensures Bounded(Run(cfg, c, ops))
  {
    hide Step;
    if ops != [] {
      RunBounded(cfg, c, ops[..|ops| - 1]);
      StepBounded(cfg, Run(cfg, c, ops[..|ops| - 1]), ops[|ops| - 1]);
    }
  }

  lemma {:induction false} GapsRemember(cfg: Config, t: Track, order: seq<U64>, n: nat, now: Time, ch: Choices, s: U64)
    requires n <= |order| && NoDup(order) && |t.flow.abandoned| + n <= 4096
    requires s in t.flow.pending && !t.flow.pending[s].speculative && GivesUp(cfg, t.flow.pending[s], now)
    ensures var r := SweepGaps(cfg, t, order, n, now, ch).flow;
            && |r.abandoned| <= |t.flow.abandoned| + n
            && (s in order[..n] ==> s in r.abandoned && r.abandoned[s] == ch.stamp(s))
  {
    if n > 0 {
      var at := order[n - 1];
      assert order[..n] == order[..n - 1] + [at];
      assert at !in order[..n - 1];
      GapsRemember(cfg, t, order, n - 1, now, ch, s);
      var mid := SweepGaps(cfg, t, order, n - 1, now, ch);
      Unvisited(cfg, t, order, n - 1, now, ch, at);
      hide GivesUp, SweepGap, NoDup;
      OneRemembered(cfg, mid, at, now, ch);
    }
  }

  /** What a sweep gives up is remembered with its time, while the memory has room for all that was pending. */
  lemma GivenUpIsRecalled(cfg: Config, c: Cell, now: Time, ch: Choices, s: U64)
    requires Has(c, s) && Walks(ch.order, c.flow.value.pending) && Step(cfg, c, Sweep(now, ch)).flow.Some?
    requires |c.flow.value.abandoned| + |c.flow.value.pending| <= 4096
    requires var e := c.flow.value.pending[s];
             !e.speculative && (now > e.deadline || e.failRounds >= cfg.maxRetries)
    ensures var r := Step(cfg, c, Sweep(now, ch));
            Recalls(r, s) && r.flow.value.abandoned[s] == ch.stamp(s)
  {
    hide SweepGaps, NoDup;
    var t := Track(c.flow.value, c.books);
    var u := ForgetAbandoned(t, now);
    SubsetSize(u.flow.abandoned.Keys, t.flow.abandoned.Keys);
    NoDupSize(ch.order);
    assert Elements(ch.order) == c.flow.value.pending.Keys;
    assert ch.order[..|ch.order|] == ch.order;
    GapsRemember(cfg, u, ch.order, |ch.order|, now, ch, s);
  }

  lemma {:induction false} FlushRemembers(t: Track, order: seq<U64>, n: nat, ch: Choices, s: U64)
    requires n <= |order| && NoDup(order) && |t.flow.abandoned| + n <= 4096
    requires s in t.flow.pending && !t.flow.pending[s].speculative
    ensures var r := FlushList(t, order, n, ch).flow;
            && |r.abandoned| <= |t.flow.abandoned| + n
            && (s in order[..n] ==> s in r.abandoned && r.abandoned[s] == ch.stamp(s))
  {
    if n > 0 {
      var at := order[n - 1];
      assert order[..n] == order[..n - 1] + [at];
      assert at !in order[..n - 1];
      FlushRemembers(t, order, n - 1, ch, s);
      hide NoDup;
      SizePut(FlushList(t, order, n - 1, ch).flow.abandoned, at, ch.stamp(at));
    }
  }

  /** So is every real gap that was pending when the proxy restarted. */
  lemma FlushedIsRecalled(cfg: Config, c: Cell, seqNum: U64, now: Time, admit: bool, ch: Choices, s: U64)
    requires Has(c, s) && !c.flow.value.pending[s].speculative && Walks(ch.order, c.flow.value.pending)
    requires |c.flow.value.abandoned| + |c.flow.value.pending| <= 4096
    requires 0 < seqNum && seqNum !in c.flow.value.pending
    requires seqNum <= (if cfg.seqResetThreshold == 0 then 100 else cfg.seqResetThreshold) < c.flow.value.last
    ensures var r := Step(cfg, c, Observe(seqNum, true, now, admit, ch));
            Recalls(r, s) && r.flow.value.abandoned[s] == ch.stamp(s)
  {
    hide FlushList, NoDup, Forward.Cleared, Walks, ObserveFrame;
    var t := Track(c.flow.value, c.books);
    var v := Forward.Cleared(t, seqNum, now);
    Forward.ClearedIs(t, seqNum, now);
    Forward.GoesOn(cfg, t, seqNum, true, now, ch);
    SizeRemove(t.flow.abandoned, seqNum);
    assert t.flow.pending - {seqNum} == t.flow.pending;
    RestartRemembers(v, seqNum, ch, s);
  }

  lemma RestartRemembers(t: Track, seqNum: U64, ch: Choices, s: U64)
    requires s in t.flow.pending && !t.flow.pending[s].speculative && Walks(ch.order, t.flow.pending)
    requires |t.flow.abandoned| + |t.flow.pending| <= 4096
    ensures var r := Restart(t, seqNum, ch).flow;
            s in r.abandoned && r.abandoned[s] == ch.stamp(s)
  {
    hide FlushList, NoDup;
    NoDupSize(ch.order);
    assert Elements(ch.order) == t.flow.pending.Keys;
    assert ch.order[..|ch.order|] == ch.order;
    FlushRemembers(t, ch.order, |ch.order|, ch, s);
  }

  /** And so is a real gap whose repair was refused; the copy need not be current. */
  lemma RefusedIsRecalled(cfg: Config, c: Cell, copy: Gap, now: Time, share: nat)
    requires c.flow.Some? && !copy.speculative && |c.flow.value.abandoned| < 4096
    ensures var r := Step(cfg, c, Answer(copy, Refused, now, share));
            && Recalls(r, copy.seqNum) && r.flow.value.abandoned[copy.seqNum] == now
            && !Has(r, copy.seqNum) && (r.flow.value.probing == copy.seqNum ==> copy.seqNum == 0)
  {
  }
}
