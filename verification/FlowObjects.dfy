/**
 A flow as the tracker runs it: one object whose fields every locked section updates in place, and whose
 pending gaps are objects of their own that sweeps and answers change through the map. Each method is
 proved to do what module Flow does to the flow's value. The metrics are ghost: b holds them before the
 call, r after it. Copies put on the dispatch queue are values and stay as they were queued.
 */
module FlowObjects {
  import opened Base
  import opened Flow

  /** gapEntry. */
  class GapObject {
    const seqNum: U64
    const deadline: Time
    const speculative: bool
    var retries: nat
    var failRounds: nat
    var nextAttempt: Time
    var endpointIdx: nat

    /** Also the shallow copy that is put on the dispatch queue. */
    function View(): Gap
      reads this
    {
      Gap(seqNum, retries, failRounds, nextAttempt, deadline, endpointIdx, speculative)
    }

    constructor (g: Gap)
      ensures View() == g
    {
      seqNum, deadline, speculative := g.seqNum, g.deadline, g.speculative;
      retries, failRounds, nextAttempt, endpointIdx := g.retries, g.failRounds, g.nextAttempt, g.endpointIdx;
    }

    /** The sweep's dispatch: stamp, copy, and take the stamp back if the queue is full. */
    method Dispatch(cfg: Config, now: Time, room: bool) returns (copy: Gap)
      modifies this`nextAttempt
      ensures copy == old(View()).(nextAttempt := now + cfg.respTimeout + SWEEP_SLACK)
      ensures View() == if room then copy else copy.(nextAttempt := now)
    {
      nextAttempt := now + cfg.respTimeout + SWEEP_SLACK;
      copy := View();
      if !room {
        nextAttempt := now;
      }
    }

    /** throttleGap. */
    method Throttle(cfg: Config, flags: Byte, now: Time, share: nat)
      modifies this`retries, this`nextAttempt
      ensures View() == Flow.Throttle(cfg, old(View()), flags, now, share)
    {
      var hold := ShiftLeft(THROTTLE_BASE, flags % 16);
      if hold > cfg.backoffMax || hold <= 0 {
        hold := cfg.backoffMax;
      }
      retries := retries + 1;
      nextAttempt := now + (TruncDiv(hold, 2) + share);
    }

    /** advanceEndpoint. */
    method Advance(cfg: Config, immediate: bool, endpoints: nat, now: Time, share: nat)
      modifies this`retries, this`endpointIdx, this`failRounds, this`nextAttempt
      ensures View() == NextEndpoint(cfg, old(View()), immediate, endpoints, now, share)
    {
      hide ShiftLeft, TruncDiv;
      retries := retries + 1;
      endpointIdx := endpointIdx + 1;
      if immediate && !(endpoints > 0 && endpointIdx >= endpoints) {
        failRounds := 0;
        nextAttempt := now;
        return;
      }
      failRounds := failRounds + 1;
      var backoff := ShiftLeft(cfg.backoffBase, failRounds - 1);
      if backoff > cfg.backoffMax || backoff <= 0 {
        backoff := cfg.backoffMax;
      }
      nextAttempt := now + (TruncDiv(backoff, 2) + share);
    }
  }

  // ----- tables of gap objects -----

  /** The gaps a table of objects stands for. */
  ghost function GapsOf(m: map<U64, GapObject>): map<U64, Gap>
    reads m.Values
  {
    map s | s in m :: m[s].View()
  }

  /** No object is filed under two numbers. */
  ghost predicate Apart(m: map<U64, GapObject>) {
    forall a, b :: a in m && b in m && a != b ==> m[a] != m[b]
  }

  lemma GapIs(m: map<U64, GapObject>, s: U64)
    ensures s in GapsOf(m) <==> s in m
    ensures s in m ==> GapsOf(m)[s] == m[s].View() && m[s] in m.Values
    ensures |GapsOf(m)| == |m|
  {
    assert GapsOf(m).Keys == m.Keys;
    assert |GapsOf(m)| == |GapsOf(m).Keys| && |m| == |m.Keys|;
  }

  lemma GapAdded(m: map<U64, GapObject>, s: U64, e: GapObject)
    requires Apart(m) && e !in m.Values
    ensures Apart(m[s := e]) && GapsOf(m[s := e]) == GapsOf(m)[s := e.View()] && m[s := e].Values <= m.Values + {e}
  {
    assert forall k :: k in m ==> m[k] in m.Values;
  }

  lemma GapRemoved(m: map<U64, GapObject>, s: U64)
    requires Apart(m)
    ensures Apart(m - {s}) && GapsOf(m - {s}) == GapsOf(m) - {s} && (m - {s}).Values <= m.Values
  {
    assert forall k :: k in m - {s} ==> m[k] in m.Values;
  }

  /** The table is the rest of it and the object filed under s, which is none of the rest. */
  lemma GapAside(m: map<U64, GapObject>, s: U64)
    requires Apart(m) && s in m
    ensures GapsOf(m) == GapsOf(m - {s})[s := m[s].View()] && m[s] !in (m - {s}).Values
  {
  }

  lemma Overwritten(m: map<U64, Gap>, s: U64, a: Gap, b: Gap)
    ensures m[s := a][s := b] == m[s := b]
  {
  }

  lemma NoGaps()
    ensures Apart(map[]) && GapsOf(map[]) == map[]
  {
  }

  class FlowObject {
    var last: U64
    var pending: map<U64, GapObject>
    var lastSeen: Time
    var abandoned: map<U64, Time>
    var ewma: Time
    var contiguous: nat
    var samples: nat
    var probeMisses: nat
    var probing: U64

    ghost function View(): FlowState
      reads this, pending.Values
    {
      FlowState(last, GapsOf(pending), lastSeen, abandoned, ewma, contiguous, samples, probeMisses, probing)
    }

    ghost predicate Valid()
      reads this
    {
      Apart(pending)
    }

    constructor (now: Time)
      ensures Valid() && View() == NewFlow(now) && pending.Values == {}
    {
      last, pending, lastSeen, abandoned := 0, map[], now, map[];
      ewma, contiguous, samples, probeMisses, probing := 0, 0, 0, 0, 0;
    }

    // ----- bookkeeping -----

    method NoteLateFill(seqNum: U64, ghost b: Books) returns (ghost r: Books)
      modifies this`abandoned
      ensures Track(View(), r) == Flow.NoteLateFill(Track(old(View()), b), seqNum)
    {
      hide GapsOf;
      r := b;
      if seqNum in abandoned {
        abandoned := abandoned - {seqNum};
        r := b.(lateFilled := b.lateFilled + 1);
      }
    }

    /** bookFill, after the entry has been taken out of the pending map. */
    method FillPending(seqNum: U64, ghost b: Books) returns (ghost r: Books)
      requires Valid() && seqNum in pending
      modifies this`pending, this`probing, this`probeMisses
      ensures Valid() && pending.Values <= old(pending.Values) && seqNum in old(View()).pending
      ensures Track(View(), r) == Flow.FillPending(Track(old(View()), b), seqNum)
    {
      hide GapsOf, Apart;
      GapIs(pending, seqNum);
      GapRemoved(pending, seqNum);
      var e := pending[seqNum];
      pending := pending - {seqNum};
      if probing == e.seqNum {
        probing := 0;
      }
      r := b.(suppressed := b.suppressed + 1);
      if e.speculative {
        probeMisses := 0;
        r := r.(detected := r.detected + 1, probesRecovered := r.probesRecovered + 1);
      }
    }

    method BookAbandon(seqNum: U64, at: Time, ghost b: Books) returns (ghost r: Books)
      modifies this`abandoned
      ensures Track(View(), r) == Flow.BookAbandon(Track(old(View()), b), seqNum, at)
    {
      hide GapsOf;
      if |abandoned| < ABANDONED_MAX {
        abandoned := abandoned[seqNum := at];
      }
      r := b.(unrecovered := b.unrecovered + 1);
    }

    // ----- registering gaps -----

    /** A new object is filed under s; every other number keeps the object it has. */
    method File(s: U64, g: Gap)
      requires Valid()
      modifies this`pending
      ensures Valid() && s in pending && fresh(pending[s]) && pending == old(pending)[s := pending[s]]
      ensures fresh(pending.Values - old(pending.Values))
      ensures View() == old(View()).(pending := old(View()).pending[s := g])
    {
      hide GapsOf, Apart, GapObject.View;
      var e := new GapObject(g);
      GapAdded(pending, s, e);
      pending := pending[s := e];
    }

    method Unfile(s: U64)
      requires Valid()
      modifies this`pending
      ensures Valid() && pending == old(pending) - {s} && pending.Values <= old(pending.Values)
      ensures View() == old(View()).(pending := old(View()).pending - {s})
    {
      hide GapsOf, Apart;
      GapRemoved(pending, s);
      pending := pending - {s};
    }

    /** A number already pending keeps its object. */
    method Register(cfg: Config, seqNum: U64, now: Time, ch: Choices, ghost b: Books) returns (ghost r: Books)
      requires Valid()
      modifies this`pending
      ensures Valid() && fresh(pending.Values - old(pending.Values))
      ensures Track(View(), r) == Flow.Register(cfg, Track(old(View()), b), seqNum, now, ch)
    {
      hide GapsOf, Apart, NewGap, GapObject.View;
      r := b;
      GapIs(pending, seqNum);
      if seqNum !in pending {
        File(seqNum, NewGap(cfg, seqNum, now, ch.jitter(seqNum)));
        r := b.(detected := b.detected + 1);
      }
    }

    method RegisterRange(cfg: Config, lo: U64, hi: U64, now: Time, ch: Choices, ghost b: Books)
      returns (ghost r: Books)
      requires Valid() && lo <= hi
      modifies this`pending
      ensures Valid() && fresh(pending.Values - old(pending.Values))
      ensures Track(View(), r) == Flow.RegisterRange(cfg, Track(old(View()), b), lo, hi, now, ch)
    {
      hide GapsOf, Apart, Flow.Register;
      r := b;
      ghost var was := Track(View(), b);
      for m: int := lo to hi
        invariant Valid() && fresh(pending.Values - old(pending.Values))
        invariant Track(View(), r) == Flow.RegisterRange(cfg, was, lo, m, now, ch)
      {
        r := Register(cfg, m, now, ch, r);
      }
    }

    /** The loop of a request, with the copies it will queue once the lock is released. */
    method RegisterList(cfg: Config, seqs: seq<U64>, now: Time, ch: Choices, ghost b: Books)
      returns (q: seq<Gap>, ghost r: Books)
      requires Valid()
      modifies this`pending
      ensures Valid() && fresh(pending.Values - old(pending.Values))
      ensures Track(View(), r) == Flow.RegisterList(cfg, Track(old(View()), b), seqs, |seqs|, now, ch)
      ensures q == RequestCopies(cfg, Track(old(View()), b), seqs, |seqs|, now, ch)
    {
      hide GapsOf, Apart, NewGap, Flow.Register, Flow.RegisterList, RequestCopies;
      q, r := [], b;
      ghost var was := Track(View(), b);
      NothingRequested(cfg, was, seqs, now, ch);
      for i := 0 to |seqs|
        invariant Valid() && fresh(pending.Values - old(pending.Values))
        invariant Track(View(), r) == Flow.RegisterList(cfg, was, seqs, i, now, ch)
        invariant q == RequestCopies(cfg, was, seqs, i, now, ch)
      {
        NextRequested(cfg, was, seqs, i, now, ch);
        var copies;
        copies, r := RegisterOne(cfg, seqs[i], now, ch, r);
        q := q + copies;
      }
    }

    /** One number of a request, with the copy to queue if it is new. */
    method RegisterOne(cfg: Config, s: U64, now: Time, ch: Choices, ghost b: Books)
      returns (q: seq<Gap>, ghost r: Books)
      requires Valid()
      modifies this`pending
      ensures Valid() && fresh(pending.Values - old(pending.Values))
      ensures Track(View(), r) == Flow.Register(cfg, Track(old(View()), b), s, now, ch)
      ensures q == if s in old(View()).pending then [] else [NewGap(cfg, s, now, ch.jitter(s))]
    {
      hide GapsOf, Apart, NewGap, GapObject.View;
      q, r := [], b;
      GapIs(pending, s);
      if s !in pending {
        File(s, NewGap(cfg, s, now, ch.jitter(s)));
        r := b.(detected := b.detected + 1);
        GapIs(pending, s);
        q := [pending[s].View()];
      }
    }

    // ----- ObserveFrom -----

    /** Let every pending object go. */
    method Clear()
      modifies this`pending
      ensures Valid() && pending == map[] && View() == old(View()).(pending := map[])
    {
      NoGaps();
      pending := map[];
    }

    /** How much of the jump a re-baseline still asks for. */
    method Tail(cfg: Config, seqNum: U64, elapsed: Time) returns (tail: nat)
      requires seqNum > last
      ensures tail <= seqNum && forall p :: tail == TailLength(cfg, View().(pending := p), seqNum, elapsed)
    {
      hide GapsOf;
      tail := 0;
      if ewma > 0 && contiguous >= MIN_SETTLED {
        var missing := seqNum - last - 1;
        tail := Expected(elapsed, ewma);
        if tail > missing {
          tail := missing;
        }
        if tail > MaxJump(cfg) {
          tail := MaxJump(cfg);
        }
      }
    }

    /** Emitter change: every pending object is let go, and the tail gets new ones. */
    method Rebaseline(cfg: Config, seqNum: U64, elapsed: Time, now: Time, ch: Choices, ghost b: Books)
      returns (ghost r: Books)
      requires Valid() && seqNum > last
      modifies this`pending, this`last, this`ewma, this`contiguous, this`samples
      ensures Valid() && fresh(pending.Values - old(pending.Values))
      ensures Track(View(), r) == Flow.Rebaseline(cfg, Track(old(View()), b), seqNum, elapsed, now, ch)
    {
      hide Flow.RegisterRange, Real, GapsOf, Apart, TailLength;
      r := b.(dropped := b.dropped + |Real(GapsOf(pending))|);
      Clear();
      var tail := Tail(cfg, seqNum, elapsed);
      r := RegisterRange(cfg, seqNum - tail, seqNum, now, ch, r);
      last := seqNum;
      ewma, contiguous, samples := 0, 0, 0;
    }

    /** Proxy restart: flush every real pending gap, in whatever order the map is walked. */
    method Restart(seqNum: U64, ch: Choices, ghost b: Books) returns (ghost r: Books)
      requires Valid()
      modifies this`pending, this`last, this`abandoned
      ensures Valid() && pending.Values == {}
      ensures Track(View(), r) == Flow.Restart(Track(old(View()), b), seqNum, ch)
    {
      hide GapsOf, Apart;
      r := b;
      ghost var was := Track(View(), b);
      for i := 0 to |ch.order|
        invariant pending == old(pending) && Track(View(), r) == FlushList(was, ch.order, i, ch)
      {
        var s := ch.order[i];
        GapIs(pending, s);
        if s in pending && !pending[s].speculative {
          r := BookAbandon(s, ch.stamp(s), r);
        }
      }
      Clear();
      last := seqNum;
    }

    /** Steps 4 to 6 of ObserveFrom. */
    method Advance(cfg: Config, seqNum: U64, live: bool, elapsed: Time, now: Time, ch: Choices, ghost b: Books)
      returns (ghost r: Books)
      requires Valid()
      modifies this
      ensures Valid() && fresh(pending.Values - old(pending.Values))
      ensures Track(View(), r) == Flow.Advance(cfg, Track(old(View()), b), seqNum, live, elapsed, now, ch)
    {
      hide Flow.RegisterRange, Flow.Rebaseline, Flow.Restart, MaxJump, Expected, TruncDiv, GapsOf, Apart;
      r := b;
      if last == 0 {
        last := seqNum;
        return;
      }
      if seqNum <= last {
        if live && seqNum <= Threshold(cfg) && last > Threshold(cfg) {
          r := Restart(seqNum, ch, b);
        }
        return;
      }
      if seqNum == last + 1 {
        if elapsed > 0 {
          ewma := if ewma == 0 then elapsed else ewma + TruncDiv(elapsed - ewma, 8);
        }
        last := seqNum;
        contiguous := contiguous + 1;
        samples := samples + 1;
        return;
      }
      var missing := seqNum - last - 1;
      var implausible := missing > MaxJump(cfg);
      if !implausible && ewma > 0 && missing > 64 {
        var expected := Expected(elapsed, ewma);
        implausible := missing > (4 * (expected + 1)) % TWO64;
      }
      if implausible {
        r := Rebaseline(cfg, seqNum, elapsed, now, ch, b);
        return;
      }
      r := RegisterRange(cfg, last + 1, seqNum, now, ch, b);
      last := seqNum;
      contiguous := 0;
    }

    /** ObserveFrom, on the flow of a stamped frame. */
    method Observe(cfg: Config, seqNum: U64, live: bool, now: Time, ch: Choices, ghost b: Books)
      returns (ghost r: Books)
      requires Valid() && seqNum != 0
      modifies this
      ensures Valid() && fresh(pending.Values - old(pending.Values))
      ensures Track(View(), r) == ObserveFrame(cfg, Track(old(View()), b), seqNum, live, now, ch)
    {
      hide Flow.Advance, Flow.FillPending, Flow.NoteLateFill, GapsOf, Apart;
      ghost var was := Track(View(), b);
      GapIs(pending, seqNum);
      var elapsed := now - lastSeen;
      lastSeen := now;
      probeMisses := 0;
      r := NoteLateFill(seqNum, b);
      ghost var seen := Touch(was, seqNum, now);
      LateFillKeeps(was.(flow := was.flow.(lastSeen := now, probeMisses := 0)), seqNum);
      if seqNum in pending {
        FillKeepsLast(seen, seqNum);
        r := FillPending(seqNum, r);
        if seqNum <= last {
          return;
        }
      }
      r := Advance(cfg, seqNum, live, elapsed, now, ch, r);
    }

    /** Fill: a retransmit seen out of band. */
    method Fill(seqNum: U64, ghost b: Books) returns (ghost r: Books)
      requires Valid()
      modifies this`pending, this`probing, this`probeMisses, this`abandoned
      ensures Valid() && pending.Values <= old(pending.Values)
      ensures Track(View(), r) == Flow.Fill(Track(old(View()), b), seqNum)
    {
      hide Flow.FillPending, Flow.NoteLateFill, GapsOf, Apart;
      GapIs(pending, seqNum);
      r := b;
      if seqNum == 0 {
        return;
      }
      if seqNum in pending {
        r := FillPending(seqNum, b);
        return;
      }
      r := NoteLateFill(seqNum, b);
    }

    // ----- sweepOnce -----

    method RetireProbe(seqNum: U64, ghost b: Books)
      modifies this`probing, this`probeMisses
      ensures Track(View(), b) == Flow.RetireProbe(Track(old(View()), b), seqNum)
    {
      hide GapsOf;
      if probing == seqNum {
        probing := 0;
      }
      probeMisses := probeMisses + 1;
    }

    /** Give the entry up. */
    method DropGap(seqNum: U64, at: Time, ghost b: Books) returns (ghost r: Books)
      requires Valid() && seqNum in pending
      modifies this`pending, this`probing, this`probeMisses, this`abandoned
      ensures Valid() && pending == old(pending) - {seqNum} && pending.Values <= old(pending.Values)
      ensures var t := Track(old(View()).(pending := old(View()).pending - {seqNum}), b);
              Track(View(), r) == if old(pending[seqNum].speculative) then Flow.RetireProbe(t, seqNum)
                                  else Flow.BookAbandon(t, seqNum, at)
    {
      hide Flow.BookAbandon, Flow.RetireProbe, GapsOf, Apart;
      r := b;
      var probe := pending[seqNum].speculative;
      Unfile(seqNum);
      if probe {
        RetireProbe(seqNum, b);
      } else {
        r := BookAbandon(seqNum, at, b);
      }
    }

    /** Stamp a due entry through the map, and queue a copy if there is room. */
    method StampGap(cfg: Config, seqNum: U64, e: GapObject, now: Time, room: bool) returns (q: seq<Gap>)
      requires Valid() && seqNum in pending && pending[seqNum] == e && now > e.nextAttempt
      modifies e`nextAttempt
      ensures View() == old(View()).(pending := old(View()).pending[seqNum := Stamped(cfg, old(e.View()), now, room)])
      ensures q == if room then [Stamped(cfg, old(e.View()), now, true)] else []
    {
      hide GapsOf, Apart;
      GapAside(pending, seqNum);
      ghost var rest, was := pending - {seqNum}, e.View();
      var copy := e.Dispatch(cfg, now, room);
      q := if room then [copy] else [];
      GapAside(pending, seqNum);
      Overwritten(GapsOf(rest), seqNum, was, e.View());
    }

    /** The sweep's treatment of one pending entry, with the copy it queues, if any. */
    method SweepGap(cfg: Config, seqNum: U64, now: Time, ch: Choices, ghost b: Books)
      returns (q: seq<Gap>, ghost r: Books)
      requires Valid()
      modifies this`pending, this`probing, this`probeMisses, this`abandoned, pending.Values
      ensures Valid() && pending.Values <= old(pending.Values)
      ensures Track(View(), r) == Flow.SweepGap(cfg, Track(old(View()), b), seqNum, now, ch)
      ensures var was := old(View()).pending;
              q == if seqNum in was && Queues(cfg, was[seqNum], now, ch.room(seqNum)) then
                     [Stamped(cfg, was[seqNum], now, true)] else []
    {
      hide Flow.BookAbandon, Flow.RetireProbe, GapsOf, Apart;
      q, r := [], b;
      GapIs(pending, seqNum);
      if seqNum !in pending {
        return;
      }
      var e := pending[seqNum];
      if now > e.deadline || e.failRounds >= cfg.maxRetries {
        r := DropGap(seqNum, ch.stamp(seqNum), b);
        return;
      }
      if now > e.nextAttempt {
        q := StampGap(cfg, seqNum, e, now, ch.room(seqNum));
      } else {
        assert GapsOf(pending)[seqNum := e.View()] == GapsOf(pending);
      }
    }

    method SweepGaps(cfg: Config, now: Time, ch: Choices, ghost b: Books) returns (q: seq<Gap>, ghost r: Books)
      requires Valid()
      modifies this`pending, this`probing, this`probeMisses, this`abandoned, pending.Values
      ensures Valid() && pending.Values <= old(pending.Values)
      ensures Track(View(), r) == Flow.SweepGaps(cfg, Track(old(View()), b), ch.order, |ch.order|, now, ch)
      ensures q == QueuedBy(cfg, Track(old(View()), b), ch.order, |ch.order|, now, ch)
    {
      hide Flow.SweepGap, GapsOf, Apart, Queues, Stamped;
      q, r := [], b;
      ghost var was := Track(View(), b);
      for i := 0 to |ch.order|
        invariant Valid() && pending.Values <= old(pending.Values)
        invariant Track(View(), r) == Flow.SweepGaps(cfg, was, ch.order, i, now, ch)
        invariant q == QueuedBy(cfg, was, ch.order, i, now, ch)
      {
        var one;
        one, r := SweepGap(cfg, ch.order[i], now, ch, r);
        q := q + one;
      }
    }

    /** maybeProbeTail: returns early unless the flow is settled, quiet and not confirmed idle. */
    method MaybeProbe(cfg: Config, now: Time, ch: Choices, ghost b: Books) returns (q: seq<Gap>, ghost r: Books)
      requires Valid()
      modifies this`pending, this`probing
      ensures Valid() && fresh(pending.Values - old(pending.Values))
      ensures Track(View(), r) == Flow.MaybeProbe(cfg, Track(old(View()), b), now, ch)
      ensures q == ProbeQueued(cfg, old(View()), now, ch)
    {
      hide GapsOf, Apart, ProbeGap;
      q, r := [], b;
      if !cfg.tailProbe || probing != 0 {
        return;
      }
      if ewma <= 0 || samples < MIN_SETTLED {
        return;
      }
      if probeMisses >= MaxMisses(cfg) {
        return;
      }
      var minIdle := if cfg.tailProbeMinIdle <= 0 then DEFAULT_MIN_IDLE else cfg.tailProbeMinIdle;
      var threshold := cfg.tailIdle(ewma);
      if threshold < minIdle {
        threshold := minIdle;
      }
      if now - lastSeen < threshold {
        return;
      }
      r := b.(probesSent := b.probesSent + 1);
      q := Ask(cfg, (last + 1) % TWO64, now, ch.room((last + 1) % TWO64));
    }

    /** File a probe and queue a copy of it; if the queue is full, leave no trace of it. */
    method Ask(cfg: Config, s: U64, now: Time, room: bool) returns (q: seq<Gap>)
      requires Valid()
      modifies this`pending, this`probing
      ensures Valid() && fresh(pending.Values - old(pending.Values))
      ensures q == if room then [ProbeGap(cfg, s, now)] else []
      ensures View() == if room then
                          old(View()).(probing := s, pending := old(View()).pending[s := ProbeGap(cfg, s, now)])
                        else old(View()).(probing := 0, pending := old(View()).pending - {s})
    {
      hide GapsOf, Apart, ProbeGap, GapObject.View;
      Unfiled(GapsOf(pending), s, ProbeGap(cfg, s, now));
      var copy := FileProbe(s, ProbeGap(cfg, s, now));
      if room {
        q := [copy];
      } else {
        q := [];
        Unfile(s);
        probing := 0;
      }
    }

    /** File a probe, mark it in flight, and copy it. */
    method FileProbe(s: U64, probe: Gap) returns (copy: Gap)
      requires Valid()
      modifies this`pending, this`probing
      ensures Valid() && fresh(pending.Values - old(pending.Values)) && copy == probe
      ensures pending.Keys == old(pending.Keys) + {s} && forall x :: x in pending && x != s ==> pending[x] == old(pending)[x]
      ensures View() == old(View()).(probing := s, pending := old(View()).pending[s := probe])
    {
      hide GapsOf, Apart, GapObject.View;
      File(s, probe);
      probing := s;
      GapIs(pending, s);
      copy := pending[s].View();
    }

    method Forget(now: Time, ghost b: Books)
      modifies this`abandoned
      ensures Track(View(), b) == ForgetAbandoned(Track(old(View()), b), now)
    {
      hide GapsOf;
      abandoned := map s | s in abandoned && now - abandoned[s] <= ABANDONED_TTL :: abandoned[s];
    }

    /** One flow's share of sweepOnce, with the copies it queues; drop tells the tracker to forget the flow. */
    method Sweep(cfg: Config, now: Time, ch: Choices, ghost b: Books)
      returns (drop: bool, q: seq<Gap>, ghost r: Books)
      requires Valid()
      modifies this, pending.Values
      ensures Valid() && fresh(pending.Values - old(pending.Values))
      ensures Track(View(), r) == SweepFlow(cfg, Track(old(View()), b), now, ch)
      ensures q == SweepQueues(cfg, Track(old(View()), b), now, ch)
      ensures drop == Idle(cfg, View(), now)
    {
      hide Flow.SweepGaps, Flow.MaybeProbe, GapsOf, Apart, QueuedBy, ProbeQueued, GapObject.View, ForgetAbandoned;
      Forget(now, b);
      q, r := SweepGaps(cfg, now, ch, b);
      GapIs(pending, 0);
      if |pending| == 0 {
        var probe;
        probe, r := MaybeProbe(cfg, now, ch, r);
        q := q + probe;
      }
      GapIs(pending, 0);
      var flowTTL := if cfg.tailTTL <= 0 then cfg.gapTTL else cfg.tailTTL;
      drop := |pending| == 0 && now - lastSeen > flowTTL;
    }

    // ----- responses -----

    /** abandonGap: the copy decides, pending or not. */
    method AbandonGap(copy: Gap, at: Time, ghost b: Books) returns (ghost r: Books)
      requires Valid()
      modifies this`pending, this`probing, this`abandoned
      ensures Valid() && pending.Values <= old(pending.Values)
      ensures Track(View(), r) == Flow.AbandonGap(Track(old(View()), b), copy, at)
    {
      hide Flow.BookAbandon, GapsOf, Apart;
      r := b;
      Unfile(copy.seqNum);
      if probing == copy.seqNum {
        probing := 0;
      }
      if !copy.speculative {
        r := BookAbandon(copy.seqNum, at, b);
      }
    }

    method ProbeMissed(copy: Gap, ghost b: Books)
      requires Valid()
      modifies this`pending, this`probing, this`probeMisses
      ensures Valid() && pending.Values <= old(pending.Values)
      ensures Track(View(), b) == Flow.ProbeMissed(Track(old(View()), b), copy)
    {
      hide GapsOf, Apart;
      Unfile(copy.seqNum);
      if probing == copy.seqNum {
        probing := 0;
      }
      probeMisses := probeMisses + 1;
    }

    /**
     An answer that leaves the entry pending changes its object through the map: that entry and no other
     stands for something else afterwards, and the map itself is not touched.
     */
    method RetryGap(cfg: Config, seqNum: U64, e: GapObject, resp: Response, now: Time, share: nat)
      requires Valid() && seqNum in pending && pending[seqNum] == e && !resp.Recovered? && !resp.Refused?
      modifies e
      ensures var was := old(View());
              View() == was.(pending := was.pending[seqNum := Retried(cfg, old(e.View()), resp, now, share)])
    {
      hide GapsOf, Apart, NextEndpoint, Flow.Throttle;
      GapAside(pending, seqNum);
      ghost var rest, was := pending - {seqNum}, e.View();
      match resp {
        case Miss(n) => e.Advance(cfg, true, n, now, share);
        case UnicastLost(n) => e.Advance(cfg, true, n, now, share);
        case SendError(n) => e.Advance(cfg, false, n, now, share);
        case TimedOut => e.Advance(cfg, false, 0, now, share);
        case Throttled(flags) => e.Throttle(cfg, flags, now, share);
        case NoAnswer =>
      }
      GapAside(pending, seqNum);
      Overwritten(GapsOf(rest), seqNum, was, e.View());
    }

    /** What sendNACK does with the outcome of a dispatched copy. */
    method Respond(cfg: Config, copy: Gap, resp: Response, now: Time, share: nat, ghost b: Books)
      returns (ghost r: Books)
      requires Valid()
      modifies this`pending, this`probing, this`probeMisses, this`abandoned, pending.Values
      ensures Valid() && pending.Values <= old(pending.Values)
      ensures Track(View(), r) == Flow.Respond(cfg, Track(old(View()), b), copy, resp, now, share)
    {
      hide Flow.AbandonGap, Flow.ProbeMissed, Flow.FillPending, Retried, GapsOf, Apart;
      r := b;
      GapIs(pending, copy.seqNum);
      if resp.Refused? {
        r := AbandonGap(copy, now, b);
        return;
      }
      if resp.Miss? && copy.speculative {
        ProbeMissed(copy, b);
        return;
      }
      if copy.seqNum !in pending {
        return;
      }
      if resp.Recovered? {
        r := FillPending(copy.seqNum, b);
      } else {
        RetryGap(cfg, copy.seqNum, pending[copy.seqNum], resp, now, share);
      }
    }
  }

  lemma NothingRequested(cfg: Config, t: Track, seqs: seq<U64>, now: Time, ch: Choices)
    ensures Flow.RegisterList(cfg, t, seqs, 0, now, ch) == t && RequestCopies(cfg, t, seqs, 0, now, ch) == []
  {
  }

  lemma NextRequested(cfg: Config, t: Track, seqs: seq<U64>, i: nat, now: Time, ch: Choices)
    requires i < |seqs|
    ensures var mid, s := Flow.RegisterList(cfg, t, seqs, i, now, ch), seqs[i];
            && Flow.RegisterList(cfg, t, seqs, i + 1, now, ch) == Flow.Register(cfg, mid, s, now, ch)
            && RequestCopies(cfg, t, seqs, i + 1, now, ch) ==
               RequestCopies(cfg, t, seqs, i, now, ch) +
               (if s in mid.flow.pending then [] else [NewGap(cfg, s, now, ch.jitter(s))])
  {
  }

  lemma Unfiled(m: map<U64, Gap>, s: U64, g: Gap)
    ensures m[s := g] - {s} == m - {s}
  {
  }

  lemma LateFillKeeps(t: Track, seqNum: U64)
    ensures var r := Flow.NoteLateFill(t, seqNum).flow;
            r.pending == t.flow.pending && r.last == t.flow.last
  {
  }

  lemma FillKeepsLast(t: Track, seqNum: U64)
    requires seqNum in t.flow.pending
    ensures Flow.FillPending(t, seqNum).flow.last == t.flow.last
  {
  }
}
