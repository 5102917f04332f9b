/**
 What one frame does to the stream, in numbers. A frame is the flow's first, the next in sequence, one at or
 behind the position, or a jump ahead; each case is stated on the whole of ObserveFrame, with the
 configuration's defaults written out.
 */
module FlowForward {
  import opened Base
  import opened Flow
  import Seq = FlowSequence
  import Rate = FlowRate

  /** The state after the frame's own number has been dealt with: seen now, late fill noted, own gap filled. */
  function Cleared(t: Track, seqNum: U64, now: Time): Track {
    var seen := Touch(t, seqNum, now);
    if seqNum in seen.flow.pending then FillPending(seen, seqNum) else seen
  }

  lemma ClearedIs(t: Track, seqNum: U64, now: Time)
    ensures var r := Cleared(t, seqNum, now).flow;
            && r.last == t.flow.last && r.ewma == t.flow.ewma
            && r.contiguous == t.flow.contiguous && r.samples == t.flow.samples
            && r.pending == t.flow.pending - {seqNum} && r.abandoned == t.flow.abandoned - {seqNum}
            && r.lastSeen == now && r.probeMisses == 0
            && r.probing == (if seqNum in t.flow.pending && t.flow.pending[seqNum].seqNum == t.flow.probing then 0
                             else t.flow.probing)
  {
    assert seqNum !in t.flow.pending ==> t.flow.pending - {seqNum} == t.flow.pending;
    assert seqNum !in t.flow.abandoned ==> t.flow.abandoned - {seqNum} == t.flow.abandoned;
  }

  /** Every frame at all ahead of the position, or filling nothing, goes on to Advance. */
  lemma GoesOn(cfg: Config, t: Track, seqNum: U64, live: bool, now: Time, ch: Choices)
    requires seqNum > t.flow.last || (seqNum != 0 && seqNum !in t.flow.pending)
    ensures ObserveFrame(cfg, t, seqNum, live, now, ch) ==
            Advance(cfg, Cleared(t, seqNum, now), seqNum, live, now - t.flow.lastSeen, now, ch)
  {
    hide Advance;
  }

  // ----- a jump ahead -----

  /** How many numbers before seqNum an unexplained jump still asks for. */
  function Tail(f: FlowState, missing: nat, elapsed: nat, maxJump: nat): nat {
    if f.ewma > 0 && f.contiguous >= 16 then Min(Min(elapsed / f.ewma, missing), maxJump) else 0
  }

  lemma Verdict(cfg: Config, f: FlowState, seqNum: U64, elapsed: Time)
    requires f.last + 1 < seqNum && 0 <= elapsed < 0x2000_0000_0000_0000
    ensures var missing := seqNum - f.last - 1;
            var maxJump := if cfg.maxForwardJump == 0 then 4096 else cfg.maxForwardJump;
            && (Implausible(cfg, f, seqNum, elapsed) <==>
                !(missing <= maxJump && (f.ewma <= 0 || missing <= 64 || missing <= 4 * (elapsed / f.ewma + 1))))
            && TailLength(cfg, f, seqNum, elapsed) == Tail(f, missing, elapsed, maxJump)
  {
    hide Expected;
    if f.ewma > 0 {
      Rate.ExpectedIs(elapsed, f.ewma);
    }
  }

  /** The jump is taken for an outage: everything skipped is asked for, and the rate is kept. */
  ghost predicate Repairs(f: FlowState, seqNum: U64, r: FlowState) {
    && r.last == seqNum && r.ewma == f.ewma && r.samples == f.samples && r.contiguous == 0
    && forall n: U64 :: n in r.pending <==> (n in f.pending && n != seqNum) || f.last < n < seqNum
  }

  /** The jump is taken for another emitter: only a tail of it is asked for, and the rate is learnt anew. */
  ghost predicate StartsOver(f: FlowState, seqNum: U64, tail: nat, r: FlowState) {
    && r.last == seqNum && r.ewma == 0 && r.samples == 0 && r.contiguous == 0
    && forall n: U64 :: n in r.pending <==> seqNum - tail <= n < seqNum
  }

  lemma OpenGapRepairs(cfg: Config, t: Track, seqNum: U64, now: Time, ch: Choices)
    requires t.flow.last < seqNum
    ensures var r := OpenGap(cfg, t, seqNum, now, ch).flow;
            && r.last == seqNum && r.ewma == t.flow.ewma && r.samples == t.flow.samples && r.contiguous == 0
            && forall n: U64 :: n in r.pending <==> n in t.flow.pending || t.flow.last < n < seqNum
  {
    hide RegisterRange;
    Seq.RangeKeys(cfg, t, t.flow.last + 1, seqNum, now, ch);
  }

  /**
   A frame that skips numbers asks for every one of them and keeps the rate exactly when it skips no more
   than MaxForwardJump (4096 by default) and either there is no rate yet, it skips at most 64, or at most
   four times as many, plus four, as the silence before it explains. Otherwise the flow starts over: it is
   left with exactly the tail the silence explains, if the last 16 frames were in sequence, and with no rate.
   */
  lemma JumpExactlyWhen(cfg: Config, t: Track, seqNum: U64, live: bool, now: Time, ch: Choices)
    requires 0 < t.flow.last && t.flow.last + 1 < seqNum && 0 <= now - t.flow.lastSeen < 0x2000_0000_0000_0000
    ensures var f, r := t.flow, ObserveFrame(cfg, t, seqNum, live, now, ch).flow;
            var missing, elapsed := seqNum - f.last - 1, now - f.lastSeen;
            var maxJump := if cfg.maxForwardJump == 0 then 4096 else cfg.maxForwardJump;
            var explained := missing <= maxJump &&
                             (f.ewma <= 0 || missing <= 64 || missing <= 4 * (elapsed / f.ewma + 1));
            && (Repairs(f, seqNum, r) <==> explained)
            && (StartsOver(f, seqNum, Tail(f, missing, elapsed, maxJump), r) <==> !explained)
  {
    hide Implausible, TailLength, OpenGap, Rebaseline, Cleared;
    var f, elapsed, v := t.flow, now - t.flow.lastSeen, Cleared(t, seqNum, now);
    GoesOn(cfg, t, seqNum, live, now, ch);
    ClearedIs(t, seqNum, now);
    Verdict(cfg, v.flow, seqNum, elapsed);
    var r := ObserveFrame(cfg, t, seqNum, live, now, ch).flow;
    Rate.RebaselineLeavesTail(cfg, v, seqNum, elapsed, now, ch);
    OpenGapRepairs(cfg, v, seqNum, now, ch);
    var missing, maxJump := seqNum - f.last - 1, if cfg.maxForwardJump == 0 then 4096 else cfg.maxForwardJump;
    var tail := Tail(f, missing, elapsed, maxJump);
    assert tail == Tail(v.flow, missing, elapsed, maxJump);
    if Implausible(cfg, v.flow, seqNum, elapsed) {
      assert StartsOver(f, seqNum, tail, r);
    } else {
      assert Repairs(f, seqNum, r);
    }
    Exclusive(f, seqNum, tail, r);
  }

  lemma Exclusive(f: FlowState, seqNum: U64, tail: nat, r: FlowState)
    requires f.last + 1 < seqNum && (f.ewma <= 0 ==> tail == 0)
    ensures !(Repairs(f, seqNum, r) && StartsOver(f, seqNum, tail, r))
  {
    var skipped: U64 := seqNum - 1;
    assert Repairs(f, seqNum, r) ==> skipped in r.pending;
  }

  lemma JumpHeard(cfg: Config, t: Track, seqNum: U64, live: bool, now: Time, ch: Choices)
    requires 0 < t.flow.last && t.flow.last + 1 < seqNum
    ensures ObserveFrame(cfg, t, seqNum, live, now, ch).flow.lastSeen == now
  {
    hide Implausible, OpenGap, Rebaseline, Cleared;
    GoesOn(cfg, t, seqNum, live, now, ch);
    ClearedIs(t, seqNum, now);
    JumpSeen(cfg, Cleared(t, seqNum, now), seqNum, now - t.flow.lastSeen, now, ch);
  }

  lemma JumpSeen(cfg: Config, t: Track, seqNum: U64, elapsed: Time, now: Time, ch: Choices)
    requires t.flow.last < seqNum
    ensures OpenGap(cfg, t, seqNum, now, ch).flow.lastSeen == t.flow.lastSeen
    ensures Rebaseline(cfg, t, seqNum, elapsed, now, ch).flow.lastSeen == t.flow.lastSeen
  {
    hide RegisterRange, TailLength, Real;
    Seq.RangeKeys(cfg, t, t.flow.last + 1, seqNum, now, ch);
    var cleared := Track(t.flow.(pending := map[]), t.books.(dropped := t.books.dropped + |Real(t.flow.pending)|));
    Seq.RangeKeys(cfg, cleared, seqNum - TailLength(cfg, t.flow, seqNum, elapsed), seqNum, now, ch);
  }

  // ----- the next in sequence -----

  /** The estimate moves an eighth of the way to the sample, rounded toward where it is. */
  predicate EighthOfTheWay(ewma: Time, sample: Time, r: Time) {
    if ewma <= sample then 8 * (r - ewma) <= sample - ewma < 8 * (r - ewma) + 8
    else 8 * (ewma - r) <= ewma - sample < 8 * (ewma - r) + 8
  }

  /** The next frame in sequence is one more in a row and one more sample, and moves the estimate if time has passed. */
  lemma NextInSequence(cfg: Config, t: Track, seqNum: U64, live: bool, now: Time, ch: Choices)
    requires 0 < t.flow.last && seqNum == t.flow.last + 1
    ensures var f, r, elapsed := t.flow, ObserveFrame(cfg, t, seqNum, live, now, ch).flow, now - t.flow.lastSeen;
            && r.last == seqNum && r.contiguous == f.contiguous + 1 && r.samples == f.samples + 1
            && r.pending == f.pending - {seqNum} && r.lastSeen == now && r.probeMisses == 0
            && (elapsed <= 0 ==> r.ewma == f.ewma)
            && (elapsed > 0 && f.ewma == 0 ==> r.ewma == elapsed)
            && (elapsed > 0 && f.ewma != 0 ==> EighthOfTheWay(f.ewma, elapsed, r.ewma))
  {
    hide Cleared;
    GoesOn(cfg, t, seqNum, live, now, ch);
    ClearedIs(t, seqNum, now);
  }

  // ----- at or behind the position, and the first -----

  lemma {:induction false} FlushKeeps(t: Track, order: seq<U64>, n: nat, ch: Choices)
    requires n <= |order|
    ensures var r := FlushList(t, order, n, ch).flow;
            r == t.flow.(abandoned := r.abandoned)
  {
    if n > 0 {
      FlushKeeps(t, order, n - 1, ch);
    }
  }

  /**
   A frame at or behind the position moves it exactly when it is live, fills no gap, and is at or below the
   restart threshold (100 by default) while the position is above: everything pending is then dropped, and
   the rate is kept. Any other such frame leaves the stream alone.
   */
  lemma RestartExactlyWhen(cfg: Config, t: Track, seqNum: U64, live: bool, now: Time, ch: Choices)
    requires 0 < seqNum <= t.flow.last
    ensures var f, r := t.flow, ObserveFrame(cfg, t, seqNum, live, now, ch).flow;
            var threshold := if cfg.seqResetThreshold == 0 then 100 else cfg.seqResetThreshold;
            && (r.last != f.last <==> live && seqNum !in f.pending && seqNum <= threshold < f.last)
            && (r.last != f.last ==> r.last == seqNum && r.pending == map[])
            && (r.last == f.last ==> r.pending == f.pending - {seqNum})
            && r.ewma == f.ewma && r.contiguous == f.contiguous && r.samples == f.samples
            && r.lastSeen == now && r.probeMisses == 0
  {
    hide FlushList, Cleared;
    ClearedIs(t, seqNum, now);
    FlushKeeps(Cleared(t, seqNum, now), ch.order, |ch.order|, ch);
    if seqNum !in t.flow.pending {
      GoesOn(cfg, t, seqNum, live, now, ch);
    } else {
      FillsBehind(cfg, t, seqNum, live, now, ch);
    }
  }

  lemma FillsBehind(cfg: Config, t: Track, seqNum: U64, live: bool, now: Time, ch: Choices)
    requires 0 < seqNum <= t.flow.last && seqNum in t.flow.pending
    ensures ObserveFrame(cfg, t, seqNum, live, now, ch) == Cleared(t, seqNum, now)
  {
  }

  /** The first stamped frame of a flow sets the position and nothing else of the stream. */
  lemma FirstSetsPosition(cfg: Config, t: Track, seqNum: U64, live: bool, now: Time, ch: Choices)
    requires t.flow.last == 0 < seqNum
    ensures var f, r := t.flow, ObserveFrame(cfg, t, seqNum, live, now, ch).flow;
            && r.last == seqNum && r.ewma == f.ewma && r.contiguous == f.contiguous && r.samples == f.samples
            && r.pending == f.pending - {seqNum} && r.lastSeen == now && r.probeMisses == 0
  {
    hide Cleared;
    GoesOn(cfg, t, seqNum, live, now, ch);
    ClearedIs(t, seqNum, now);
  }

  // ----- a steady flow -----

  /** Frames in sequence, d apart, from the position and the time the flow was last seen. */
  ghost predicate Steady(f: FlowState, frames: seq<Seq.Frame>, d: Time) {
    forall i :: 0 <= i < |frames| ==>
                  frames[i].seqNum == f.last + i + 1 && frames[i].now == f.lastSeen + (i + 1) * d
  }

  function Error(ewma: Time, d: Time): nat {
    if ewma <= d then d - ewma else ewma - d
  }

  /** Where the error of the estimate stands after n samples: it falls by at least one each until below eight. */
  predicate Settling(before: nat, n: nat, after: nat) {
    after <= Max(7, before - n) && after <= before
  }

  lemma OneSample(ewma: Time, d: Time, r: Time)
    requires EighthOfTheWay(ewma, d, r)
    ensures Error(r, d) <= Error(ewma, d) && (Error(ewma, d) >= 8 ==> Error(r, d) < Error(ewma, d))
  {
  }

  /**
   On a steady flow the estimate closes in on the spacing: every frame brings it nearer until it is within
   seven nanoseconds, where it stays, and each is one more in a row and one more sample.
   */
  lemma {:induction false} RateSettles(cfg: Config, t: Track, frames: seq<Seq.Frame>, d: Time)
    requires 0 < t.flow.last && d > 0 && t.flow.ewma > 0 && Steady(t.flow, frames, d)
    ensures var r := Seq.ObserveAll(cfg, t, frames).flow;
            && Settling(Error(t.flow.ewma, d), |frames|, Error(r.ewma, d)) && r.ewma > 0
            && r.contiguous == t.flow.contiguous + |frames| && r.samples == t.flow.samples + |frames|
            && r.last == t.flow.last + |frames| && r.lastSeen == t.flow.lastSeen + |frames| * d
  {
    hide ObserveFrame;
    if frames != [] {
      var n, fr := |frames| - 1, frames[|frames| - 1];
      var mid := Seq.ObserveAll(cfg, t, frames[..n]);
      RateSettles(cfg, t, frames[..n], d);
      assert fr.now - mid.flow.lastSeen == d by {
        assert (n + 1) * d == n * d + d;
      }
      NextInSequence(cfg, mid, fr.seqNum, fr.live, fr.now, fr.ch);
      OneSample(mid.flow.ewma, d, ObserveFrame(cfg, mid, fr.seqNum, fr.live, fr.now, fr.ch).flow.ewma);
    }
  }
}
