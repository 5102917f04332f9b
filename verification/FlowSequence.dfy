/**
 What a run of frames leaves pending. Gap detection looks at frames one at a time and in whatever
 order they come; the outcome depends only on which ones came.
 */
module FlowSequence {
  import opened Base
  import opened Flow

  datatype Frame = Frame(seqNum: U64, live: bool, now: Time, ch: Choices)

  ghost function ObserveAll(cfg: Config, t: Track, frames: seq<Frame>): Track {
    if frames == [] then t
    else
      var f := frames[|frames| - 1];
      ObserveFrame(cfg, ObserveAll(cfg, t, frames[..|frames| - 1]), f.seqNum, f.live, f.now, f.ch)
  }

  /** The flow as its first stamped frame leaves it. */
  ghost function FirstFrame(cfg: Config, books: Books, f: Frame): Track {
    ObserveFrame(cfg, Track(NewFlow(f.now), books), f.seqNum, f.live, f.now, f.ch)
  }

  /** The frame neither looks like a restarted proxy nor like another emitter. */
  ghost predicate Calm(cfg: Config, f: FlowState, fr: Frame) {
    && fr.seqNum != 0
    && (fr.seqNum <= f.last && fr.seqNum !in f.pending ==> !TripsRestart(cfg, f, fr.seqNum, fr.live))
    && (fr.seqNum > f.last ==>
          fr.seqNum == f.last + 1 || !Implausible(cfg, f, fr.seqNum, fr.now - f.lastSeen))
  }

  ghost predicate AllCalm(cfg: Config, t: Track, frames: seq<Frame>) {
    frames == [] ||
    (AllCalm(cfg, t, frames[..|frames| - 1]) &&
     Calm(cfg, ObserveAll(cfg, t, frames[..|frames| - 1]).flow, frames[|frames| - 1]))
  }

  function Seen(frames: seq<Frame>): set<U64> {
    set i | 0 <= i < |frames| :: frames[i].seqNum
  }

  /** high is the highest of first and the numbers seen. */
  ghost predicate IsHighest(first: U64, seen: set<U64>, high: U64) {
    first <= high && (high == first || high in seen) && forall n :: n in seen ==> n <= high
  }

  /** Pending is exactly what lies between the first frame and the highest and was not seen. */
  ghost predicate Tracks(first: U64, seen: set<U64>, f: FlowState) {
    && first > 0
    && IsHighest(first, seen, f.last)
    && forall n: U64 :: n in f.pending <==> first < n < f.last && n !in seen
  }

  /** Registering a range adds exactly the range to what is pending and changes nothing else of the flow. */
  lemma {:induction false} RangeKeys(cfg: Config, t: Track, lo: U64, hi: U64, now: Time, ch: Choices)
    ensures var r := RegisterRange(cfg, t, lo, hi, now, ch);
            && r.flow == t.flow.(pending := r.flow.pending)
            && (forall n: U64 :: n in r.flow.pending <==> n in t.flow.pending || lo <= n < hi)
            && (forall n: U64 :: n in t.flow.pending ==> r.flow.pending[n] == t.flow.pending[n])
    decreases hi - lo
  {
    if lo < hi {
      RangeKeys(cfg, t, lo, hi - 1, now, ch);
    }
  }

  lemma TouchKeeps(t: Track, seqNum: U64, now: Time)
    ensures var r := Touch(t, seqNum, now).flow;
            && r.last == t.flow.last && r.pending == t.flow.pending && r.ewma == t.flow.ewma
            && r.contiguous == t.flow.contiguous && r.samples == t.flow.samples
  {
  }

  /** One calm frame. */
  lemma FrameTracks(cfg: Config, t: Track, fr: Frame, first: U64, seen: set<U64>)
    requires Tracks(first, seen, t.flow) && Calm(cfg, t.flow, fr)
    ensures Tracks(first, seen + {fr.seqNum}, ObserveFrame(cfg, t, fr.seqNum, fr.live, fr.now, fr.ch).flow)
  {
    hide Touch, Implausible, RegisterRange;
    var u := Touch(t, fr.seqNum, fr.now);
    TouchKeeps(t, fr.seqNum, fr.now);
    SameVerdict(cfg, t.flow, u.flow, fr.seqNum, fr.live, fr.now - t.flow.lastSeen);
    if fr.seqNum > t.flow.last + 1 {
      RangeKeys(cfg, u, u.flow.last + 1, fr.seqNum, fr.now, fr.ch);
    }
  }

  lemma SameVerdict(cfg: Config, a: FlowState, b: FlowState, seqNum: U64, live: bool, elapsed: Time)
    requires a.last == b.last && a.ewma == b.ewma
    ensures TripsRestart(cfg, a, seqNum, live) == TripsRestart(cfg, b, seqNum, live)
    ensures seqNum > a.last ==> Implausible(cfg, a, seqNum, elapsed) == Implausible(cfg, b, seqNum, elapsed)
  {
  }

  /**
   Over any run of calm frames after a flow's first one, the pending numbers are exactly the
   unseen ones strictly between the first frame and the highest seen.
   */
  lemma {:induction false} PendingIsUnseen(cfg: Config, books: Books, first: Frame, frames: seq<Frame>)
    requires first.seqNum != 0 && AllCalm(cfg, FirstFrame(cfg, books, first), frames)
    ensures Tracks(first.seqNum, Seen(frames), ObserveAll(cfg, FirstFrame(cfg, books, first), frames).flow)
  {
    hide ObserveFrame;
    var t := FirstFrame(cfg, books, first);
    if frames == [] {
      FirstTracks(cfg, books, first);
      assert Seen(frames) == {};
    } else {
      var front, last := frames[..|frames| - 1], frames[|frames| - 1];
      PendingIsUnseen(cfg, books, first, front);
      FrameTracks(cfg, ObserveAll(cfg, t, front), last, first.seqNum, Seen(front));
      SeenSnoc(front, last);
      assert frames == front + [last];
    }
  }

  lemma FirstTracks(cfg: Config, books: Books, first: Frame)
    requires first.seqNum != 0
    ensures Tracks(first.seqNum, {}, FirstFrame(cfg, books, first).flow)
  {
  }

  lemma SeenSnoc(frames: seq<Frame>, f: Frame)
    ensures Seen(frames + [f]) == Seen(frames) + {f.seqNum}
  {
    var all := frames + [f];
    forall n | n in Seen(frames)
      ensures n in Seen(all)
    {
      var i :| 0 <= i < |frames| && frames[i].seqNum == n;
      assert all[i].seqNum == n;
    }
    assert all[|frames|].seqNum == f.seqNum;
  }

  /** Two calm runs that saw the same frames, in any order and with any repetition, agree. */
  lemma OrderDoesNotMatter(cfg: Config, books: Books, first: Frame, a: seq<Frame>, b: seq<Frame>)
    requires first.seqNum != 0 && Seen(a) == Seen(b)
    requires AllCalm(cfg, FirstFrame(cfg, books, first), a) && AllCalm(cfg, FirstFrame(cfg, books, first), b)
    ensures var fa := ObserveAll(cfg, FirstFrame(cfg, books, first), a).flow;
            var fb := ObserveAll(cfg, FirstFrame(cfg, books, first), b).flow;
            fa.last == fb.last && fa.pending.Keys == fb.pending.Keys
  {
    hide ObserveAll, FirstFrame, AllCalm, Seen;
    PendingIsUnseen(cfg, books, first, a);
    PendingIsUnseen(cfg, books, first, b);
  }
}
