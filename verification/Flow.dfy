/**
 One flow of the NACK gap tracker as a state machine over values. Every locked section of the
 tracker works on one flow, so the tracker is a table of these machines. What the outside decides
 (jitter, room in the dispatch queue, clock readings, map iteration order, a retry endpoint's
 answer) is an argument of the step.
 */
module Flow {
  import opened Base

  datatype Config = Config(
    backoffBase: Time, backoffMax: Time, maxRetries: int, gapTTL: Time, tailTTL: Time,
    seqResetThreshold: U64, maxForwardJump: U64, respTimeout: Time,
    tailProbe: bool, tailIdle: Time -> Time, tailProbeMinIdle: Time, tailProbeMaxMisses: int)

  const MIN_SETTLED: nat := 16
  const ABANDONED_TTL: Time := 120_000_000_000
  const ABANDONED_MAX: nat := 4096
  const SWEEP_SLACK: Time := 100_000_000
  const DEFAULT_MIN_IDLE: Time := 500_000_000

  function Threshold(cfg: Config): U64 {
    if cfg.seqResetThreshold == 0 then 100 else cfg.seqResetThreshold
  }

  function MaxJump(cfg: Config): U64 {
    if cfg.maxForwardJump == 0 then 4096 else cfg.maxForwardJump
  }

  function MaxMisses(cfg: Config): nat {
    if cfg.tailProbeMaxMisses <= 0 then 3 else cfg.tailProbeMaxMisses
  }

  /** gapEntry: retry state for one missing frame. A dispatched copy is a value of the same type. */
  datatype Gap = Gap(
    seqNum: U64, retries: nat, failRounds: nat, nextAttempt: Time, deadline: Time,
    endpointIdx: nat, speculative: bool)

  /** flowState. */
  datatype FlowState = FlowState(
    last: U64, pending: map<U64, Gap>, lastSeen: Time, abandoned: map<U64, Time>,
    ewma: Time, contiguous: nat, samples: nat, probeMisses: nat, probing: U64)

  /**
   The metrics a flow feeds, kept per flow. dropped counts real gaps a re-baseline discards
   without booking them anywhere.
   */
  datatype Books = Books(
    detected: nat, suppressed: nat, unrecovered: nat, lateFilled: nat, dropped: nat,
    probesSent: nat, probesRecovered: nat)

  datatype Track = Track(flow: FlowState, books: Books)

  /** What the outside decides during one step. */
  datatype Choices = Choices(
    jitter: U64 -> Time,     // hold-off before a gap's first attempt
    room: U64 -> bool,       // the dispatch queue takes this gap
    stamp: U64 -> Time,      // the clock when this gap is booked as abandoned
    order: seq<U64>)         // the order in which the pending map is walked

  function NewFlow(now: Time): FlowState {
    FlowState(0, map[], now, map[], 0, 0, 0, 0, 0)
  }

  function NewBooks(): Books {
    Books(0, 0, 0, 0, 0, 0, 0)
  }

  // ----- bookkeeping -----

  /** A frame for a gap already given up on. */
  function NoteLateFill(t: Track, seqNum: U64): Track {
    if seqNum in t.flow.abandoned then
      t.(flow := t.flow.(abandoned := t.flow.abandoned - {seqNum}),
         books := t.books.(lateFilled := t.books.lateFilled + 1))
    else t
  }

  /** A pending entry is closed as filled; a filled probe is detected and suppressed at once. */
  function BookFill(t: Track, e: Gap): Track {
    var flow := if t.flow.probing == e.seqNum then t.flow.(probing := 0) else t.flow;
    if e.speculative then
      Track(flow.(probeMisses := 0),
            t.books.(detected := t.books.detected + 1, suppressed := t.books.suppressed + 1,
                     probesRecovered := t.books.probesRecovered + 1))
    else Track(flow, t.books.(suppressed := t.books.suppressed + 1))
  }

  /** Remove the pending entry and book it filled. */
  function FillPending(t: Track, seqNum: U64): Track
    requires seqNum in t.flow.pending
  {
    BookFill(t.(flow := t.flow.(pending := t.flow.pending - {seqNum})), t.flow.pending[seqNum])
  }

  /** A real gap is given up on. */
  function BookAbandon(t: Track, seqNum: U64, at: Time): Track {
    t.(flow := t.flow.(abandoned := if |t.flow.abandoned| < ABANDONED_MAX then t.flow.abandoned[seqNum := at]
                                    else t.flow.abandoned),
       books := t.books.(unrecovered := t.books.unrecovered + 1))
  }

  // ----- registering gaps -----

  function NewGap(cfg: Config, seqNum: U64, now: Time, jitter: Time): Gap {
    Gap(seqNum, 0, 0, now + jitter, now + cfg.gapTTL, 0, false)
  }

  function Register(cfg: Config, t: Track, seqNum: U64, now: Time, ch: Choices): Track {
    if seqNum in t.flow.pending then t
    else
      t.(flow := t.flow.(pending := t.flow.pending[seqNum := NewGap(cfg, seqNum, now, ch.jitter(seqNum))]),
         books := t.books.(detected := t.books.detected + 1))
  }

  /** Register every number in [lo, hi). */
  function RegisterRange(cfg: Config, t: Track, lo: U64, hi: U64, now: Time, ch: Choices): Track
    decreases hi - lo
  {
    if lo >= hi then t
    else Register(cfg, RegisterRange(cfg, t, lo, hi - 1, now, ch), hi - 1, now, ch)
  }

  /** Register the first n of the numbers asked for. */
  function RegisterList(cfg: Config, t: Track, seqs: seq<U64>, n: nat, now: Time, ch: Choices): Track
    requires n <= |seqs|
  {
    if n == 0 then t
    else Register(cfg, RegisterList(cfg, t, seqs, n - 1, now, ch), seqs[n - 1], now, ch)
  }

  /** The copies a request collects under the lock: one for each number it registers. */
  function RequestCopies(cfg: Config, t: Track, seqs: seq<U64>, n: nat, now: Time, ch: Choices): seq<Gap>
    requires n <= |seqs|
  {
    if n == 0 then []
    else
      var s := seqs[n - 1];
      RequestCopies(cfg, t, seqs, n - 1, now, ch) +
      (if s in RegisterList(cfg, t, seqs, n - 1, now, ch).flow.pending then []
       else [NewGap(cfg, s, now, ch.jitter(s))])
  }

  /** What of a list of copies gets onto the dispatch queue: the first one refused ends it. */
  function Accepted(copies: seq<Gap>, ch: Choices): seq<Gap> {
    if copies == [] || !ch.room(copies[0].seqNum) then [] else [copies[0]] + Accepted(copies[1..], ch)
  }

  // ----- ObserveFrom -----

  /** Frames the flow would have carried during elapsed, as the code's unsigned quotient. */
  function Expected(elapsed: Time, ewma: Time): U64
    requires ewma > 0
  {
    TruncDiv(elapsed, ewma) % TWO64
  }

  /** The forward jump is too long for the silence before it: another emitter took over. */
  predicate Implausible(cfg: Config, f: FlowState, seqNum: U64, elapsed: Time)
    requires seqNum > f.last
  {
    var missing := seqNum - f.last - 1;
    || missing > MaxJump(cfg)
    || (f.ewma > 0 && missing > 64 && missing > (4 * (Expected(elapsed, f.ewma) + 1)) % TWO64)
  }

  /** How many numbers just before seqNum a re-baseline still asks for. */
  function TailLength(cfg: Config, f: FlowState, seqNum: U64, elapsed: Time): (n: nat)
    requires seqNum > f.last
    ensures n <= seqNum - f.last - 1 && n <= MaxJump(cfg)
  {
    if f.ewma > 0 && f.contiguous >= MIN_SETTLED then
      Min(Min(Expected(elapsed, f.ewma), seqNum - f.last - 1), MaxJump(cfg))
    else 0
  }

  ghost function Real(pending: map<U64, Gap>): set<U64> {
    set s | s in pending && !pending[s].speculative
  }

  /** Emitter change: forget everything pending, ask for the plausible tail, re-learn the rate. */
  ghost function Rebaseline(cfg: Config, t: Track, seqNum: U64, elapsed: Time, now: Time, ch: Choices): Track
    requires seqNum > t.flow.last
  {
    var cleared := Track(t.flow.(pending := map[]),
                         t.books.(dropped := t.books.dropped + |Real(t.flow.pending)|));
    var tail := TailLength(cfg, t.flow, seqNum, elapsed);
    var r := RegisterRange(cfg, cleared, seqNum - tail, seqNum, now, ch);
    r.(flow := r.flow.(last := seqNum, ewma := 0, contiguous := 0, samples := 0))
  }

  /** Book every real pending gap among the first n of order as abandoned. */
  function FlushList(t: Track, order: seq<U64>, n: nat, ch: Choices): Track
    requires n <= |order|
  {
    if n == 0 then t
    else
      var r := FlushList(t, order, n - 1, ch);
      var s := order[n - 1];
      if s in t.flow.pending && !t.flow.pending[s].speculative then BookAbandon(r, s, ch.stamp(s)) else r
  }

  /** Proxy restart: everything pending is unrecoverable; track from the new number. */
  function Restart(t: Track, seqNum: U64, ch: Choices): Track {
    var r := FlushList(t, ch.order, |ch.order|, ch);
    r.(flow := r.flow.(pending := map[], last := seqNum))
  }

  predicate TripsRestart(cfg: Config, f: FlowState, seqNum: U64, live: bool) {
    live && seqNum <= Threshold(cfg) && f.last > Threshold(cfg)
  }

  /** The smoothed inter-arrival estimate after one more sample. */
  function Smooth(ewma: Time, elapsed: Time): Time {
    if elapsed <= 0 then ewma
    else if ewma == 0 then elapsed
    else ewma + TruncDiv(elapsed - ewma, 8)
  }

  function Contiguous(t: Track, seqNum: U64, elapsed: Time): Track {
    t.(flow := t.flow.(ewma := Smooth(t.flow.ewma, elapsed), last := seqNum,
                       contiguous := t.flow.contiguous + 1, samples := t.flow.samples + 1))
  }

  function OpenGap(cfg: Config, t: Track, seqNum: U64, now: Time, ch: Choices): Track
    requires t.flow.last < seqNum
  {
    var r := RegisterRange(cfg, t, t.flow.last + 1, seqNum, now, ch);
    r.(flow := r.flow.(last := seqNum, contiguous := 0))
  }

  /** Steps 4 to 6, once a fill has been dealt with. */
  ghost function Advance(cfg: Config, t: Track, seqNum: U64, live: bool, elapsed: Time, now: Time, ch: Choices): Track {
    if t.flow.last == 0 then t.(flow := t.flow.(last := seqNum))
    else if seqNum <= t.flow.last then
      if TripsRestart(cfg, t.flow, seqNum, live) then Restart(t, seqNum, ch) else t
    else if seqNum == t.flow.last + 1 then Contiguous(t, seqNum, elapsed)
    else if Implausible(cfg, t.flow, seqNum, elapsed) then Rebaseline(cfg, t, seqNum, elapsed, now, ch)
    else OpenGap(cfg, t, seqNum, now, ch)
  }

  /** The part of ObserveFrom every stamped frame goes through first. */
  function Touch(t: Track, seqNum: U64, now: Time): Track {
    NoteLateFill(t.(flow := t.flow.(lastSeen := now, probeMisses := 0)), seqNum)
  }

  /** ObserveFrom on an existing flow; live is false for a frame re-injected without a source. */
  ghost function ObserveFrame(cfg: Config, t: Track, seqNum: U64, live: bool, now: Time, ch: Choices): Track {
    if seqNum == 0 then t
    else
      var elapsed := now - t.flow.lastSeen;
      var seen := Touch(t, seqNum, now);
      if seqNum in seen.flow.pending then
        var filled := FillPending(seen, seqNum);
        if seqNum <= seen.flow.last then filled
        else Advance(cfg, filled, seqNum, live, elapsed, now, ch)
      else Advance(cfg, seen, seqNum, live, elapsed, now, ch)
  }

  // ----- Fill -----

  function Fill(t: Track, seqNum: U64): Track {
    if seqNum == 0 then t
    else if seqNum in t.flow.pending then FillPending(t, seqNum)
    else NoteLateFill(t, seqNum)
  }

  // ----- sweepOnce, one flow -----

  function RetireProbe(t: Track, seqNum: U64): Track {
    t.(flow := t.flow.(probing := if t.flow.probing == seqNum then 0 else t.flow.probing,
                       probeMisses := t.flow.probeMisses + 1))
  }

  predicate GivesUp(cfg: Config, e: Gap, now: Time) {
    now > e.deadline || e.failRounds >= cfg.maxRetries
  }

  /** Due entries are stamped for dispatch; one the queue refuses is retried at the next sweep. */
  function Stamped(cfg: Config, e: Gap, now: Time, room: bool): Gap {
    if now > e.nextAttempt then
      e.(nextAttempt := if room then now + cfg.respTimeout + SWEEP_SLACK else now)
    else e
  }

  /** The sweep puts a copy of the entry on the dispatch queue. */
  predicate Queues(cfg: Config, e: Gap, now: Time, room: bool) {
    !GivesUp(cfg, e, now) && now > e.nextAttempt && room
  }

  function SweepGap(cfg: Config, t: Track, seqNum: U64, now: Time, ch: Choices): Track {
    if seqNum !in t.flow.pending then t
    else
      var e := t.flow.pending[seqNum];
      if GivesUp(cfg, e, now) then
        var r := t.(flow := t.flow.(pending := t.flow.pending - {seqNum}));
        if e.speculative then RetireProbe(r, seqNum) else BookAbandon(r, seqNum, ch.stamp(seqNum))
      else t.(flow := t.flow.(pending := t.flow.pending[seqNum := Stamped(cfg, e, now, ch.room(seqNum))]))
  }

  function SweepGaps(cfg: Config, t: Track, order: seq<U64>, n: nat, now: Time, ch: Choices): Track
    requires n <= |order|
  {
    if n == 0 then t
    else SweepGap(cfg, SweepGaps(cfg, t, order, n - 1, now, ch), order[n - 1], now, ch)
  }

  /** The copies queued by the loop over the first n entries, each as stamped. */
  function QueuedBy(cfg: Config, t: Track, order: seq<U64>, n: nat, now: Time, ch: Choices): seq<Gap>
    requires n <= |order|
  {
    if n == 0 then []
    else
      var pending := SweepGaps(cfg, t, order, n - 1, now, ch).flow.pending;
      var s := order[n - 1];
      QueuedBy(cfg, t, order, n - 1, now, ch) +
      (if s in pending && Queues(cfg, pending[s], now, ch.room(s)) then [Stamped(cfg, pending[s], now, true)] else [])
  }

  function ForgetAbandoned(t: Track, now: Time): Track {
    t.(flow := t.flow.(abandoned := map s | s in t.flow.abandoned && now - t.flow.abandoned[s] <= ABANDONED_TTL
                                      :: t.flow.abandoned[s]))
  }

  function ProbeSeq(f: FlowState): U64 {
    (f.last + 1) % TWO64
  }

  /** The flow is quiet for longer than its own rhythm explains, and may still be asked about. */
  predicate WantsProbe(cfg: Config, f: FlowState, now: Time) {
    && cfg.tailProbe && f.probing == 0
    && f.ewma > 0 && f.samples >= MIN_SETTLED
    && f.probeMisses < MaxMisses(cfg)
    && now - f.lastSeen >= Max(cfg.tailIdle(f.ewma),
                               if cfg.tailProbeMinIdle <= 0 then DEFAULT_MIN_IDLE else cfg.tailProbeMinIdle)
  }

  function ProbeGap(cfg: Config, s: U64, now: Time): Gap {
    Gap(s, 0, 0, now, now + cfg.gapTTL, 0, true)
  }

  /** The copy of a probe put on the dispatch queue, if any. */
  function ProbeQueued(cfg: Config, f: FlowState, now: Time, ch: Choices): seq<Gap> {
    if WantsProbe(cfg, f, now) && ch.room(ProbeSeq(f)) then [ProbeGap(cfg, ProbeSeq(f), now)] else []
  }

  /** maybeProbeTail; a probe the queue refuses leaves no trace but the sent counter. */
  function MaybeProbe(cfg: Config, t: Track, now: Time, ch: Choices): Track {
    if !WantsProbe(cfg, t.flow, now) then t
    else
      var s := ProbeSeq(t.flow);
      var sent := t.books.(probesSent := t.books.probesSent + 1);
      if ch.room(s) then
        Track(t.flow.(probing := s,
                      pending := t.flow.pending[s := ProbeGap(cfg, s, now)]), sent)
      else Track(t.flow.(probing := 0, pending := t.flow.pending - {s}), sent)
  }

  /** The copies one sweep of a flow puts on the dispatch queue. */
  function SweepQueues(cfg: Config, t: Track, now: Time, ch: Choices): seq<Gap> {
    var u := ForgetAbandoned(t, now);
    var swept := SweepGaps(cfg, u, ch.order, |ch.order|, now, ch);
    QueuedBy(cfg, u, ch.order, |ch.order|, now, ch) +
    (if |swept.flow.pending| == 0 then ProbeQueued(cfg, swept.flow, now, ch) else [])
  }

  function SweepFlow(cfg: Config, t: Track, now: Time, ch: Choices): Track {
    var swept := SweepGaps(cfg, ForgetAbandoned(t, now), ch.order, |ch.order|, now, ch);
    if |swept.flow.pending| == 0 then MaybeProbe(cfg, swept, now, ch) else swept
  }

  /** The flow has nothing pending and has been silent past its lifetime. */
  predicate Idle(cfg: Config, f: FlowState, now: Time) {
    |f.pending| == 0 && now - f.lastSeen > (if cfg.tailTTL <= 0 then cfg.gapTTL else cfg.tailTTL)
  }

  // ----- what a dispatched NACK comes back with -----

  datatype Response =
    | NoAnswer                      // no endpoint known, or a control message of no known kind
    | Recovered                     // the frame came back and was taken, or a trusted ACK
    | Refused                       // the frame came back and was rejected, or cannot be consumed
    | Miss(endpoints: nat)          // MISS, with the number of endpoints known
    | UnicastLost(endpoints: nat)   // a unicast ACK whose frame never arrived
    | SendError(endpoints: nat)
    | TimedOut
    | Throttled(flags: Byte)

  function Pow2(n: nat): nat {
    if n == 0 then 1 else 2 * Pow2(n - 1)
  }

  /** A signed 64-bit left shift: bits past the top are lost, and 64 or more leave nothing. */
  function ShiftLeft(x: int, n: nat): int {
    if n >= 64 then 0 else ToInt64(x * Pow2(n))
  }

  /** Guarded shift: overflow shows up as a non-positive or oversized value and is capped. */
  function CappedShift(base: Time, n: nat, cap: Time): Time {
    var v := ShiftLeft(base, n);
    if v > cap || v <= 0 then cap else v
  }

  const THROTTLE_BASE: Time := 125_000_000

  /** Half the hold plus a random share of the other half. */
  function Jittered(hold: Time, share: nat): Time {
    TruncDiv(hold, 2) + share
  }

  /** throttleGap: hold at the same endpoint, at no cost to the retry budget. */
  function Throttle(cfg: Config, e: Gap, flags: Byte, now: Time, share: nat): Gap {
    e.(retries := e.retries + 1,
       nextAttempt := now + Jittered(CappedShift(THROTTLE_BASE, flags % 16, cfg.backoffMax), share))
  }

  /** advanceEndpoint on the stored entry. */
  function NextEndpoint(cfg: Config, e: Gap, immediate: bool, endpoints: nat, now: Time, share: nat): Gap {
    var idx := e.endpointIdx + 1;
    var exhausted := endpoints > 0 && idx >= endpoints;
    if immediate && !exhausted then
      e.(retries := e.retries + 1, endpointIdx := idx, failRounds := 0, nextAttempt := now)
    else
      e.(retries := e.retries + 1, endpointIdx := idx, failRounds := e.failRounds + 1,
         nextAttempt := now + Jittered(CappedShift(cfg.backoffBase, e.failRounds, cfg.backoffMax), share))
  }

  /** What a response does to the stored entry when it leaves it pending. */
  function Retried(cfg: Config, e: Gap, resp: Response, now: Time, share: nat): Gap {
    match resp
    case Miss(n) => NextEndpoint(cfg, e, true, n, now, share)
    case UnicastLost(n) => NextEndpoint(cfg, e, true, n, now, share)
    case SendError(n) => NextEndpoint(cfg, e, false, n, now, share)
    case TimedOut => NextEndpoint(cfg, e, false, 0, now, share)
    case Throttled(flags) => Throttle(cfg, e, flags, now, share)
    case _ => e
  }

  function ClearProbing(f: FlowState, seqNum: U64): FlowState {
    if f.probing == seqNum then f.(probing := 0) else f
  }

  /** abandonGap, on the dispatched copy: it does not check that the entry is still pending. */
  function AbandonGap(t: Track, copy: Gap, at: Time): Track {
    var r := t.(flow := ClearProbing(t.flow.(pending := t.flow.pending - {copy.seqNum}), copy.seqNum));
    if copy.speculative then r else BookAbandon(r, copy.seqNum, at)
  }

  /** probeMissed, on the dispatched copy. */
  function ProbeMissed(t: Track, copy: Gap): Track {
    var f := ClearProbing(t.flow.(pending := t.flow.pending - {copy.seqNum}), copy.seqNum);
    t.(flow := f.(probeMisses := f.probeMisses + 1))
  }

  /** The effect of a response to a dispatched copy, however late it comes. */
  function Respond(cfg: Config, t: Track, copy: Gap, resp: Response, now: Time, share: nat): Track {
    if resp.Refused? then AbandonGap(t, copy, now)
    else if resp.Miss? && copy.speculative then ProbeMissed(t, copy)
    else if copy.seqNum !in t.flow.pending then t
    else if resp.Recovered? then FillPending(t, copy.seqNum)
    else t.(flow := t.flow.(pending := t.flow.pending[copy.seqNum :=
                              Retried(cfg, t.flow.pending[copy.seqNum], resp, now, share)]))
  }

  // ----- a flow over its life -----

  /** The flow's entry in the tracker, if it has one, and its books. */
  datatype Cell = Cell(flow: Option<FlowState>, books: Books)

  datatype Op =
    | Observe(seqNum: U64, live: bool, now: Time, admit: bool, ch: Choices)
    | Request(seqs: seq<U64>, now: Time, admit: bool, ch: Choices)
    | FillFrame(seqNum: U64)
    | Sweep(now: Time, ch: Choices)
    | Answer(copy: Gap, resp: Response, now: Time, share: nat)

  function Put(t: Track): Cell {
    Cell(Some(t.flow), t.books)
  }

  ghost function Step(cfg: Config, c: Cell, op: Op): Cell {
    match op
    case Observe(seqNum, live, now, admit, ch) =>
      if seqNum == 0 then c
      else if c.flow.Some? then Put(ObserveFrame(cfg, Track(c.flow.value, c.books), seqNum, live, now, ch))
      else if admit then Put(ObserveFrame(cfg, Track(NewFlow(now), c.books), seqNum, live, now, ch))
      else c
    case Request(seqs, now, admit, ch) =>
      if seqs == [] then c
      else if c.flow.Some? then Put(RegisterList(cfg, Track(c.flow.value, c.books), seqs, |seqs|, now, ch))
      else if admit then Put(RegisterList(cfg, Track(NewFlow(now), c.books), seqs, |seqs|, now, ch))
      else c
    case FillFrame(seqNum) =>
      if c.flow.Some? then Put(Fill(Track(c.flow.value, c.books), seqNum)) else c
    case Sweep(now, ch) =>
      if c.flow.None? then c
      else
        var t := SweepFlow(cfg, Track(c.flow.value, c.books), now, ch);
        if Idle(cfg, t.flow, now) then Cell(None, t.books) else Put(t)
    case Answer(copy, resp, now, share) =>
      if c.flow.Some? then Put(Respond(cfg, Track(c.flow.value, c.books), copy, resp, now, share)) else c
  }

  ghost function Run(cfg: Config, c: Cell, ops: seq<Op>): Cell {
    if ops == [] then c else Step(cfg, Run(cfg, c, ops[..|ops| - 1]), ops[|ops| - 1])
  }
}
