/**
 Retries end. Walking the retry tiers is free but happens at most once, every other failure
 spends the retry budget, THROTTLED holds spend nothing yet cannot outlive the gap's deadline, and
 the exponential backoff is exact in 64-bit arithmetic.
 */
module FlowRetry {
  import opened Base
  import opened Flow
  import opened FlowLedger

  // ----- the retry budget -----

  datatype Try = Try(resp: Response, now: Time, share: nat)

  /** An unsuccessful outcome other than THROTTLED, seen with at most n endpoints known. */
  predicate Fails(t: Try, n: nat) {
    match t.resp
    case Miss(k) => 0 < k <= n
    case UnicastLost(k) => 0 < k <= n
    case SendError(k) => 0 < k <= n
    case TimedOut => true
    case _ => false
  }

  ghost function Retry(cfg: Config, e: Gap, tries: seq<Try>): Gap {
    if tries == [] then e
    else
      var t := tries[|tries| - 1];
      Retried(cfg, Retry(cfg, e, tries[..|tries| - 1]), t.resp, t.now, t.share)
  }

  /** How many of the tries fail. */
  function Failures(tries: seq<Try>, n: nat): nat {
    if tries == [] then 0
    else Failures(tries[..|tries| - 1], n) + (if Fails(tries[|tries| - 1], n) then 1 else 0)
  }

  /** Every try fails, is told to hold, or brings no answer at all. */
  ghost predicate FailsOrHolds(tries: seq<Try>, n: nat) {
    forall i :: 0 <= i < |tries| ==> Fails(tries[i], n) || tries[i].resp.Throttled? || tries[i].resp.NoAnswer?
  }

  /** Each failure moves on one endpoint, and only the first n - 1 of them can be free. */
  lemma {:induction false} BudgetIsSpent(cfg: Config, e: Gap, tries: seq<Try>, n: nat)
    requires n >= 1 && FailsOrHolds(tries, n)
    ensures var r := Retry(cfg, e, tries);
            && r.endpointIdx == e.endpointIdx + Failures(tries, n)
            && r.failRounds + (n - 1) >= Failures(tries, n)
            && r.deadline == e.deadline && r.seqNum == e.seqNum && r.speculative == e.speculative
  {
    hide CappedShift, Jittered;
    if tries != [] {
      var front := tries[..|tries| - 1];
      assert forall i :: 0 <= i < |front| ==> front[i] == tries[i];
      BudgetIsSpent(cfg, e, front, n);
      assert Fails(tries[|tries| - 1], n) || tries[|tries| - 1].resp.Throttled? || tries[|tries| - 1].resp.NoAnswer?;
    }
  }

  // ----- the deadline -----

  /** A sweep visits every entry, so none that is to be given up stays. */
  lemma {:induction false} SweptGapsStay(cfg: Config, t: Track, order: seq<U64>, n: nat, now: Time, ch: Choices)
    requires n <= |order|
    ensures var r := SweepGaps(cfg, t, order, n, now, ch).flow.pending;
            && (forall s :: s in r ==> s in t.flow.pending && r[s].deadline == t.flow.pending[s].deadline &&
                                       r[s].failRounds == t.flow.pending[s].failRounds)
            && (forall j :: 0 <= j < n && order[j] in r ==> !GivesUp(cfg, r[order[j]], now))
  {
    if n > 0 {
      SweptGapsStay(cfg, t, order, n - 1, now, ch);
    }
  }

  /** After a sweep no gap is past its deadline or out of retries, but for a probe just issued. */
  lemma SweepLeavesHopeful(cfg: Config, t: Track, now: Time, ch: Choices)
    requires Walks(ch.order, t.flow.pending)
    ensures var r := SweepFlow(cfg, t, now, ch).flow.pending;
            forall s :: s in r ==>
                          || (s in t.flow.pending && r[s].deadline == t.flow.pending[s].deadline &&
                              now <= r[s].deadline && r[s].failRounds < cfg.maxRetries)
                          || (r[s].speculative && r[s].deadline == now + cfg.gapTTL)
  {
    hide SweepGaps, WantsProbe;
    var old_ := ForgetAbandoned(t, now);
    SweptGapsStay(cfg, old_, ch.order, |ch.order|, now, ch);
    var swept := SweepGaps(cfg, old_, ch.order, |ch.order|, now, ch);
    forall s | s in swept.flow.pending
      ensures !GivesUp(cfg, swept.flow.pending[s], now)
    {
      assert s in ch.order;
    }
    assert |swept.flow.pending| == 0 ==> swept.flow.pending.Keys == {};
  }

  // ----- backoff -----

  lemma {:induction false} Pow2Positive(n: nat)
    ensures Pow2(n) >= 1
  {
    if n > 0 {
      Pow2Positive(n - 1);
    }
  }

  lemma {:induction false} Pow2Add(a: nat, b: nat)
    ensures Pow2(a + b) == Pow2(a) * Pow2(b)
  {
    if a > 0 {
      Pow2Add(a - 1, b);
      assert Pow2(a + b) == 2 * (Pow2(a - 1) * Pow2(b));
    }
  }

  lemma Pow2At64()
    ensures Pow2(64) == TWO64 && Pow2(63) == TWO63
  {
    Pow2Add(8, 8);
    Pow2Add(16, 16);
    Pow2Add(32, 32);
    assert Pow2(8) == 256;
    assert Pow2(64) == 2 * Pow2(63);
  }

  lemma ProductMonotone(a: nat, b: nat, c: nat)
    requires b <= c
    ensures a * b <= a * c
  {
    assert a * c == a * b + a * (c - b);
  }

  lemma MulRegroup(q: int, k: int, p: int)
    ensures q * (k * p) == (q * k) * p
  {
  }

  lemma MulDifference(a: int, b: int, p: int)
    ensures (a - b) * p == a * p - b * p
  {
  }

  lemma PositiveMultiple(m: int, p: nat)
    requires m * p > 0
    ensures m * p >= p
  {
    if m <= 0 {
      assert m * p == -(p * (-m));
      ProductMonotone(p, 0, -m);
      assert false;
    }
    ProductMonotone(p, 1, m);
  }

  /** A positive wrapped multiple of p is still a multiple of p, when p divides 2^64. */
  lemma WrappedMultiple(base: nat, p: nat, k: nat)
    requires k * p == TWO64 && ToInt64(base * p) > 0
    ensures ToInt64(base * p) >= p
  {
    var v := base * p;
    var q := v / TWO64;
    assert ToInt64(v) == v - q * TWO64;
    MulRegroup(q, k, p);
    MulDifference(base, q * k, p);
    PositiveMultiple(base - q * k, p);
  }

  lemma WrappedShift(base: nat, n: nat)
    requires n < 64 && ToInt64(base * Pow2(n)) > 0
    ensures ToInt64(base * Pow2(n)) >= Pow2(n)
  {
    Pow2Add(64 - n, n);
    Pow2At64();
    WrappedMultiple(base, Pow2(n), Pow2(64 - n));
  }

  lemma LargePowerBeatsCap(base: nat, n: nat, cap: nat)
    requires base >= 1 && base * cap < TWO63 <= base * Pow2(n)
    ensures cap < Pow2(n)
  {
    if Pow2(n) <= cap {
      ProductMonotone(base, Pow2(n), cap);
      assert false;
    }
  }

  lemma LargePower(n: nat)
    requires n >= 64
    ensures Pow2(n) >= TWO64
  {
    Pow2Add(n - 64, 64);
    Pow2At64();
    Pow2Positive(n - 64);
    ProductMonotone(TWO64, 1, Pow2(n - 64));
  }

  /**
   Where base * cap fits in 63 bits, the guarded 64-bit shift is exactly the capped doubling, for
   every number of doublings: an overflowing shift never slips under the cap.
   */
  lemma BackoffIsExact(base: nat, n: nat, cap: nat)
    requires base >= 1 && cap >= 1 && base * cap < TWO63
    ensures CappedShift(base, n, cap) == Min(base * Pow2(n), cap)
  {
    hide Pow2, ToInt64;
    Pow2Positive(n);
    var v := base * Pow2(n);
    AtLeastFactor(cap, base);
    AtLeastFactor(Pow2(n), base);
    if n >= 64 {
      LargePower(n);
    } else if v >= TWO63 {
      LargePowerBeatsCap(base, n, cap);
      if ToInt64(v) > 0 {
        WrappedShift(base, n);
      }
    }
  }

  lemma AtLeastFactor(a: nat, b: nat)
    requires b >= 1
    ensures b * a >= a
  {
    ProductMonotone(a, 1, b);
  }

  /** Bits of base are shifted out at the top, and what stays of it is a positive wait below the cap. */
  predicate Slips(base: nat, n: nat, cap: nat)
    requires n < 64
  {
    Pow2Positive(64 - n);
    base >= Pow2(64 - n) && 0 < (base % Pow2(64 - n)) * Pow2(n) < cap
  }

  /** A shift by n keeps the low 64 - n bits. */
  lemma ShiftKeepsLow(base: nat, n: nat)
    requires n < 64
    ensures Pow2(64 - n) >= 1 && 0 <= (base % Pow2(64 - n)) * Pow2(n) < TWO64
    ensures (base * Pow2(n)) % TWO64 == (base % Pow2(64 - n)) * Pow2(n)
    ensures base < Pow2(64 - n) <==> base * Pow2(n) < TWO64
  {
    Pow2Positive(n);
    Pow2Positive(64 - n);
    Pow2Add(64 - n, n);
    Pow2At64();
    LowBits(base, Pow2(64 - n), Pow2(n));
  }

  lemma LowBits(base: nat, m: nat, p: nat)
    requires m >= 1 && p >= 1 && m * p == TWO64
    ensures 0 <= (base % m) * p < TWO64 && (base * p) % TWO64 == (base % m) * p
    ensures base < m <==> base * p < TWO64
  {
    var a, b := base / m, base % m;
    assert base == a * m + b;
    assert (a * m + b) * p == a * (m * p) + b * p;
    ProductMonotone(p, b + 1, m);
    assert p * (b + 1) == b * p + p && p * m == TWO64;
    ModUnique(base * p, a, b * p);
    if base < m {
      ProductMonotone(p, base + 1, m);
      assert p * (base + 1) == base * p + p;
    } else {
      ProductMonotone(p, m, base);
    }
  }

  lemma ModUnique(x: nat, q: nat, r: nat)
    requires x == q * TWO64 + r && r < TWO64
    ensures x % TWO64 == r
  {
  }

  lemma GuardOn(v: nat, cap: nat)
    requires v >= 1 && 1 <= cap < TWO63
    ensures (if ToInt64(v) > cap || ToInt64(v) <= 0 then cap else ToInt64(v)) == Min(v, cap) <==>
            !(v >= TWO64 && 0 < v % TWO64 < cap)
  {
  }

  /** For a single shift the guard is right exactly when it does not slip. */
  lemma GuardIsExactWhen(base: nat, n: nat, cap: nat)
    requires base >= 1 && 1 <= cap < TWO63 && n < 64
    ensures CappedShift(base, n, cap) == Min(base * Pow2(n), cap) <==> !Slips(base, n, cap)
  {
    hide Pow2, ToInt64, Min;
    Pow2Positive(n);
    AtLeastFactor(base, Pow2(n));
    ShiftKeepsLow(base, n);
    GuardOn(base * Pow2(n), cap);
  }

  /** The guard is right for every number of doublings exactly when none of the first 64 slips. */
  lemma GuardIsAlwaysExactWhen(base: nat, cap: nat)
    requires base >= 1 && 1 <= cap < TWO63
    ensures (forall n: nat :: CappedShift(base, n, cap) == Min(base * Pow2(n), cap)) <==>
            (forall n: nat :: n < 64 ==> !Slips(base, n, cap))
  {
    hide Pow2, ToInt64, Slips;
    forall n: nat
      ensures n < 64 ==> (CappedShift(base, n, cap) == Min(base * Pow2(n), cap) <==> !Slips(base, n, cap))
      ensures n >= 64 ==> CappedShift(base, n, cap) == Min(base * Pow2(n), cap)
    {
      if n < 64 {
        GuardIsExactWhen(base, n, cap);
      } else {
        LargePower(n);
        AtLeastFactor(Pow2(n), base);
      }
    }
  }

  /** Without the bound on the product the guard can fail: the wait comes out below the cap. */
  lemma BackoffCanSlip()
    ensures var base, cap := 0x5000_0000_0000_0000, 0x7FFF_FFFF_FFFF_FFFF;
            CappedShift(base, 2, cap) == 0x4000_0000_0000_0000 < Min(base * Pow2(2), cap)
  {
    assert Pow2(2) == 4;
  }

  /** The hint of a THROTTLED answer never overflows: at most fifteen doublings of 125 ms. */
  lemma ThrottleHoldIsExact(bucket: nat, cap: nat)
    requires bucket < 16
    ensures CappedShift(THROTTLE_BASE, bucket, cap) == Min(THROTTLE_BASE * Pow2(bucket), cap)
  {
    Pow2Positive(bucket);
    Pow2Add(bucket, 15 - bucket);
    Pow2Positive(15 - bucket);
    ProductMonotone(Pow2(bucket), 1, Pow2(15 - bucket));
    assert Pow2(15) == 32768 by {
      Pow2Add(7, 8);
    }
  }

  /** The jittered wait lies between half the hold, rounded down, and the hold. */
  lemma JitterWithin(hold: nat, share: nat)
    requires share <= hold / 2
    ensures hold / 2 <= Jittered(hold, share) <= hold
  {
  }

  /**
   A THROTTLED answer holds the gap between half of and all of min(125 ms * 2^bucket, max), where the bucket
   is the low nibble of the flags. It stays with its endpoint and keeps its budget and its deadline.
   */
  lemma ThrottledWaits(cfg: Config, e: Gap, flags: Byte, now: Time, share: nat)
    requires cfg.backoffMax >= 0 && share <= Min(125_000_000 * Pow2(flags % 16), cfg.backoffMax) / 2
    ensures var r := Retried(cfg, e, Throttled(flags), now, share);
            var hold := Min(125_000_000 * Pow2(flags % 16), cfg.backoffMax);
            && now + hold / 2 <= r.nextAttempt <= now + hold
            && r == e.(retries := e.retries + 1, nextAttempt := r.nextAttempt)
  {
    hide CappedShift, Pow2;
    ThrottleHoldIsExact(flags % 16, cfg.backoffMax);
    HoldIsPositive(125_000_000, flags % 16, cfg.backoffMax);
    JitterWithin(Min(125_000_000 * Pow2(flags % 16), cfg.backoffMax), share);
  }

  /** A failure with no deeper endpoint to go to at once: a timeout, a send error, or a miss at the deepest one. */
  predicate Exhausts(e: Gap, resp: Response) {
    match resp
    case TimedOut => true
    case SendError(_) => true
    case Miss(n) => 0 < n <= e.endpointIdx + 1
    case UnicastLost(n) => 0 < n <= e.endpointIdx + 1
    case _ => false
  }

  /** A MISS, or a unicast repair that never came, with a deeper endpoint still to ask. */
  predicate Escalates(e: Gap, resp: Response) {
    (resp.Miss? || resp.UnicastLost?) && !Exhausts(e, resp)
  }

  /**
   Every failed round waits between half of and all of min(base * 2^(rounds - 1), max), moves on one
   endpoint and spends one of the budget.
   */
  lemma FailedRoundWaits(cfg: Config, e: Gap, resp: Response, now: Time, share: nat)
    requires Exhausts(e, resp)
    requires cfg.backoffBase >= 1 && cfg.backoffMax >= 1 && cfg.backoffBase * cfg.backoffMax < TWO63
    requires share <= Min(cfg.backoffBase * Pow2(e.failRounds), cfg.backoffMax) / 2
    ensures var r := Retried(cfg, e, resp, now, share);
            var hold := Min(cfg.backoffBase * Pow2(r.failRounds - 1), cfg.backoffMax);
            && now + hold / 2 <= r.nextAttempt <= now + hold
            && r == e.(retries := e.retries + 1, failRounds := e.failRounds + 1, endpointIdx := e.endpointIdx + 1,
                       nextAttempt := r.nextAttempt)
  {
    hide CappedShift, Pow2, Jittered, Retried, Exhausts, Min;
    RoundIs(cfg, e, resp, now, share);
    BackoffIsExact(cfg.backoffBase, e.failRounds, cfg.backoffMax);
    HoldIsPositive(cfg.backoffBase, e.failRounds, cfg.backoffMax);
    JitterWithin(Min(cfg.backoffBase * Pow2(e.failRounds), cfg.backoffMax), share);
  }

  /** What a failed round does to the entry, in the code's own arithmetic. */
  lemma RoundIs(cfg: Config, e: Gap, resp: Response, now: Time, share: nat)
    requires Exhausts(e, resp)
    ensures Retried(cfg, e, resp, now, share) ==
            e.(retries := e.retries + 1, failRounds := e.failRounds + 1, endpointIdx := e.endpointIdx + 1,
               nextAttempt := now + Jittered(CappedShift(cfg.backoffBase, e.failRounds, cfg.backoffMax), share))
  {
    hide CappedShift, Jittered;
  }

  /** An outcome that brings no answer leaves the flow as it was. */
  lemma NoAnswerChangesNothing(cfg: Config, c: Cell, copy: Gap, now: Time, share: nat)
    ensures Step(cfg, c, Answer(copy, NoAnswer, now, share)) == c
  {
    if c.flow.Some? && copy.seqNum in c.flow.value.pending {
      var pending := c.flow.value.pending;
      assert pending[copy.seqNum := pending[copy.seqNum]] == pending;
    }
  }

  /** With a deeper endpoint still to ask the gap goes there at once and has its whole budget back. */
  lemma EscalationIsFree(cfg: Config, e: Gap, resp: Response, now: Time, share: nat)
    requires Escalates(e, resp)
    ensures Retried(cfg, e, resp, now, share) ==
            e.(retries := e.retries + 1, failRounds := 0, endpointIdx := e.endpointIdx + 1, nextAttempt := now)
  {
  }

  lemma HoldIsPositive(base: nat, n: nat, cap: nat)
    ensures Min(base * Pow2(n), cap) >= 0
  {
  }
}
