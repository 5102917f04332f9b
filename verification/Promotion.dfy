/**
 What an object costs before it is complete. Its whole buffer is allocated once a sixteenth of its fragments,
 and at least eight of them, are in. How much is allocated for how much was sent is stated exactly.
 */
module Promotion {
  import opened Base
  import opened Grid
  import opened SlotObjects

  /** The bytes of the fragments held below index n. */
  function Sent(parts: map<nat, Part>, n: nat): nat {
    if n == 0 then 0 else Sent(parts, n - 1) + (if n - 1 in parts then |parts[n - 1].data| else 0)
  }

  function Held(parts: map<nat, Part>, n: nat): set<nat> {
    set i | i in parts && i < n
  }

  lemma {:induction false} SentBelow(parts: map<nat, Part>, objLen: nat, total: nat, fs: nat, n: nat)
    requires OnGrid(parts, objLen, total, fs) && n < total
    ensures Sent(parts, n) == |Held(parts, n)| * fs
  {
    if n == 0 {
      assert Held(parts, 0) == {};
    } else {
      hide Held;
      SentBelow(parts, objLen, total, fs, n - 1);
      HeldStep(parts, n);
      OneMore(|Held(parts, n - 1)|, fs);
    }
  }

  lemma HeldStep(parts: map<nat, Part>, n: nat)
    requires n >= 1
    ensures |Held(parts, n)| == |Held(parts, n - 1)| + (if n - 1 in parts then 1 else 0)
  {
    assert Held(parts, n) == Held(parts, n - 1) + (if n - 1 in parts then {n - 1} else {});
  }

  lemma OneMore(c: nat, fs: nat)
    ensures (c + 1) * fs == c * fs + fs
  {
  }

  lemma SentLast(parts: map<nat, Part>, objLen: nat, total: nat, fs: nat)
    requires total >= 1 && OnGrid(parts, objLen, total, fs)
    ensures Sent(parts, total) ==
            Sent(parts, total - 1) + (if total - 1 in parts then objLen - (total - 1) * fs else 0)
  {
  }

  lemma HeldCount(parts: map<nat, Part>, objLen: nat, total: nat, fs: nat)
    requires total >= 1 && OnGrid(parts, objLen, total, fs)
    ensures |Held(parts, total - 1)| == if total - 1 in parts then |parts| - 1 else |parts|
  {
    assert parts.Keys == Held(parts, total - 1) + (if total - 1 in parts then {total - 1} else {});
    assert |parts| == |parts.Keys|;
  }

  /** What was sent, from how many fragments are in and whether the final one is. */
  lemma SentIs(parts: map<nat, Part>, objLen: nat, total: nat, fs: nat)
    requires total >= 1 && OnGrid(parts, objLen, total, fs)
    ensures Sent(parts, total) ==
            if total - 1 in parts then (|parts| - 1) * fs + (objLen - (total - 1) * fs) else |parts| * fs
  {
    hide Sent, Held, OnGrid;
    SentBelow(parts, objLen, total, fs, total - 1);
    SentLast(parts, objLen, total, fs);
    HeldCount(parts, objLen, total, fs);
  }

  lemma Scaled(a: int, b: int, fs: nat)
    requires fs >= 1
    ensures a <= b <==> a * fs <= b * fs
  {
    if a <= b {
      ScaleMonotone(0, b - a, fs);
      assert b * fs == a * fs + (b - a) * fs;
    } else {
      AtLeastOnce(fs, a - b);
      assert a * fs == b * fs + (a - b) * fs;
    }
  }

  /** A sixteenth of the fragments, rounded down, covers the object sixteen times exactly in these cases. */
  lemma SixteenthCovers(total: nat)
    requires total >= 1
    ensures total <= 16 * PromoteAfter(total) <==> total <= 128 || total % 16 == 0
    ensures total <= 18 * PromoteAfter(total)
    ensures total - 1 <= 21 * (PromoteAfter(total) - 1)
  {
  }

  /** An evenly cut object is covered c times by n fragments exactly when its fragments are. */
  lemma EvenlyCut(objLen: nat, total: nat, fs: nat, n: nat, c: nat)
    requires fs >= 1 && (total - 1) * fs < objLen <= total * fs
    ensures objLen <= c * (n * fs) <==> total <= c * n
  {
    var q := c * n;
    Regroup(c, n, fs);
    Scaled(total, q, fs);
    Scaled(q, total - 1, fs);
  }

  lemma Regroup(c: int, n: int, fs: int)
    ensures c * (n * fs) == (c * n) * fs
  {
  }

  lemma Spread(a: int, b: int, fs: int)
    ensures (a - 16 * b) * fs == a * fs - 16 * (b * fs)
  {
    Regroup(16, b, fs);
  }

  /**
   At promotion, for an object whose final fragment is no longer than the others and is not among those sent:
   the object is at most sixteen times what was sent if and only if it has at most 128 fragments or a
   multiple of sixteen, and at most eighteen times in every case.
   */
  lemma SixteenTimesExactlyWhen(parts: map<nat, Part>, objLen: nat, total: nat, fs: nat)
    requires IsFragSize(objLen, total, fs) && OnGrid(parts, objLen, total, fs) && objLen <= total * fs
    requires |parts| == PromoteAfter(total) && total - 1 !in parts
    ensures objLen <= 16 * Sent(parts, total) <==> total <= 128 || total % 16 == 0
    ensures objLen <= 18 * Sent(parts, total)
  {
    hide PromoteAfter, Sent, OnGrid;
    SentIs(parts, objLen, total, fs);
    SixteenthCovers(total);
    EvenlyCut(objLen, total, fs, |parts|, 16);
    EvenlyCut(objLen, total, fs, |parts|, 18);
  }

  /** Without it, and however long the final fragment is, the bound holds exactly up to this length of it. */
  lemma SixteenTimesWithoutFinal(parts: map<nat, Part>, objLen: nat, total: nat, fs: nat, last: nat)
    requires IsFragSize(objLen, total, fs) && OnGrid(parts, objLen, total, fs) && last == objLen - (total - 1) * fs
    requires |parts| == PromoteAfter(total) && total - 1 !in parts
    ensures objLen <= 16 * Sent(parts, total) <==> last + (total - 1 - 16 * PromoteAfter(total)) * fs <= 0
  {
    hide PromoteAfter, Sent, OnGrid;
    SentIs(parts, objLen, total, fs);
    Spread(total - 1, PromoteAfter(total), fs);
  }

  /** With the final fragment, of last bytes, among those sent, the bound depends on its length. */
  lemma SixteenTimesWithFinal(parts: map<nat, Part>, objLen: nat, total: nat, fs: nat, last: nat)
    requires IsFragSize(objLen, total, fs) && OnGrid(parts, objLen, total, fs) && last == objLen - (total - 1) * fs
    requires |parts| == PromoteAfter(total) && total - 1 in parts
    ensures objLen <= 16 * Sent(parts, total) <==> (total - 1 - 16 * (PromoteAfter(total) - 1)) * fs <= 15 * last
  {
    hide PromoteAfter, Sent, OnGrid;
    SentIs(parts, objLen, total, fs);
    Spread(total - 1, PromoteAfter(total) - 1, fs);
  }

  /** Whichever fragments were sent, an allocated object is at most twenty-one times what was sent. */
  lemma AllocationIsBounded(parts: map<nat, Part>, objLen: nat, total: nat, fs: nat)
    requires IsFragSize(objLen, total, fs) && OnGrid(parts, objLen, total, fs) && objLen <= total * fs
    requires |parts| >= PromoteAfter(total)
    ensures objLen <= 21 * Sent(parts, total)
  {
    hide PromoteAfter, Sent, OnGrid;
    var m := |parts|;
    SentIs(parts, objLen, total, fs);
    SixteenthCovers(total);
    EvenlyCut(objLen, total, fs, m, 21);
    Regroup(21, m - 1, fs);
    Scaled(total - 1, 21 * (m - 1), fs);
  }

  /** An object of 143 one-byte fragments is allocated for 8 bytes sent: more than sixteen times. */
  lemma SixteenTimesFails(parts: map<nat, Part>)
    requires OnGrid(parts, 143, 143, 1) && |parts| == PromoteAfter(143) && 142 !in parts
    ensures PromoteAfter(143) == 8 && Sent(parts, 143) == 8 && 143 > 16 * Sent(parts, 143)
  {
    SentIs(parts, 143, 143, 1);
  }

  /** A final fragment longer than the others defeats every factor: the length check allows it. */
  lemma LongFinalDefeatsAnyFactor(factor: nat, parts: map<nat, Part>)
    requires OnGrid(parts, 9 + 8 * factor, 9, 1) && |parts| == PromoteAfter(9) && 8 !in parts
    ensures IsFragSize(9 + 8 * factor, 9, 1) && 9 + 8 * factor > factor * Sent(parts, 9)
  {
    SentIs(parts, 9 + 8 * factor, 9, 1);
  }
}
