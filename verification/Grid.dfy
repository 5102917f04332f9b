/**
 The BRC-130 offset grid. A fragment carries no offset: fragment i of an object sits at
 i * fragSize, every fragment but the last is fragSize bytes long, and the last one holds the
 rest. This module states that shape, the length check that enforces it one fragment at a time,
 and the fact that a buffer filled through the grid is the concatenation of its fragments.
 */
module Grid {
  import opened Base

  /** A stored fragment: its bytes and the sequence number it was stamped with. */
  datatype Part = Part(data: seq<Byte>, seqNum: U64)

  /** The one legal shape of an object of objLen bytes in total fragments of fs bytes. */
  predicate IsFragSize(objLen: nat, total: nat, fs: nat) {
    total >= 1 && fs >= 1 && (total - 1) * fs < objLen && (total == 1 ==> fs == objLen)
  }

  /** The length of fragment i on the grid. */
  function FragLen(objLen: nat, total: nat, fs: nat, i: nat): (n: int)
    ensures IsFragSize(objLen, total, fs) && i < total ==> n >= 1
  {
    if i == total - 1 then objLen - (total - 1) * fs else fs
  }

  /** Fragment i of the object p, as a fragmenter using fs-byte fragments cuts it. */
  function Cut(p: seq<Byte>, total: nat, fs: nat, i: nat): (d: seq<Byte>)
    requires IsFragSize(|p|, total, fs) && i < total
    ensures |d| == FragLen(|p|, total, fs, i)
  {
    WindowInBounds(|p|, total, fs, i);
    p[i * fs..i * fs + FragLen(|p|, total, fs, i)]
  }

  lemma ScaleMonotone(i: nat, j: nat, fs: nat)
    requires i <= j
    ensures i * fs <= j * fs
  {
    assert (j - i) * fs >= 0;
    assert j * fs == i * fs + (j - i) * fs;
  }

  /** Every fragment's window lies inside the object. */
  lemma WindowInBounds(objLen: nat, total: nat, fs: nat, i: nat)
    requires IsFragSize(objLen, total, fs) && i < total
    ensures i * fs + FragLen(objLen, total, fs, i) <= objLen
    ensures i == total - 1 ==> i * fs + FragLen(objLen, total, fs, i) == objLen
    ensures i < total - 1 ==> i * fs + FragLen(objLen, total, fs, i) == (i + 1) * fs
  {
    if i < total - 1 {
      ScaleMonotone(i + 1, total - 1, fs);
      assert (i + 1) * fs == i * fs + fs;
    }
  }

  /** Windows of different fragments do not overlap. */
  lemma WindowsDisjoint(objLen: nat, total: nat, fs: nat, i: nat, j: nat)
    requires IsFragSize(objLen, total, fs) && i < j < total
    ensures i * fs + FragLen(objLen, total, fs, i) <= j * fs
  {
    WindowInBounds(objLen, total, fs, i);
    ScaleMonotone(i + 1, j, fs);
  }

  /**
   checkFragLen: the fragment size implied by a fragment of n bytes at position index, given the
   size already implied by earlier fragments (known, 0 if none).
   */
  function CheckFragLen(objLen: nat, total: nat, known: nat, index: nat, n: nat): (r: Option<nat>)
  {
    var implied := ImpliedFragSize(objLen, total, index, n);
    if implied.None? || (known != 0 && known != implied.value) then None else implied
  }

  function ImpliedFragSize(objLen: nat, total: nat, index: nat, n: nat): (r: Option<nat>)
  {
    if n == 0 then None
    else if total <= 1 then
      if n != objLen then None else Some(n)
    else if index == total - 1 then
      var rem := objLen - n;
      if rem <= 0 || rem % (total - 1) != 0 then None else Some(rem / (total - 1))
    else if objLen <= (total - 1) * n then None
    else Some(n)
  }

  /**
   The length check answers Some(fs) exactly when fs is a legal fragment size of the object, the
   fragment has the length the grid gives its position, and no earlier fragment implied another size.
   */
  lemma CheckFragLenExact(objLen: nat, total: nat, known: nat, index: nat, n: nat, fs: nat)
    requires index < total
    ensures CheckFragLen(objLen, total, known, index, n) == Some(fs) <==>
            && IsFragSize(objLen, total, fs)
            && n == FragLen(objLen, total, fs, index)
            && (known == 0 || known == fs)
  {
    if index == total - 1 && total > 1 {
      FinalFragSize(objLen, total, n, fs);
    }
  }

  /** The final fragment's case: n is the remainder after total - 1 fragments of fs bytes. */
  lemma FinalFragSize(objLen: nat, total: nat, n: nat, fs: nat)
    requires total > 1
    ensures ImpliedFragSize(objLen, total, total - 1, n) == Some(fs) <==>
            IsFragSize(objLen, total, fs) && n == FragLen(objLen, total, fs, total - 1)
  {
    var rem := objLen - n;
    if rem > 0 {
      if (total - 1) * fs == rem {
        QuotientUnique(rem, total - 1, fs);
      } else if rem % (total - 1) == 0 {
        assert (total - 1) * (rem / (total - 1)) == rem;
      }
    }
  }

  lemma AtLeastOnce(b: nat, d: nat)
    requires d >= 1
    ensures b * d >= b
  {
    assert b * d == b + b * (d - 1);
  }

  /** The quotient of a multiple of b is the factor. */
  lemma QuotientUnique(a: nat, b: nat, q: nat)
    requires b >= 1 && b * q == a
    ensures a % b == 0 && a / b == q
  {
    var e := a / b;
    assert a == b * e + a % b;
    if q > e {
      assert b * q == b * e + b * (q - e);
      AtLeastOnce(b, q - e);
      assert false;
    } else if q < e {
      assert b * e == b * q + b * (e - q);
      AtLeastOnce(b, e - q);
      assert false;
    }
  }

  /** Every stored fragment has the index and length the grid allows. */
  ghost predicate OnGrid(parts: map<nat, Part>, objLen: nat, total: nat, fs: nat) {
    forall i :: i in parts ==> i < total && |parts[i].data| == FragLen(objLen, total, fs, i)
  }

  ghost predicate HasFirst(parts: map<nat, Part>, n: nat) {
    forall i :: 0 <= i < n ==> i in parts
  }

  /** Index-order concatenation of the first n fragments: what reassembly is meant to produce. */
  function Join(parts: map<nat, Part>, n: nat): seq<Byte> {
    if n == 0 then []
    else Join(parts, n - 1) + (if n - 1 in parts then parts[n - 1].data else [])
  }

  function EndOf(objLen: nat, total: nat, fs: nat, n: nat): nat {
    if n == total then objLen else n * fs
  }

  /** The buffer holds each stored fragment below n at its grid offset. */
  ghost predicate Placed(buf: seq<Byte>, parts: map<nat, Part>, total: nat, fs: nat, n: nat)
    requires IsFragSize(|buf|, total, fs)
  {
    forall i :: 0 <= i < n && i < total && i in parts ==> Cut(buf, total, fs, i) == parts[i].data
  }

  /** The concatenation has exactly the declared length. */
  lemma {:induction false} JoinLength(parts: map<nat, Part>, objLen: nat, total: nat, fs: nat, n: nat)
    requires IsFragSize(objLen, total, fs) && n <= total
    requires OnGrid(parts, objLen, total, fs) && HasFirst(parts, n)
    ensures |Join(parts, n)| == EndOf(objLen, total, fs, n)
  {
    if n > 0 {
      JoinLength(parts, objLen, total, fs, n - 1);
      WindowInBounds(objLen, total, fs, n - 1);
    }
  }

  lemma NextWindow(buf: seq<Byte>, total: nat, fs: nat, n: nat)
    requires 1 <= n <= total && IsFragSize(|buf|, total, fs)
    ensures EndOf(|buf|, total, fs, n - 1) <= EndOf(|buf|, total, fs, n) <= |buf|
    ensures buf[..EndOf(|buf|, total, fs, n)] ==
            buf[..EndOf(|buf|, total, fs, n - 1)] + Cut(buf, total, fs, n - 1)
  {
    WindowInBounds(|buf|, total, fs, n - 1);
  }

  /** A buffer with every fragment at its offset is, up to each fragment's end, the concatenation. */
  lemma {:induction false} PlacedIsJoin(buf: seq<Byte>, parts: map<nat, Part>, total: nat, fs: nat, n: nat)
    requires IsFragSize(|buf|, total, fs) && n <= total
    requires HasFirst(parts, n) && Placed(buf, parts, total, fs, n)
    ensures EndOf(|buf|, total, fs, n) <= |buf|
    ensures buf[..EndOf(|buf|, total, fs, n)] == Join(parts, n)
  {
    if n > 0 {
      PlacedIsJoin(buf, parts, total, fs, n - 1);
      NextWindow(buf, total, fs, n);
      assert parts[n - 1].data == Cut(buf, total, fs, n - 1);
    }
  }

  /** Cutting an object into fragments and concatenating them gives the object back. */
  lemma JoinOfCuts(p: seq<Byte>, parts: map<nat, Part>, total: nat, fs: nat)
    requires IsFragSize(|p|, total, fs)
    requires HasFirst(parts, total)
    requires forall i :: 0 <= i < total ==> parts[i].data == Cut(p, total, fs, i)
    ensures Join(parts, total) == p
  {
    PlacedIsJoin(p, parts, total, fs, total);
    assert p[..|p|] == p;
  }
}
