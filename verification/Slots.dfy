/**
 One reassembly slot as a value: the fragments kept so far, by index, and what the slot would do
 with the next one. The slot that works in place on buffers (module SlotObjects) is proved against it.
 */
module Slots {
  import opened Base
  import opened Grid

  const VER_V4: Byte := 4
  const VER_V5: Byte := 5
  const VER_V9: Byte := 9

  /** A decoded BRC-130 fragment. */
  datatype Fragment = Fragment(
    txId: Id32, subtreeId: Id32, hashKey: U64, seqNum: U64,
    origLen: U32, total: U16, index: U16, ver: Byte, msgType: Byte, data: seq<Byte>)

  /**
   slotKey: a BEEF (V9) fragment is keyed by the pair it was emitted for, every other one by its
   identifier alone. The pair's SHA-256 is kept symbolic, so equal keys mean equal pairs.
   */
  datatype Key = Single(id: Id32) | Pair(content: Id32, topic: Id32)

  function SlotKey(f: Fragment): Key {
    if f.ver != VER_V9 then Single(f.txId) else Pair(f.txId, f.subtreeId)
  }

  datatype Slot = Slot(
    key: Key, txId: Id32, subtreeId: Id32, hashKey: U64, seqNum: U64,
    origLen: U32, total: U16, ver: Byte, msgType: Byte,
    born: Time, deadline: Time, requested: bool, extended: bool,
    fragSize: nat, parts: map<nat, Part>)

  /** The slot's identifiers are those its key was made from. */
  predicate Keyed(s: Slot) {
    s.key == if s.ver != VER_V9 then Single(s.txId) else Pair(s.txId, s.subtreeId)
  }

  /** The fragments lie on one grid, whose size is known once there is a fragment. */
  ghost predicate ShapeOk(origLen: nat, total: nat, fragSize: nat, parts: map<nat, Part>) {
    && total >= 1
    && (|parts| == 0 <==> fragSize == 0)
    && (fragSize != 0 ==> IsFragSize(origLen, total, fragSize) && OnGrid(parts, origLen, total, fragSize))
  }

  /** What every slot satisfies, whether or not it has a fragment yet. */
  ghost predicate SlotOk(s: Slot) {
    ShapeOk(s.origLen, s.total, s.fragSize, s.parts)
  }

  function OpenSlot(f: Fragment, now: Time, ttl: Time): (s: Slot)
    ensures f.total >= 1 ==> SlotOk(s)
  {
    Slot(SlotKey(f), f.txId, f.subtreeId, f.hashKey, f.seqNum, f.origLen, f.total, f.ver, f.msgType,
         now, now + ttl, false, false, 0, map[])
  }

  datatype Intake = Ignored | Bad | Stored(slot: Slot)

  /** What a slot does with one fragment of its own key. */
  function Take(s: Slot, f: Fragment): (r: Intake) {
    if f.total != s.total || f.index >= s.total then Ignored
    else if f.index in s.parts then Ignored
    else
      var fs := CheckFragLen(s.origLen, s.total, s.fragSize, f.index, |f.data|);
      if fs.None? then Bad
      else Stored(s.(fragSize := fs.value, parts := s.parts[f.index := Part(f.data, f.seqNum)]))
  }

  /** Storing a fragment keeps the slot on its grid, adds exactly that fragment and fixes the size. */
  lemma TakeStores(s: Slot, f: Fragment)
    requires SlotOk(s) && Take(s, f).Stored?
    ensures var t := Take(s, f).slot;
            && SlotOk(t)
            && |t.parts| == |s.parts| + 1
            && t.parts.Keys == s.parts.Keys + {f.index as nat}
            && IsFragSize(s.origLen, s.total, t.fragSize)
            && (s.fragSize != 0 ==> t.fragSize == s.fragSize)
            && |f.data| == FragLen(s.origLen, s.total, t.fragSize, f.index)
  {
    var t := Take(s, f).slot;
    CheckFragLenExact(s.origLen, s.total, s.fragSize, f.index, |f.data|, t.fragSize);
    assert t.parts.Keys == s.parts.Keys + {f.index as nat};
    assert |s.parts| == 0 ==> s.parts == map[];
  }

  /** A slot's fragments are all in exactly when their count reaches the total. */
  lemma CountIsComplete(s: Slot)
    requires SlotOk(s)
    ensures |s.parts| <= s.total
    ensures |s.parts| == s.total <==> HasFirst(s.parts, s.total)
  {
    assert |s.parts| == 0 ==> s.parts == map[];
    BelowSize(s.parts.Keys, s.total);
  }

  /** What a slot delivers: the index-order concatenation of its fragments. */
  function Payload(s: Slot): seq<Byte> {
    Join(s.parts, s.total)
  }

  /** A full slot's payload has exactly the declared length. */
  lemma PayloadLength(s: Slot)
    requires SlotOk(s) && |s.parts| == s.total
    ensures |Payload(s)| == s.origLen
  {
    CountIsComplete(s);
    JoinLength(s.parts, s.origLen, s.total, s.fragSize, s.total);
  }

  // ----- which sequence numbers are missing -----

  /** The first received neighbour of i at distance d or more, the left one first. */
  function Nearest(have: set<nat>, total: nat, i: nat, d: nat): (r: Option<nat>)
    decreases total - d
  {
    if d >= total then None
    else if i - d >= 0 && i - d in have then Some(i - d)
    else if i + d < total && i + d in have then Some(i + d)
    else Nearest(have, total, i, d + 1)
  }

  function Distance(i: nat, j: nat): nat {
    if i <= j then j - i else i - j
  }

  /**
   The anchor is a received fragment at minimal distance, the one before i if two are, and one is found
   whenever any was received.
   */
  lemma {:induction false} NearestIsNearest(have: set<nat>, total: nat, i: nat, d: nat)
    requires i < total && (forall j :: j in have ==> j < total && Distance(i, j) >= d)
    ensures Nearest(have, total, i, d).Some? <==> have != {}
    ensures var r := Nearest(have, total, i, d);
            r.Some? ==> r.value in have && (forall j :: j in have ==> Distance(i, r.value) <= Distance(i, j)) &&
                        (r.value > i ==> forall j :: j in have && j < i ==> Distance(i, r.value) < Distance(i, j))
    decreases total - d
  {
    if d >= total {
      assert forall j :: j !in have;
      assert have == {};
    } else if (i - d >= 0 && i - d in have) || (i + d < total && i + d in have) {
    } else {
      NearestIsNearest(have, total, i, d + 1);
    }
  }

  /** A neighbour's sequence number moved by delta, in 64-bit arithmetic; None when it turns negative. */
  function Extrapolate(base: U64, delta: int): (r: Option<U64>)
  {
    var v := ToInt64(ToInt64(base) + delta);
    if v < 0 then None else Some(v)
  }

  /** The sequence number asked for in place of fragment i, as a list of at most one. */
  function MissingAt(parts: map<nat, Part>, total: nat, i: nat): (r: seq<U64>)
    ensures |r| <= 1
  {
    if i in parts then []
    else
      var best := Nearest(parts.Keys, total, i, 1);
      if best.None? || best.value !in parts then []
      else
        var v := Extrapolate(parts[best.value].seqNum, i - best.value);
        if v.None? then [] else [v.value]
  }

  function MissingUpTo(parts: map<nat, Part>, total: nat, n: nat): (r: seq<U64>) {
    if n == 0 then [] else MissingUpTo(parts, total, n - 1) + MissingAt(parts, total, n - 1)
  }

  /** missingSeqNums: the sequence numbers a slot asks for, in fragment order. */
  function Missing(s: Slot): (r: seq<U64>) {
    if |s.parts| == 0 then [] else MissingUpTo(s.parts, s.total, s.total)
  }

  /** One object, one counter: fragment i was stamped base + i. */
  ghost predicate Consecutive(s: Slot, base: U64) {
    base + s.total <= TWO63 && forall i :: i in s.parts ==> s.parts[i].seqNum == base + i
  }

  ghost predicate Ascending(r: seq<U64>) {
    forall a, b :: 0 <= a < b < |r| ==> r[a] < r[b]
  }

  /**
   For an object whose fragments carry consecutive sequence numbers, the slot asks for exactly the
   numbers of the fragments it does not have, each once, in ascending order.
   */
  lemma MissingExact(s: Slot, base: U64)
    requires SlotOk(s) && |s.parts| > 0 && Consecutive(s, base)
    ensures Ascending(Missing(s))
    ensures |Missing(s)| == s.total - |s.parts|
    ensures forall x: U64 :: x in Missing(s) <==> base <= x < base + s.total && x - base !in s.parts
  {
    MissingMembers(s, base, s.total);
    MissingCount(s, base, s.total);
    assert s.parts.Keys == set i | i in s.parts && i < s.total;
  }

  lemma {:induction false} MissingMembers(s: Slot, base: U64, n: nat)
    requires SlotOk(s) && |s.parts| > 0 && Consecutive(s, base) && n <= s.total
    ensures Ascending(MissingUpTo(s.parts, s.total, n))
    ensures forall x: U64 :: x in MissingUpTo(s.parts, s.total, n) <==>
                             base <= x < base + n && x - base !in s.parts
  {
    hide SlotOk, MissingAt;
    if n > 0 {
      MissingMembers(s, base, n - 1);
      MissingAtExact(s, base, n - 1);
      var r := MissingUpTo(s.parts, s.total, n - 1);
      assert forall a :: 0 <= a < |r| ==> r[a] in r;
    }
  }

  lemma {:induction false} MissingCount(s: Slot, base: U64, n: nat)
    requires SlotOk(s) && |s.parts| > 0 && Consecutive(s, base) && n <= s.total
    ensures |MissingUpTo(s.parts, s.total, n)| == n - |set i | i in s.parts && i < n|
  {
    hide SlotOk, MissingAt;
    var before := set i | i in s.parts && i < n;
    if n == 0 {
      assert before == {};
    } else {
      MissingCount(s, base, n - 1);
      MissingAtExact(s, base, n - 1);
      var shorter := set i | i in s.parts && i < n - 1;
      if n - 1 in s.parts {
        assert before == shorter + {n - 1};
      } else {
        assert before == shorter;
      }
    }
  }

  lemma MissingAtExact(s: Slot, base: U64, i: nat)
    requires SlotOk(s) && |s.parts| > 0 && Consecutive(s, base) && i < s.total
    ensures MissingAt(s.parts, s.total, i) == if i in s.parts then [] else [base + i]
  {
    if i !in s.parts {
      assert s.parts.Keys != {};
      NearestIsNearest(s.parts.Keys, s.total, i, 1);
    }
  }
}
