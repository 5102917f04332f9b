/**
 The slot as the listener runs it: flags and sequence numbers in arrays, early fragments in a list
 until enough of the object has been seen, and from then on every fragment copied once, in place,
 into a buffer that may carry room for a frame header in front. Each operation is proved to do to
 the buffer what module Slots does to the map of fragments.
 */
module SlotObjects {
  import opened Base
  import opened Grid
  import opened Slots

  /** A fragment held until its slot is promoted. */
  datatype EarlyFrag = EarlyFrag(index: nat, data: seq<Byte>)

  /** How many fragments an object shows before its whole buffer is allocated. */
  function PromoteAfter(total: nat): (n: nat)
    ensures total >= 1 ==> 1 <= n <= total
  {
    Min(total, Max(8, total / 16))
  }

  function Overwrite(s: seq<Byte>, at: nat, d: seq<Byte>): (r: seq<Byte>)
    requires at + |d| <= |s|
    ensures |r| == |s|
  {
    s[..at] + d + s[at + |d|..]
  }

  /** Writing fragment i at its offset puts it there and leaves every other fragment's window alone. */
  lemma OverwriteWindow(s: seq<Byte>, total: nat, fs: nat, i: nat, d: seq<Byte>, j: nat)
    requires IsFragSize(|s|, total, fs) && i < total && j < total && |d| == FragLen(|s|, total, fs, i)
    ensures i * fs + |d| <= |s|
    ensures Cut(Overwrite(s, i * fs, d), total, fs, j) == if i == j then d else Cut(s, total, fs, j)
  {
    hide FragLen, Overwrite, IsFragSize;
    WindowInBounds(|s|, total, fs, i);
    WindowInBounds(|s|, total, fs, j);
    var n := FragLen(|s|, total, fs, j);
    if i == j {
      WindowWritten(s, i * fs, d);
    } else {
      if i < j {
        WindowsDisjoint(|s|, total, fs, i, j);
      } else {
        WindowsDisjoint(|s|, total, fs, j, i);
      }
      WindowElsewhere(s, i * fs, d, j * fs, n);
    }
  }

  lemma WindowWritten(s: seq<Byte>, a: nat, d: seq<Byte>)
    requires a + |d| <= |s|
    ensures Overwrite(s, a, d)[a..a + |d|] == d
  {
  }

  lemma WindowElsewhere(s: seq<Byte>, a: nat, d: seq<Byte>, b: nat, n: nat)
    requires a + |d| <= |s| && b + n <= |s|
    requires a + |d| <= b || b + n <= a
    ensures Overwrite(s, a, d)[b..b + n] == s[b..b + n]
  {
    var r := Overwrite(s, a, d);
    assert forall x :: 0 <= x < |s| ==> r[x] == if a <= x < a + |d| then d[x - a] else s[x];
  }

  /** A buffer behind a header: writing past the header is writing into the buffer. */
  lemma OverwriteBehind(s: seq<Byte>, room: nat, at: nat, d: seq<Byte>)
    requires room + at + |d| <= |s|
    ensures Overwrite(s, room + at, d)[room..] == Overwrite(s[room..], at, d)
    ensures Overwrite(s, room + at, d)[..room] == s[..room]
  {
  }

  /** Placing one more fragment. */
  lemma PlaceOne(buf: seq<Byte>, parts: map<nat, Part>, total: nat, fs: nat, i: nat, p: Part)
    requires IsFragSize(|buf|, total, fs) && i < total && |p.data| == FragLen(|buf|, total, fs, i)
    requires Placed(buf, parts, total, fs, total)
    ensures i * fs + |p.data| <= |buf|
    ensures Placed(Overwrite(buf, i * fs, p.data), parts[i := p], total, fs, total)
  {
    hide Overwrite, FragLen, IsFragSize, Cut;
    OverwriteWindow(buf, total, fs, i, p.data, i);
    var r := Overwrite(buf, i * fs, p.data);
    forall j | 0 <= j < total && j in parts[i := p]
      ensures Cut(r, total, fs, j) == parts[i := p][j].data
    {
      OverwriteWindow(buf, total, fs, i, p.data, j);
    }
  }

  /** The built-in copy: as much of data as fits from position at on. */
  method CopyInto(dst: array<Byte>, at: nat, data: seq<Byte>)
    requires at + |data| <= dst.Length
    modifies dst
    ensures dst[..] == Overwrite(old(dst[..]), at, data)
  {
    ghost var was := dst[..];
    for i := 0 to |data|
      invariant dst[..] == Overwrite(was, at, data[..i])
    {
      dst[at + i] := data[i];
      assert data[..i + 1] == data[..i] + [data[i]];
    }
    assert data[..|data|] == data;
  }

  // ----- early fragments -----

  /** The list holds exactly the slot's fragments, each once. */
  ghost predicate Holds(early: seq<EarlyFrag>, parts: map<nat, Part>) {
    && (forall j :: 0 <= j < |early| ==> early[j].index in parts && parts[early[j].index].data == early[j].data)
    && (forall i :: i in parts ==> exists j :: 0 <= j < |early| && early[j].index == i)
    && |early| == |parts|
  }

  lemma HoldsSize(early: seq<EarlyFrag>, parts: map<nat, Part>)
    requires Holds(early, parts)
    ensures |early| == |parts|
  {
  }

  lemma HoldsOneMore(early: seq<EarlyFrag>, parts: map<nat, Part>, i: nat, p: Part)
    requires Holds(early, parts) && i !in parts
    ensures Holds(early + [EarlyFrag(i, p.data)], parts[i := p])
  {
    var e, m := early + [EarlyFrag(i, p.data)], parts[i := p];
    assert m.Keys == parts.Keys + {i};
    forall x | x in m
      ensures exists j :: 0 <= j < |e| && e[j].index == x
    {
      if x == i {
        assert e[|early|].index == x;
      } else {
        var j :| 0 <= j < |early| && early[j].index == x;
        assert e[j].index == x;
      }
    }
  }

  /** The fragments among the first n early ones. */
  ghost function FirstParts(early: seq<EarlyFrag>, parts: map<nat, Part>, n: nat): map<nat, Part>
    requires n <= |early|
  {
    map i | i in parts && exists j :: 0 <= j < n && early[j].index == i :: parts[i]
  }

  lemma FirstPartsNext(early: seq<EarlyFrag>, parts: map<nat, Part>, n: nat)
    requires n < |early| && Holds(early, parts)
    ensures FirstParts(early, parts, n + 1) == FirstParts(early, parts, n)[early[n].index := parts[early[n].index]]
  {
    var a, b := FirstParts(early, parts, n), FirstParts(early, parts, n + 1);
    forall i | i in a
      ensures i in b
    {
      var j :| 0 <= j < n && early[j].index == i;
      assert early[j].index == i;
    }
    assert early[n].index in b;
  }

  lemma FirstPartsAll(early: seq<EarlyFrag>, parts: map<nat, Part>)
    requires Holds(early, parts)
    ensures FirstParts(early, parts, |early|) == parts
  {
  }

  lemma OnGridMore(m: map<nat, Part>, objLen: nat, total: nat, fs: nat, i: nat, p: Part)
    requires OnGrid(m, objLen, total, fs) && i < total && |p.data| == FragLen(objLen, total, fs, i)
    ensures OnGrid(m[i := p], objLen, total, fs)
  {
  }

  lemma PlacedNone(buf: seq<Byte>, early: seq<EarlyFrag>, m: map<nat, Part>, total: nat, fs: nat)
    requires IsFragSize(|buf|, total, fs)
    ensures Placed(buf, FirstParts(early, m, 0), total, fs, total)
  {
  }

  lemma HeldFits(early: seq<EarlyFrag>, m: map<nat, Part>, n: nat, objLen: nat, total: nat, fs: nat)
    requires Holds(early, m) && OnGrid(m, objLen, total, fs) && n < |early|
    ensures early[n].index in m && m[early[n].index].data == early[n].data && early[n].index < total
    ensures |early[n].data| == FragLen(objLen, total, fs, early[n].index)
  {
  }

  /** The size a fragment fixes is the one the fragments already held lie on. */
  lemma StaysOnGrid(s: Slot, f: Fragment)
    requires SlotOk(s) && Take(s, f).Stored?
    ensures OnGrid(s.parts, s.origLen, s.total, Take(s, f).slot.fragSize)
    ensures s.fragSize != 0 ==> Take(s, f).slot.fragSize == s.fragSize
  {
    hide CheckFragLen;
    TakeStores(s, f);
    assert |s.parts| == 0 ==> s.parts.Keys == {};
  }

  /** The fragments m are in the early list, or each at its offset in the bytes behind the header room. */
  ghost predicate KeptIn(early: seq<EarlyFrag>, bytes: Option<seq<Byte>>, room: nat, objLen: nat, total: nat, fs: nat,
                         m: map<nat, Part>)
  {
    match bytes
    case None => Holds(early, m)
    case Some(b) =>
      |b| == room + objLen && IsFragSize(objLen, total, fs) && Placed(b[room..], m, total, fs, total)
  }

  /** Copy every early fragment to its offset behind the header room. */
  method MoveEarly(buf: array<Byte>, room: nat, early: seq<EarlyFrag>, total: nat, fs: nat, ghost m: map<nat, Part>)
    requires room <= buf.Length && IsFragSize(buf.Length - room, total, fs)
    requires Holds(early, m) && OnGrid(m, buf.Length - room, total, fs)
    modifies buf
    ensures Placed(buf[room..], m, total, fs, total)
    ensures buf[..room] == old(buf[..room])
  {
    hide Placed, FirstParts, Holds, OnGrid, FragLen, Overwrite, IsFragSize;
    PlacedNone(buf[room..], early, m, total, fs);
    for n := 0 to |early|
      invariant Placed(buf[room..], FirstParts(early, m, n), total, fs, total)
      invariant buf[..room] == old(buf[..room])
    {
      var e := early[n];
      ghost var was := buf[..];
      HeldFits(early, m, n, buf.Length - room, total, fs);
      WindowInBounds(buf.Length - room, total, fs, e.index);
      CopyInto(buf, room + e.index * fs, e.data);
      PlacedCopy(was, buf[..], room, FirstParts(early, m, n), total, fs, e.index, m[e.index]);
      FirstPartsNext(early, m, n);
    }
    FirstPartsAll(early, m);
  }

  /** The flags, numbers and count describe the fragments m of a slot of total fragments. */
  ghost predicate Marks(have: seq<bool>, fragSeq: seq<U64>, received: nat, m: map<nat, Part>, total: nat) {
    && |have| == total && |fragSeq| == total && received == |m|
    && forall i :: 0 <= i < total ==> (have[i] <==> i in m) && (i in m ==> fragSeq[i] == m[i].seqNum)
  }

  lemma MarkOne(have: seq<bool>, fragSeq: seq<U64>, received: nat, m: map<nat, Part>, total: nat, i: nat, p: Part)
    requires Marks(have, fragSeq, received, m, total) && i < total && i !in m
    ensures Marks(have[i := true], fragSeq[i := p.seqNum], received + 1, m[i := p], total)
  {
    assert m[i := p].Keys == m.Keys + {i};
  }

  lemma SizeIsSet(objLen: nat, total: nat, fs: nat)
    requires IsFragSize(objLen, total, fs)
    ensures fs != 0
  {
  }

  datatype Verdict = Skipped | Dropped | Kept

  class SlotObject {
    const key: Key
    const txId: Id32
    const subtreeId: Id32
    const hashKey: U64
    const seqNum: U64
    const origLen: U32
    const total: U16
    const ver: Byte
    const msgType: Byte
    const born: Time
    const headerSize: nat
    var deadline: Time
    var requested: bool
    var extended: bool
    var fragSize: nat
    var received: nat
    const have: array<bool>
    const fragSeq: array<U64>
    var early: seq<EarlyFrag>
    var whole: array?<Byte>
    ghost var parts: map<nat, Part>

    ghost function View(): Slot
      reads this
    {
      Slot(key, txId, subtreeId, hashKey, seqNum, origLen, total, ver, msgType,
           born, deadline, requested, extended, fragSize, parts)
    }

    ghost function Repr(): set<object>
      reads this
    {
      {this, have, fragSeq} + (if whole == null then {} else {whole})
    }

    /** Bytes in front of the payload: a V9 object is delivered with room for its frame header. */
    function Room(): nat {
      if ver == VER_V9 then headerSize else 0
    }

    /** The flags, numbers and count describe the fragments held. */
    ghost predicate Flags()
      reads this, have, fragSeq
    {
      ShapeOk(origLen, total, fragSize, parts) && Marks(have[..], fragSeq[..], received, parts, total)
    }

    /** The bytes of the fragments m are in the early list, or each at its offset in the buffer. */
    ghost predicate Keeps(m: map<nat, Part>)
      reads this, whole
    {
      KeptIn(early, Bytes(), Room(), origLen, total, fragSize, m)
    }

    ghost function Bytes(): Option<seq<Byte>>
      reads this, whole
    {
      if whole == null then None else Some(whole[..])
    }

    ghost predicate Valid()
      reads this, have, fragSeq, whole
    {
      && Flags()
      && Keeps(parts)
      && (whole == null ==> |early| < PromoteAfter(total))
      && (whole == null || (whole as object != fragSeq && whole as object != have))
    }

    constructor (f: Fragment, now: Time, ttl: Time, headerSize: nat)
      requires f.total >= 1
      ensures Valid() && fresh(Repr()) && View() == OpenSlot(f, now, ttl)
      ensures key == SlotKey(f) && this.headerSize == headerSize
    {
      key, txId, subtreeId := SlotKey(f), f.txId, f.subtreeId;
      hashKey, seqNum := f.hashKey, f.seqNum;
      origLen, total, ver, msgType := f.origLen, f.total, f.ver, f.msgType;
      born, deadline := now, now + ttl;
      this.headerSize := headerSize;
      requested, extended := false, false;
      fragSize, received := 0, 0;
      have := new bool[f.total](_ => false);
      fragSeq := new U64[f.total](_ => 0);
      early, whole, parts := [], null, map[];
    }

    /** promote: move the fragments held so far into the object's buffer. */
    method Promote(ghost m: map<nat, Part>)
      requires whole == null && Holds(early, m)
      requires IsFragSize(origLen, total, fragSize) && OnGrid(m, origLen, total, fragSize)
      modifies this`whole, this`early
      ensures whole != null && fresh(whole) && early == [] && Keeps(m)
    {
      hide Placed, Holds, OnGrid, IsFragSize;
      var buf := new Byte[Room() + origLen](_ => 0);
      MoveEarly(buf, Room(), early, total, fragSize, m);
      whole, early := buf, [];
    }

    /** store: keep one fragment's bytes, and promote the slot when it has shown enough of the object. */
    method Store(index: nat, data: seq<Byte>, ghost m: map<nat, Part>, ghost seqNum: U64)
      requires Keeps(m) && index !in m && index < total
      requires IsFragSize(origLen, total, fragSize) && OnGrid(m, origLen, total, fragSize)
      requires |data| == FragLen(origLen, total, fragSize, index)
      modifies this`whole, this`early, whole
      ensures Keeps(m[index := Part(data, seqNum)])
      ensures whole == old(whole) || fresh(whole)
      ensures whole == null ==> |early| < PromoteAfter(total)
      ensures old(whole) == null && whole != null ==> |m[index := Part(data, seqNum)]| >= PromoteAfter(total)
    {
      hide Holds, Placed, OnGrid, FragLen, Overwrite, IsFragSize, PromoteAfter;
      ghost var more := m[index := Part(data, seqNum)];
      OnGridMore(m, origLen, total, fragSize, index, Part(data, seqNum));
      if whole != null {
        ghost var was := whole[..];
        WindowInBounds(origLen, total, fragSize, index);
        CopyInto(whole, Room() + index * fragSize, data);
        PlacedCopy(was, whole[..], Room(), m, total, fragSize, index, Part(data, seqNum));
        return;
      }
      HoldsOneMore(early, m, index, Part(data, seqNum));
      early := early + [EarlyFrag(index, data)];
      HoldsSize(early, more);
      if |early| >= PromoteAfter(total) {
        Promote(more);
      }
    }

    /** One fragment of the slot's key, judged and kept as module Slots judges and keeps it. */
    method Take(f: Fragment) returns (v: Verdict)
      requires Valid()
      modifies this`fragSize, this`received, this`parts, this`whole, this`early, have, fragSeq, whole
      ensures Valid() && (whole == old(whole) || fresh(whole))
      ensures match Slots.Take(old(View()), f)
              case Ignored => v == Skipped && View() == old(View())
              case Bad => v == Dropped && View() == old(View())
              case Stored(t) => v == Kept && View() == t
    {
      hide CheckFragLen, ShapeOk, KeptIn, PromoteAfter;
      if f.total != total || f.index >= total {
        return Skipped;
      }
      if have[f.index] {
        return Skipped;
      }
      var fs := CheckFragLen(origLen, total, fragSize, f.index, |f.data|);
      if fs.None? {
        return Dropped;
      }
      TakeStores(View(), f);
      StaysOnGrid(View(), f);
      Keep(f.index, f.data, f.seqNum, fs.value);
      return Kept;
    }

    /** The accepting end of Take, once the fragment implies the size fs. */
    method Keep(index: nat, data: seq<Byte>, number: U64, fs: nat)
      requires Valid() && index < total && index !in parts
      requires IsFragSize(origLen, total, fs) && OnGrid(parts, origLen, total, fs) && (fragSize != 0 ==> fs == fragSize)
      requires |data| == FragLen(origLen, total, fs, index)
      requires ShapeOk(origLen, total, fs, parts[index := Part(data, number)])
      modifies this`fragSize, this`received, this`parts, this`whole, this`early, have, fragSeq, whole
      ensures Valid() && (whole == old(whole) || fresh(whole))
      ensures fragSize == fs && parts == old(parts)[index := Part(data, number)]
    {
      hide FragLen, Holds, Placed, PromoteAfter, IsFragSize, OnGrid;
      MarkOne(have[..], fragSeq[..], received, parts, total, index, Part(data, number));
      if whole != null {
        SizeIsSet(origLen, total, fragSize);
      }
      fragSize := fs;
      Store(index, data, parts, number);
      Record(index, number, parts[index := Part(data, number)]);
    }

    method Record(index: nat, number: U64, ghost m: map<nat, Part>)
      requires index < total && have.Length == total && fragSeq.Length == total
      requires ShapeOk(origLen, total, fragSize, m) && Keeps(m)
      requires Marks(have[..][index := true], fragSeq[..][index := number], received + 1, m, total)
      requires whole == null ==> |early| < PromoteAfter(total)
      requires whole == null || (whole as object != fragSeq && whole as object != have)
      modifies this`received, this`parts, have, fragSeq
      ensures Valid() && parts == m
    {
      hide Marks, KeptIn, ShapeOk, PromoteAfter;
      ghost var bytes := Bytes();
      ghost var h, q := have[..], fragSeq[..];
      have[index] := true;
      fragSeq[index] := number;
      received := received + 1;
      parts := m;
      assert Bytes() == bytes;
      assert have[..] == h[index := true] && fragSeq[..] == q[index := number];
    }

    /** The nearest received neighbour of i, the left one first; -1 if there is none. */
    method NearestReceived(i: nat) returns (best: int)
      requires Flags() && i < total
      ensures best == match Nearest(parts.Keys, total, i, 1) case None => -1 case Some(b) => b
      ensures best >= 0 ==> best < total && have[best]
    {
      hide ShapeOk;
      for d := 1 to total
        invariant Nearest(parts.Keys, total, i, 1) == Nearest(parts.Keys, total, i, d)
      {
        if i - d >= 0 && have[i - d] {
          return i - d;
        }
        if i + d < total && have[i + d] {
          return i + d;
        }
      }
      return -1;
    }

    /** missingSeqNums: the numbers to ask for, interpolated from the nearest received fragments. */
    method MissingSeqNums() returns (out: seq<U64>)
      requires Flags()
      ensures out == Missing(View())
    {
      hide ShapeOk, Nearest;
      out := [];
      if received == 0 {
        return;
      }
      for i := 0 to total
        invariant out == MissingUpTo(parts, total, i)
      {
        if have[i] {
          continue;
        }
        var best := NearestReceived(i);
        if best < 0 {
          continue;
        }
        var v := ToInt64(ToInt64(fragSeq[best]) + (i - best));
        if v < 0 {
          continue;
        }
        out := out + [v];
      }
    }

    /**
     A full slot's buffer, ready for delivery. By now the slot has been promoted, whatever its size:
     the bytes behind the header room are the index-order concatenation of the fragments.
     */
    method Assembled() returns (buf: array<Byte>)
      requires Valid() && received == total
      ensures buf == whole && buf.Length == Room() + origLen
      ensures buf[Room()..] == Payload(View())
    {
      buf := whole;
      CountIsComplete(View());
      PlacedIsJoin(buf[Room()..], parts, total, fragSize, total);
      assert buf[Room()..][..origLen] == buf[Room()..];
    }

    method MarkRequested()
      requires Valid()
      modifies this`requested
      ensures Valid() && View() == old(View()).(requested := true)
    {
      hide ShapeOk, Marks, KeptIn;
      requested := true;
    }

    /** Move the deadline out, never past the age limit, and mark the slot as held past its TTL. */
    method HoldUntil(t: Time, limit: Time)
      requires Valid()
      modifies this`deadline, this`extended
      ensures Valid() && View() == old(View()).(deadline := Min(t, limit), extended := true)
    {
      hide ShapeOk, Marks, KeptIn, PromoteAfter;
      deadline := t;
      if deadline > limit {
        deadline := limit;
      }
      extended := true;
    }
  }

  /** A copy into the buffer behind the header room places the fragment. */
  lemma PlacedCopy(was: seq<Byte>, now: seq<Byte>, room: nat, m: map<nat, Part>, total: nat, fs: nat, i: nat, p: Part)
    requires room <= |was| && IsFragSize(|was| - room, total, fs) && i < total
    requires |p.data| == FragLen(|was| - room, total, fs, i)
    requires room + i * fs + |p.data| <= |was| && now == Overwrite(was, room + i * fs, p.data)
    requires Placed(was[room..], m, total, fs, total)
    ensures |now| == |was| && Placed(now[room..], m[i := p], total, fs, total)
    ensures now[..room] == was[..room]
  {
    hide Overwrite, FragLen;
    OverwriteBehind(was, room, i * fs, p.data);
    PlaceOne(was[room..], m, total, fs, i, p);
  }
}
