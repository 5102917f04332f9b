/** Machine integers, clock readings and the few sequence facts every other module uses. */
module Base {

  const TWO63: int := 0x8000_0000_0000_0000
  const TWO64: int := 0x1_0000_0000_0000_0000

  type Byte = x: int | 0 <= x < 0x100
  type U16 = x: int | 0 <= x < 0x1_0000
  type U32 = x: int | 0 <= x < 0x1_0000_0000
  type U64 = x: int | 0 <= x < 0x1_0000_0000_0000_0000

  /** A 32-byte identifier (TxID, SubtreeID, ContentID, TopicID): only ever compared for equality. */
  type Id32 = nat

  /** A clock reading or a duration, in nanoseconds. */
  type Time = int

  datatype Option<+T> = None | Some(value: T)

  /** The signed 64-bit value held by the low 64 bits of x. */
  function ToInt64(x: int): (r: int)
    ensures -TWO63 <= r < TWO63
    ensures -TWO63 <= x < TWO63 ==> r == x
  {
    var w := x % TWO64;
    if w < TWO63 then w else w - TWO64
  }

  /** Division that truncates toward zero. */
  function TruncDiv(a: int, b: int): (r: int)
    requires b > 0
  {
    if a >= 0 then a / b else -((-a) / b)
  }

  function Max(a: int, b: int): int {
    if a >= b then a else b
  }

  function Min(a: int, b: int): int {
    if a <= b then a else b
  }

  function Elements<T>(s: seq<T>): set<T> {
    set x | x in s
  }

  ghost predicate NoDup<T(!new)>(s: seq<T>) {
    forall i, j :: 0 <= i < j < |s| ==> s[i] != s[j]
  }

  /** The elements of s that belong to keep, in order. */
  function Restrict<T(==,!new)>(s: seq<T>, keep: set<T>): (r: seq<T>)
    ensures forall x :: x in r <==> x in s && x in keep
  {
    if s == [] then []
    else if s[0] in keep then [s[0]] + Restrict(s[1..], keep)
    else Restrict(s[1..], keep)
  }

  /** One more element at the end of the input is kept or skipped at the end of the output. */
  lemma {:induction false} RestrictSnoc<T(!new)>(s: seq<T>, x: T, keep: set<T>)
    ensures Restrict(s + [x], keep) == Restrict(s, keep) + (if x in keep then [x] else [])
  {
    if s == [] {
      assert s + [x] == [x];
    } else {
      assert (s + [x])[1..] == s[1..] + [x];
      RestrictSnoc(s[1..], x, keep);
    }
  }

  /** Restrict keeps the relative order of what it keeps. */
  lemma {:induction false} RestrictOrder<T(!new)>(s: seq<T>, keep: set<T>, p: nat, q: nat) returns (p': nat, q': nat)
    requires p < q < |Restrict(s, keep)|
    ensures p' < q' < |s|
    ensures s[p'] == Restrict(s, keep)[p] && s[q'] == Restrict(s, keep)[q]
  {
    if s[0] in keep {
      if p == 0 {
        assert Restrict(s, keep)[q] in Restrict(s[1..], keep);
        var j :| 0 <= j < |s[1..]| && s[1..][j] == Restrict(s, keep)[q];
        p', q' := 0, j + 1;
      } else {
        var a, b := RestrictOrder(s[1..], keep, p - 1, q - 1);
        p', q' := a + 1, b + 1;
      }
    } else {
      var a, b := RestrictOrder(s[1..], keep, p, q);
      p', q' := a + 1, b + 1;
    }
  }

  lemma {:induction false} RestrictNoDup<T(!new)>(s: seq<T>, keep: set<T>)
    requires NoDup(s)
    ensures NoDup(Restrict(s, keep))
    ensures |Restrict(s, keep)| <= |s|
  {
    if s != [] {
      RestrictNoDup(s[1..], keep);
    }
  }

  /** A duplicate-free sequence has as many entries as elements. */
  lemma {:induction false} NoDupSize<T(!new)>(s: seq<T>)
    requires NoDup(s)
    ensures |Elements(s)| == |s|
  {
    if s == [] {
      assert Elements(s) == {};
    } else {
      var rest, last := s[..|s| - 1], s[|s| - 1];
      NoDupSize(rest);
      assert s == rest + [last];
      assert last !in Elements(rest);
      assert Elements(s) == Elements(rest) + {last};
    }
  }

  lemma SubsetSize<T>(a: set<T>, b: set<T>)
    requires a <= b
    ensures |a| <= |b|
    ensures |a| == |b| ==> a == b
  {
    assert |b| == |a| + |b - a| by {
      assert b == a + (b - a);
    }
  }

  /** A set of naturals below n has at most n elements, and exactly n only when it is all of them. */
  lemma {:induction false} BelowSize(a: set<nat>, n: nat)
    requires forall i :: i in a ==> i < n
    ensures |a| <= n
    ensures |a| == n <==> (forall i :: 0 <= i < n ==> i in a)
  {
    if n > 0 {
      var b := a - {n - 1};
      BelowSize(b, n - 1);
      if n - 1 in a {
        assert a == b + {n - 1};
      } else {
        assert a == b;
      }
    } else {
      assert a == {};
    }
  }
}
