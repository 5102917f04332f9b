/**
 The retry endpoint registry as values: what a snapshot is, and when the static seeds come last and in
 list order. RegistryObjects holds the registry itself.
 */
module Registry {
  import opened Base

  datatype Endpoint = Endpoint(
    addr: string, tier: Byte, preference: Byte, flags: U16, expires: Time, instanceId: U32, unicast: bool)

  const SEED_TIER: Byte := 0xFF
  const NEVER: Time := 253_370_764_800_000_000_000

  // ----- order -----

  /** a belongs strictly before b: lower tier, or the same tier and a higher preference. */
  predicate Before(a: Endpoint, b: Endpoint) {
    if a.tier != b.tier then a.tier < b.tier else a.preference > b.preference
  }

  ghost predicate Sorted(s: seq<Endpoint>) {
    forall i, j :: 0 <= i < j < |s| ==> !Before(s[j], s[i])
  }

  lemma InsertedSorted(s: seq<Endpoint>, e: Endpoint, i: nat)
    requires Sorted(s) && i <= |s| && (forall j :: i <= j < |s| ==> Before(e, s[j]))
    requires i > 0 ==> !Before(e, s[i - 1])
    ensures Sorted(s[..i] + [e] + s[i..])
  {
    var r := s[..i] + [e] + s[i..];
    forall a, b | 0 <= a < b < |r|
      ensures !Before(r[b], r[a])
    {
      if a < i && b == i {
        assert !Before(s[i - 1], s[a]) || a == i - 1;
      }
    }
  }

  lemma InsertedContents(s: seq<Endpoint>, e: Endpoint, i: nat)
    requires i <= |s|
    ensures multiset(s[..i] + [e] + s[i..]) == multiset(s) + multiset{e}
  {
    assert s == s[..i] + s[i..];
  }

  /** Insert into a sorted list, behind whatever it does not precede. */
  method InsertSorted(s: seq<Endpoint>, e: Endpoint) returns (r: seq<Endpoint>)
    requires Sorted(s)
    ensures Sorted(r) && multiset(r) == multiset(s) + multiset{e}
  {
    var i := |s|;
    while i > 0 && Before(e, s[i - 1])
      invariant 0 <= i <= |s|
      invariant forall j :: i <= j < |s| ==> Before(e, s[j])
    {
      i := i - 1;
    }
    r := s[..i] + [e] + s[i..];
    InsertedSorted(s, e, i);
    InsertedContents(s, e, i);
  }

  /** Sort by the order above. Which of two tied endpoints comes first is not promised. */
  method SortEndpoints(s: seq<Endpoint>) returns (r: seq<Endpoint>)
    ensures Sorted(r) && multiset(r) == multiset(s)
  {
    hide Before;
    r := [];
    for i := 0 to |s|
      invariant Sorted(r) && multiset(r) == multiset(s[..i])
    {
      assert s[..i + 1] == s[..i] + [s[i]];
      r := InsertSorted(r, s[i]);
    }
    assert s[..|s|] == s;
  }

  lemma {:induction false} SortedExists(s: seq<Endpoint>) returns (r: seq<Endpoint>)
    ensures Sorted(r) && multiset(r) == multiset(s)
  {
    if s == [] {
      r := [];
    } else {
      var front, e := s[..|s| - 1], s[|s| - 1];
      assert s == front + [e];
      var t := SortedExists(front);
      var i := |t|;
      while i > 0 && Before(e, t[i - 1])
        invariant 0 <= i <= |t|
        invariant forall j :: i <= j < |t| ==> Before(e, t[j])
      {
        i := i - 1;
      }
      r := t[..i] + [e] + t[i..];
      InsertedSorted(t, e, i);
      InsertedContents(t, e, i);
    }
  }

  // ----- what a snapshot is -----

  /** The walk visits every beacon entry once. */
  ghost predicate Walks(ks: seq<U32>, m: map<U32, Endpoint>) {
    NoDup(ks) && forall k :: k in ks <==> k in m
  }

  function Values(m: map<U32, Endpoint>, ks: seq<U32>): (r: seq<Endpoint>)
    requires forall k :: k in ks ==> k in m
    ensures |r| == |ks| && forall i :: 0 <= i < |ks| ==> r[i] == m[ks[i]]
  {
    if ks == [] then [] else Values(m, ks[..|ks| - 1]) + [m[ks[|ks| - 1]]]
  }

  ghost predicate Announced(m: map<U32, Endpoint>, addr: string) {
    exists k :: k in m && m[k].addr == addr
  }

  /** The seeds no beacon announces, in list order. */
  ghost function Kept(seeds: seq<Endpoint>, m: map<U32, Endpoint>): seq<Endpoint> {
    if seeds == [] then []
    else
      var s := seeds[|seeds| - 1];
      Kept(seeds[..|seeds| - 1], m) + (if Announced(m, s.addr) then [] else [s])
  }

  /** What is merged: every beacon entry and every seed no beacon announces. */
  ghost predicate Merges(all: multiset<Endpoint>, m: map<U32, Endpoint>, seeds: seq<Endpoint>) {
    exists ks :: Walks(ks, m) && all == multiset(Values(m, ks)) + multiset(Kept(seeds, m))
  }

  ghost predicate IsSnapshot(r: seq<Endpoint>, m: map<U32, Endpoint>, seeds: seq<Endpoint>) {
    Sorted(r) && Merges(multiset(r), m, seeds)
  }

  // ----- when the seeds come last, in list order -----

  ghost predicate Trails(r: seq<Endpoint>, tail: seq<Endpoint>) {
    |tail| <= |r| && r[|r| - |tail|..] == tail
  }

  ghost predicate Steady(s: seq<Endpoint>) {
    forall i, j :: 0 <= i < j < |s| ==> Before(s[i], s[j]) || s[i] == s[j]
  }

  ghost predicate Clear(m: map<U32, Endpoint>, tail: seq<Endpoint>) {
    forall k, e :: k in m && e in tail ==> Before(m[k], e)
  }

  ghost predicate Ahead(front: multiset<Endpoint>, tail: seq<Endpoint>) {
    forall x, y :: x in front && y in tail ==> Before(x, y)
  }

  lemma {:induction false} KeptIn(seeds: seq<Endpoint>, m: map<U32, Endpoint>)
    ensures forall e :: e in Kept(seeds, m) <==> e in seeds && !Announced(m, e.addr)
  {
    hide Announced;
    if seeds != [] {
      var front, s := seeds[..|seeds| - 1], seeds[|seeds| - 1];
      KeptIn(front, m);
      assert seeds == front + [s];
    }
  }

  lemma WithoutLast(r: seq<Endpoint>, rest: multiset<Endpoint>)
    requires |r| > 0 && multiset(r) == rest + multiset{r[|r| - 1]}
    ensures multiset(r[..|r| - 1]) == rest
  {
    assert r == r[..|r| - 1] + [r[|r| - 1]];
    assert multiset(r[..|r| - 1]) == multiset(r) - multiset{r[|r| - 1]};
    assert rest == multiset(r) - multiset{r[|r| - 1]};
  }

  /** The largest element of a sorted list, when nothing else ties with it, is its last. */
  lemma LargestIsLast(r: seq<Endpoint>, e: Endpoint, rest: multiset<Endpoint>)
    requires Sorted(r) && multiset(r) == rest + multiset{e}
    requires forall x :: x in rest ==> Before(x, e) || x == e
    ensures |r| > 0 && r[|r| - 1] == e
  {
    hide Before;
    assert e in multiset(r);
    var i :| 0 <= i < |r| && r[i] == e;
    var last := r[|r| - 1];
    assert last in multiset(r);
    assert last != e ==> last in rest;
    assert i < |r| - 1 ==> !Before(r[|r| - 1], r[i]);
  }

  /** A steady list behind everything else comes out as the tail, in its own order. */
  lemma {:induction false} SteadyTail(r: seq<Endpoint>, front: multiset<Endpoint>, tail: seq<Endpoint>)
    requires Sorted(r) && Steady(tail) && multiset(r) == front + multiset(tail) && Ahead(front, tail)
    ensures Trails(r, tail)
  {
    hide Before, Sorted, Steady, Ahead;
    if tail != [] {
      var t, e := tail[..|tail| - 1], tail[|tail| - 1];
      var rest := front + multiset(t);
      SteadyRest(front, tail);
      LargestIsLast(r, e, rest);
      WithoutLast(r, rest);
      SortedFront(r);
      var r' := r[..|r| - 1];
      SteadyTail(r', front, t);
      assert tail == t + [e];
      assert r[|r| - |tail|..] == r'[|r'| - |t|..] + [e];
    }
  }

  lemma SortedFront(r: seq<Endpoint>)
    requires r != [] && Sorted(r)
    ensures Sorted(r[..|r| - 1])
  {
  }

  lemma SteadyRest(front: multiset<Endpoint>, tail: seq<Endpoint>)
    requires tail != [] && Steady(tail) && Ahead(front, tail)
    ensures var t, e := tail[..|tail| - 1], tail[|tail| - 1];
            (forall x :: x in front + multiset(t) ==> Before(x, e) || x == e) && Steady(t) &&
            multiset(tail) == multiset(t) + multiset{e} && Ahead(front, t)
  {
    hide Before;
    var t, e := tail[..|tail| - 1], tail[|tail| - 1];
    assert tail == t + [e];
    forall x | x in front + multiset(t)
      ensures Before(x, e) || x == e
    {
      if x in multiset(t) {
        var i :| 0 <= i < |t| && t[i] == x;
        assert x == tail[i];
      }
    }
  }

  lemma SeedsTrail(r: seq<Endpoint>, m: map<U32, Endpoint>, seeds: seq<Endpoint>)
    requires IsSnapshot(r, m, seeds) && Clear(m, Kept(seeds, m)) && Steady(Kept(seeds, m))
    ensures Trails(r, Kept(seeds, m))
  {
    hide Before, Sorted, Steady, Trails, Kept;
    var tail := Kept(seeds, m);
    var ks :| Walks(ks, m) && multiset(r) == multiset(Values(m, ks)) + multiset(tail);
    var front := multiset(Values(m, ks));
    forall x, y | x in front && y in tail
      ensures Before(x, y)
    {
      assert x in Values(m, ks);
      var i :| 0 <= i < |ks| && m[ks[i]] == x;
      assert ks[i] in m;
    }
    SteadyTail(r, front, tail);
  }

  lemma {:induction false} WalkExists(m: map<U32, Endpoint>) returns (ks: seq<U32>)
    ensures Walks(ks, m)
    decreases |m|
  {
    if m == map[] {
      ks := [];
    } else {
      var k :| k in m;
      var m' := m - {k};
      assert m'.Keys == m.Keys - {k};
      assert |m'| < |m| by {
        assert |m'.Keys| == |m'| && |m.Keys| == |m|;
      }
      var front := WalkExists(m');
      ks := front + [k];
    }
  }

  lemma SnapshotExists(m: map<U32, Endpoint>, seeds: seq<Endpoint>) returns (r: seq<Endpoint>)
    ensures IsSnapshot(r, m, seeds)
  {
    hide Before, Sorted, Kept;
    var ks := WalkExists(m);
    var all := Values(m, ks) + Kept(seeds, m);
    r := SortedExists(all);
    assert multiset(r) == multiset(Values(m, ks)) + multiset(Kept(seeds, m));
  }

  lemma SwapTied(r: seq<Endpoint>, i: nat, j: nat)
    requires Sorted(r) && i < j < |r| && !Before(r[i], r[j])
    ensures Sorted(r[i := r[j]][j := r[i]]) && multiset(r[i := r[j]][j := r[i]]) == multiset(r)
  {
    assert !Before(r[j], r[i]);
    var s := r[i := r[j]][j := r[i]];
    assert forall a :: 0 <= a < |r| ==> s[a].tier == r[a].tier && s[a].preference == r[a].preference;
    forall a, b | 0 <= a < b < |s|
      ensures !Before(s[b], s[a])
    {
      assert !Before(r[b], r[a]);
    }
  }

  /** Where two tied and different endpoints stand in that order, another snapshot has them swapped. */
  lemma SwappedSnapshot(r: seq<Endpoint>, m: map<U32, Endpoint>, seeds: seq<Endpoint>, i: nat, j: nat)
    requires IsSnapshot(r, m, seeds) && Trails(r, Kept(seeds, m))
    requires i < j < |r| && !Before(r[i], r[j]) && r[i] != r[j] && j >= |r| - |Kept(seeds, m)|
    ensures var s := r[i := r[j]][j := r[i]]; IsSnapshot(s, m, seeds) && !Trails(s, Kept(seeds, m))
  {
    hide Before, Sorted, Merges, Kept;
    SwapTied(r, i, j);
    var tail := Kept(seeds, m);
    var s := r[i := r[j]][j := r[i]];
    var base := |r| - |tail|;
    assert r[base..][j - base] == r[j] && s[base..][j - base] == r[i];
  }

  /** What stands in front of trailing seeds is the beacon entries. */
  lemma FrontIsBeacons(r: seq<Endpoint>, m: map<U32, Endpoint>, seeds: seq<Endpoint>) returns (ks: seq<U32>)
    requires IsSnapshot(r, m, seeds) && Trails(r, Kept(seeds, m))
    ensures Walks(ks, m) && multiset(r[..|r| - |Kept(seeds, m)|]) == multiset(Values(m, ks))
  {
    hide Before, Sorted, Kept, Values;
    var tail := Kept(seeds, m);
    ks :| Walks(ks, m) && multiset(r) == multiset(Values(m, ks)) + multiset(tail);
    var base := |r| - |tail|;
    var front, values := multiset(r[..base]), multiset(Values(m, ks));
    assert r == r[..base] + r[base..];
    assert multiset(r) == front + multiset(tail);
    assert front == multiset(r) - multiset(tail);
    assert values == multiset(r) - multiset(tail);
  }

  lemma MemberIndex(r: seq<Endpoint>, m: map<U32, Endpoint>, seeds: seq<Endpoint>, k: U32) returns (i: nat)
    requires IsSnapshot(r, m, seeds) && k in m && Trails(r, Kept(seeds, m))
    ensures i < |r| - |Kept(seeds, m)| && r[i] == m[k]
  {
    hide Before, Sorted, Kept, Merges;
    var base := |r| - |Kept(seeds, m)|;
    var ks := FrontIsBeacons(r, m, seeds);
    var a :| 0 <= a < |ks| && ks[a] == k;
    assert Values(m, ks)[a] in multiset(Values(m, ks));
    assert m[k] in multiset(r[..base]);
    i :| 0 <= i < base && r[..base][i] == m[k];
  }

  /**
   Every snapshot of the registry ends in the seeds no beacon announces, in list order, exactly when
   each beacon sorts strictly ahead of each of them and no two different ones tie.
   */
  lemma SeedsTrailExactlyWhen(m: map<U32, Endpoint>, seeds: seq<Endpoint>)
    ensures (forall r :: IsSnapshot(r, m, seeds) ==> Trails(r, Kept(seeds, m)))
        <==> Clear(m, Kept(seeds, m)) && Steady(Kept(seeds, m))
  {
    hide Before, Sorted, Trails, Kept, Merges, IsSnapshot;
    var tail := Kept(seeds, m);
    if Clear(m, tail) && Steady(tail) {
      forall r | IsSnapshot(r, m, seeds)
        ensures Trails(r, tail)
      {
        SeedsTrail(r, m, seeds);
      }
    } else {
      var r := SnapshotExists(m, seeds);
      if Trails(r, tail) {
        var s := Disordered(r, m, seeds);
        assert IsSnapshot(s, m, seeds) && !Trails(s, tail);
      }
    }
  }

  lemma TailAt(r: seq<Endpoint>, tail: seq<Endpoint>, i: nat)
    requires Trails(r, tail) && i < |tail|
    ensures |tail| <= |r| && r[|r| - |tail| + i] == tail[i]
  {
    assert r[|r| - |tail|..][i] == r[|r| - |tail| + i];
  }

  lemma Disordered(r: seq<Endpoint>, m: map<U32, Endpoint>, seeds: seq<Endpoint>) returns (s: seq<Endpoint>)
    requires IsSnapshot(r, m, seeds) && Trails(r, Kept(seeds, m))
    requires !Clear(m, Kept(seeds, m)) || !Steady(Kept(seeds, m))
    ensures IsSnapshot(s, m, seeds) && !Trails(s, Kept(seeds, m))
  {
    hide Before, Sorted, Kept, Merges, IsSnapshot, Trails;
    var tail := Kept(seeds, m);
    var base := |r| - |tail|;
    var i, j;
    if !Steady(tail) {
      var a, b :| 0 <= a < b < |tail| && !Before(tail[a], tail[b]) && tail[a] != tail[b];
      TailAt(r, tail, a);
      TailAt(r, tail, b);
      i, j := base + a, base + b;
    } else {
      var k, e :| k in m && e in tail && !Before(m[k], e);
      i := MemberIndex(r, m, seeds, k);
      KeptIn(seeds, m);
      var b :| 0 <= b < |tail| && tail[b] == e;
      TailAt(r, tail, b);
      j := base + b;
    }
    SwappedSnapshot(r, m, seeds, i, j);
    s := r[i := r[j]][j := r[i]];
  }

  // ----- seeds -----

  /** Tier 0xFF, and a preference that counts down from 255 with the list position and stops at zero. */
  function SeedEntry(addr: string, i: nat): Endpoint {
    Endpoint(addr, SEED_TIER, Max(255 - i, 0), 0, NEVER, (0xFFFF_F000 + i) % 0x1_0000_0000, false)
  }

  function SeedList(addrs: seq<string>): (r: seq<Endpoint>)
    ensures |r| == |addrs| && forall i :: 0 <= i < |r| ==> r[i] == SeedEntry(addrs[i], i)
  {
    if addrs == [] then []
    else SeedList(addrs[..|addrs| - 1]) + [SeedEntry(addrs[|addrs| - 1], |addrs| - 1)]
  }

  lemma {:induction false} KeptSteady(seeds: seq<Endpoint>, m: map<U32, Endpoint>)
    requires Steady(seeds)
    ensures Steady(Kept(seeds, m))
  {
    hide Before, Announced;
    if seeds != [] {
      var front, s := seeds[..|seeds| - 1], seeds[|seeds| - 1];
      KeptSteady(front, m);
      KeptIn(front, m);
      var k := Kept(front, m);
      forall i | 0 <= i < |k|
        ensures Before(k[i], s) || k[i] == s
      {
        assert k[i] in front;
      }
    }
  }

  /** A seed expires with the start of the year 9999, announces nothing, and has an instance ID from the top of the range. */
  lemma SeedsExpireIn9999(addrs: seq<string>, i: nat)
    requires i < |addrs|
    ensures var e := SeedList(addrs)[i];
            && e.expires == 253_370_764_800 * 1_000_000_000 && e.addr == addrs[i] && !e.unicast && e.flags == 0
            && e.tier == 0xFF && (i < 0x1000 ==> e.instanceId == 0xFFFF_F000 + i)
  {
    hide SeedList;
    assert SeedList(addrs)[i] == SeedEntry(addrs[i], i);
  }

  /** With at most 256 seeds and no beacon at the seeds' own tier, they come last and in list order. */
  lemma SeedsComeLast(r: seq<Endpoint>, m: map<U32, Endpoint>, addrs: seq<string>)
    requires IsSnapshot(r, m, SeedList(addrs)) && |addrs| <= 256
    requires forall k :: k in m ==> m[k].tier != SEED_TIER
    ensures Trails(r, Kept(SeedList(addrs), m))
  {
    hide Sorted, Merges, Trails, Kept, Announced;
    var seeds := SeedList(addrs);
    assert Steady(seeds);
    KeptSteady(seeds, m);
    KeptIn(seeds, m);
    forall k, e | k in m && e in Kept(seeds, m)
      ensures Before(m[k], e)
    {
      assert e in seeds;
    }
    SeedsTrail(r, m, seeds);
  }

  lemma OneValue(ks: seq<U32>, id: U32, beacon: Endpoint)
    requires Walks(ks, map[id := beacon])
    ensures Values(map[id := beacon], ks) == [beacon]
  {
    OneKey(ks, id, beacon);
  }

  lemma OneKept(s: Endpoint, m: map<U32, Endpoint>)
    requires !Announced(m, s.addr)
    ensures Kept([s], m) == [s]
  {
    hide Announced;
    assert [s][..0] == [];
    assert Kept([], m) == [];
  }

  lemma PairMerged(r: seq<Endpoint>, id: U32, beacon: Endpoint, s: Endpoint)
    requires Merges(multiset(r), map[id := beacon], [s]) && beacon.addr != s.addr
    ensures multiset(r) == multiset{s} + multiset{beacon}
  {
    hide Kept, Values, Announced;
    var m := map[id := beacon];
    NotAnnounced(id, beacon, s.addr);
    OneKept(s, m);
    var ks :| Walks(ks, m) && multiset(r) == multiset(Values(m, ks)) + multiset(Kept([s], m));
    OneValue(ks, id, beacon);
  }

  lemma PairSorted(r: seq<Endpoint>, s: Endpoint, b: Endpoint)
    requires Sorted(r) && Before(s, b) && multiset(r) == multiset{s} + multiset{b}
    ensures r == [s, b]
  {
    hide Sorted, Before;
    LargestIsLast(r, b, multiset{s});
    WithoutLast(r, multiset{s});
    assert |r| == |multiset(r)| == 2;
    assert r[..|r| - 1][0] in multiset(r[..|r| - 1]);
  }

  /** A beacon at the seeds' tier with a lower preference is asked after the seed, in every snapshot. */
  lemma SeedTierBeaconComesLast(r: seq<Endpoint>, id: U32, beacon: Endpoint, addr: string)
    requires IsSnapshot(r, map[id := beacon], SeedList([addr]))
    requires beacon.tier == SEED_TIER && beacon.preference < 255 && beacon.addr != addr
    ensures r == [SeedEntry(addr, 0), beacon]
  {
    hide Sorted, Merges;
    var s := SeedEntry(addr, 0);
    assert SeedList([addr]) == [s];
    PairMerged(r, id, beacon, s);
    PairSorted(r, s, beacon);
  }

  lemma NotAnnounced(id: U32, beacon: Endpoint, addr: string)
    requires beacon.addr != addr
    ensures !Announced(map[id := beacon], addr)
  {
  }

  lemma OneKey(ks: seq<U32>, id: U32, beacon: Endpoint)
    requires Walks(ks, map[id := beacon])
    ensures ks == [id]
  {
    NoDupSize(ks);
    assert Elements(ks) == {id};
    assert ks[0] in ks;
  }

  // ----- this node's own endpoint goes last -----

  function Without(endpoints: seq<string>, skip: string -> bool): seq<string> {
    if endpoints == [] then []
    else
      var e := endpoints[|endpoints| - 1];
      Without(endpoints[..|endpoints| - 1], skip) + (if skip(e) then [] else [e])
  }

  function Demoted(endpoints: seq<string>, own: string -> bool): seq<string> {
    Without(endpoints, own) + Without(endpoints, e => !own(e))
  }

  /** own says whether an endpoint names this node, known whether this node's address is set. */
  method DemoteSelf(endpoints: seq<string>, own: string -> bool, known: bool) returns (r: seq<string>)
    ensures r == if known && |endpoints| >= 2 then Demoted(endpoints, own) else endpoints
  {
    if !known || |endpoints| < 2 {
      return endpoints;
    }
    var remote, mine := [], [];
    for i := 0 to |endpoints|
      invariant remote == Without(endpoints[..i], own)
      invariant mine == Without(endpoints[..i], e => !own(e))
    {
      assert endpoints[..i + 1][..i] == endpoints[..i];
      if own(endpoints[i]) {
        mine := mine + [endpoints[i]];
      } else {
        remote := remote + [endpoints[i]];
      }
    }
    assert endpoints[..|endpoints|] == endpoints;
    r := remote + mine;
  }

  lemma {:induction false} WithoutSkips(endpoints: seq<string>, skip: string -> bool)
    ensures forall e :: e in Without(endpoints, skip) <==> e in endpoints && !skip(e)
  {
    if endpoints != [] {
      var front, last := endpoints[..|endpoints| - 1], endpoints[|endpoints| - 1];
      WithoutSkips(front, skip);
      assert endpoints == front + [last];
    }
  }

  /** Demoting loses and adds no endpoint. */
  lemma {:induction false} DemotedIsPermutation(endpoints: seq<string>, own: string -> bool)
    ensures multiset(Demoted(endpoints, own)) == multiset(endpoints)
  {
    if endpoints != [] {
      var front, last := endpoints[..|endpoints| - 1], endpoints[|endpoints| - 1];
      DemotedIsPermutation(front, own);
      assert endpoints == front + [last];
    }
  }

  lemma {:induction false} KeptAppend(a: seq<Endpoint>, b: seq<Endpoint>, m: map<U32, Endpoint>)
    ensures Kept(a + b, m) == Kept(a, m) + Kept(b, m)
  {
    hide Announced;
    if b == [] {
      assert a + b == a;
    } else {
      var front, s := b[..|b| - 1], b[|b| - 1];
      KeptAppend(a, front, m);
      assert (a + b)[..|a + b| - 1] == a + front;
    }
  }

  /** In the kept seeds of a demoted list every remote endpoint comes before every own one. */
  lemma RemoteKeptFirst(m: map<U32, Endpoint>, endpoints: seq<string>, own: string -> bool, i: nat, j: nat)
    requires var k := Kept(SeedList(Demoted(endpoints, own)), m);
             i < |k| && j < |k| && !own(k[i].addr) && own(k[j].addr)
    ensures i < j
  {
    hide Kept, Without, Announced, SeedList;
    var remote, mine := Without(endpoints, own), Without(endpoints, e => !own(e));
    WithoutSkips(endpoints, own);
    WithoutSkips(endpoints, e => !own(e));
    var seeds := SeedList(remote + mine);
    var a, b := seeds[..|remote|], seeds[|remote|..];
    assert seeds == a + b;
    KeptAppend(a, b, m);
    KeptIn(a, m);
    KeptIn(b, m);
    var ka, kb := Kept(a, m), Kept(b, m);
    assert forall e :: e in a ==> e.addr in remote;
    assert forall e :: e in b ==> e.addr in mine;
    assert forall x :: 0 <= x < |ka| ==> ka[x] in a;
    assert forall x :: 0 <= x < |kb| ==> kb[x] in b;
  }

  /**
   Once this node's own endpoints are demoted, every snapshot asks every remote seed before any of them,
   provided there are at most 256 seeds and no beacon at the seeds' own tier.
   */
  lemma RemoteSeedsFirst(r: seq<Endpoint>, m: map<U32, Endpoint>, endpoints: seq<string>, own: string -> bool,
                         i: nat, j: nat)
    requires |endpoints| <= 256 && IsSnapshot(r, m, SeedList(Demoted(endpoints, own)))
    requires forall k :: k in m ==> m[k].tier != SEED_TIER
    requires i < |r| && j < |r| && r[i].tier == r[j].tier == SEED_TIER
    requires !own(r[i].addr) && own(r[j].addr)
    ensures i < j
  {
    hide Sorted, Before, Kept, Without, Announced, SeedList, Demoted;
    var addrs := Demoted(endpoints, own);
    DemotedIsPermutation(endpoints, own);
    assert |addrs| == |multiset(addrs)| == |multiset(endpoints)| == |endpoints|;
    SeedsComeLast(r, m, addrs);
    var tail := Kept(SeedList(addrs), m);
    var base := |r| - |tail|;
    BeaconsInFront(r, m, SeedList(addrs), i);
    BeaconsInFront(r, m, SeedList(addrs), j);
    TailAt(r, tail, i - base);
    TailAt(r, tail, j - base);
    RemoteKeptFirst(m, endpoints, own, i - base, j - base);
  }

  /** What stands in front of the kept seeds is a beacon entry. */
  lemma BeaconsInFront(r: seq<Endpoint>, m: map<U32, Endpoint>, seeds: seq<Endpoint>, i: nat)
    requires IsSnapshot(r, m, seeds) && Trails(r, Kept(seeds, m)) && i < |r|
    ensures i >= |r| - |Kept(seeds, m)| || exists k :: k in m && m[k] == r[i]
  {
    hide Before, Sorted, Kept, Merges;
    var base := |r| - |Kept(seeds, m)|;
    var ks := FrontIsBeacons(r, m, seeds);
    if i < base {
      assert r[..base][i] in multiset(r[..base]);
      assert r[i] in Values(m, ks);
      var a :| 0 <= a < |ks| && m[ks[a]] == r[i];
      assert ks[a] in ks;
    }
  }
}
