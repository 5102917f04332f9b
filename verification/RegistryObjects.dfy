/**
 The registry as the source keeps it: entry objects refreshed in place, a list of seed objects, and a
 sorted snapshot cached behind a dirty flag. Whatever the history of updates, a snapshot is a snapshot
 of what the registry holds now, made of objects the registry does not keep.
 */
module RegistryObjects {
  import opened Base
  import opened Registry

  const SECOND: Time := 1_000_000_000

  /** A decoded beacon; addr is its address and port written out. */
  datatype Advert = Advert(addr: string, tier: Byte, preference: Byte, flags: U16, interval: U16, instanceId: U32)

  /** The unicast retransmit bit, 0x0008. */
  predicate Unicast(flags: U16) {
    flags / 8 % 2 == 1
  }

  function Advertised(a: Advert, now: Time): Endpoint {
    Endpoint(a.addr, a.tier, a.preference, a.flags, now + a.interval * 3 * SECOND, a.instanceId, Unicast(a.flags))
  }

  function Live(m: map<U32, Endpoint>, now: Time): map<U32, Endpoint> {
    map k | k in m && now <= m[k].expires :: m[k]
  }

  /**
   A beacon's entry lives for three of the intervals it announces, from the last time it is heard; entries of
   others are kept or dropped by their own.
   */
  lemma LivesThreeIntervals(m: map<U32, Endpoint>, a: Advert, heard: Time, now: Time, k: U32)
    ensures var live := Live(m[a.instanceId := Advertised(a, heard)], now);
            && (a.instanceId in live <==> now <= heard + 3 * (a.interval * 1_000_000_000))
            && (k != a.instanceId ==> (k in live <==> k in m && now <= m[k].expires))
            && (k in live && k != a.instanceId ==> live[k] == m[k])
  {
  }

  /** What a beacon announces is what its entry says, the unicast flag being bit three of its flags. */
  lemma SaysWhatIsAnnounced(a: Advert, now: Time, high: nat, low: nat)
    requires a.flags == 16 * high + low && low < 16
    ensures var e := Advertised(a, now);
            && e.addr == a.addr && e.tier == a.tier && e.preference == a.preference && e.flags == a.flags
            && e.instanceId == a.instanceId && (e.unicast <==> low >= 8)
  {
    assert a.flags / 8 == 2 * high + low / 8;
  }

  class EntryObject {
    var addr: string
    var tier: Byte
    var preference: Byte
    var flags: U16
    var expires: Time
    var instanceId: U32
    var unicast: bool

    function View(): Endpoint
      reads this
    {
      Endpoint(addr, tier, preference, flags, expires, instanceId, unicast)
    }

    constructor (e: Endpoint)
      ensures View() == e
    {
      addr, tier, preference, flags := e.addr, e.tier, e.preference, e.flags;
      expires, instanceId, unicast := e.expires, e.instanceId, e.unicast;
    }

    method Refresh(a: Advert, now: Time)
      modifies this
      ensures View() == Advertised(a, now).(instanceId := old(instanceId))
    {
      addr, tier, preference, flags := a.addr, a.tier, a.preference, a.flags;
      expires, unicast := now + a.interval * 3 * SECOND, Unicast(a.flags);
    }
  }

  ghost function ViewsOf(m: map<U32, EntryObject>): map<U32, Endpoint>
    reads m.Values
  {
    map k | k in m :: m[k].View()
  }

  function ViewList(s: seq<EntryObject>): (r: seq<Endpoint>)
    reads s
    ensures |r| == |s| && forall i :: 0 <= i < |s| ==> r[i] == s[i].View()
  {
    if s == [] then [] else ViewList(s[..|s| - 1]) + [s[|s| - 1].View()]
  }

  lemma ListGrows(s: seq<EntryObject>, o: EntryObject)
    ensures ViewList(s + [o]) == ViewList(s) + [o.View()]
  {
    assert (s + [o])[..|s|] == s;
  }

  /** Distinct keys hold distinct objects, each under its own instance ID. */
  ghost predicate Separate(m: map<U32, EntryObject>)
    reads m.Values
  {
    (forall k, k' :: k in m && k' in m && k != k' ==> m[k] != m[k']) && forall k :: k in m ==> m[k].instanceId == k
  }

  /** Fresh objects with the given contents. */
  method Copies(s: seq<Endpoint>) returns (r: seq<EntryObject>)
    ensures ViewList(r) == s && forall o :: o in r ==> fresh(o)
  {
    hide ViewList;
    r := [];
    for i := 0 to |s|
      invariant ViewList(r) == s[..i] && forall o :: o in r ==> fresh(o)
    {
      var o := new EntryObject(s[i]);
      ListGrows(r, o);
      r := r + [o];
    }
    assert s[..|s|] == s;
  }

  /** A deep copy of a list of entries. */
  method CopyAll(s: seq<EntryObject>) returns (r: seq<EntryObject>)
    ensures ViewList(r) == ViewList(s) && forall o :: o in r ==> fresh(o)
  {
    hide ViewList;
    r := [];
    for i := 0 to |s|
      invariant ViewList(r) == ViewList(s[..i]) && forall o :: o in r ==> fresh(o)
    {
      var o := new EntryObject(s[i].View());
      ListGrows(r, o);
      ListGrows(s[..i], s[i]);
      assert s[..i + 1] == s[..i] + [s[i]];
      r := r + [o];
    }
    assert s[..|s|] == s;
  }

  method MakeSeeds(addrs: seq<string>) returns (made: seq<EntryObject>)
    ensures ViewList(made) == SeedList(addrs) && forall o :: o in made ==> fresh(o)
  {
    hide ViewList;
    made := [];
    for i := 0 to |addrs|
      invariant ViewList(made) == SeedList(addrs[..i]) && forall o :: o in made ==> fresh(o)
    {
      var s := new EntryObject(SeedEntry(addrs[i], i));
      assert addrs[..i + 1][..i] == addrs[..i];
      ListGrows(made, s);
      made := made + [s];
    }
    assert addrs[..|addrs|] == addrs;
  }

  /** The entries not yet expired, found in any order, and whether any was dropped. */
  method Surviving(m: map<U32, EntryObject>, now: Time) returns (r: map<U32, EntryObject>, changed: bool)
    ensures ViewsOf(r) == Live(ViewsOf(m), now) && (changed <==> r != m)
    ensures forall k :: k in r ==> k in m && r[k] == m[k]
  {
    r, changed := m, false;
    var rest := m.Keys;
    while rest != {}
      invariant rest <= r.Keys && forall k :: k in r ==> k in m && r[k] == m[k]
      invariant forall k :: k in m && k !in rest ==> (k in r <==> now <= m[k].expires)
      invariant changed <==> r != m
      decreases |rest|
    {
      var k :| k in rest;
      rest := rest - {k};
      if now > r[k].expires {
        assert k in m && k !in r - {k};
        r := r - {k};
        changed := true;
      }
    }
  }

  /** The beacon entries in the order the walk met them, and their addresses. */
  method MergeBeacons(m: map<U32, EntryObject>) returns (all: seq<Endpoint>, seen: set<string>, ghost ks: seq<U32>)
    ensures Walks(ks, ViewsOf(m)) && all == Values(ViewsOf(m), ks)
    ensures forall a :: a in seen <==> Announced(ViewsOf(m), a)
  {
    all, seen, ks := [], {}, [];
    ghost var views := ViewsOf(m);
    var rest := m.Keys;
    while rest != {}
      invariant rest <= m.Keys && NoDup(ks) && (forall k :: k in ks <==> k in m && k !in rest)
      invariant all == Values(views, ks)
      invariant forall a :: a in seen <==> exists k :: k in ks && views[k].addr == a
      decreases |rest|
    {
      hide ViewsOf, Announced;
      var k :| k in rest;
      rest := rest - {k};
      var e := m[k].View();
      ViewsAt(m, k);
      SeenGrows(views, ks, k, seen);
      assert (ks + [k])[..|ks|] == ks;
      all := all + [e];
      seen := seen + {e.addr};
      ks := ks + [k];
    }
  }

  lemma ViewsAt(m: map<U32, EntryObject>, k: U32)
    requires k in m
    ensures k in ViewsOf(m) && ViewsOf(m)[k] == m[k].View()
  {
  }

  lemma SeenGrows(views: map<U32, Endpoint>, ks: seq<U32>, k: U32, seen: set<string>)
    requires k in views && forall k' :: k' in ks ==> k' in views
    requires forall a :: a in seen <==> exists k' :: k' in ks && views[k'].addr == a
    ensures forall a :: a in seen + {views[k].addr} <==> exists k' :: k' in ks + [k] && views[k'].addr == a
  {
    forall a
      ensures a in seen + {views[k].addr} <==> exists k' :: k' in ks + [k] && views[k'].addr == a
    {
      if a in seen {
        var k' :| k' in ks && views[k'].addr == a;
        assert k' in ks + [k];
      } else if a == views[k].addr {
        assert k in ks + [k];
      }
    }
  }

  /** The seeds whose address was not seen, in list order. */
  method UnseenSeeds(seeds: seq<EntryObject>, seen: set<string>, ghost m: map<U32, Endpoint>)
    returns (r: seq<Endpoint>)
    requires forall a :: a in seen <==> Announced(m, a)
    ensures r == Kept(ViewList(seeds), m)
  {
    hide Announced;
    r := [];
    ghost var views := ViewList(seeds);
    for i := 0 to |seeds|
      invariant r == Kept(views[..i], m)
    {
      assert views[..i + 1][..i] == views[..i];
      if seeds[i].addr !in seen {
        r := r + [seeds[i].View()];
      }
    }
    assert views[..|seeds|] == views;
  }

  /** Merge, drop seeds a beacon announces, and sort. */
  method Rebuild(m: map<U32, EntryObject>, seeds: seq<EntryObject>) returns (r: seq<Endpoint>)
    ensures IsSnapshot(r, ViewsOf(m), ViewList(seeds))
  {
    hide ViewsOf, ViewList, Kept, Announced, Sorted, Walks, Values;
    var all, seen, ks := MergeBeacons(m);
    var kept := UnseenSeeds(seeds, seen, ViewsOf(m));
    r := SortEndpoints(all + kept);
    assert multiset(all + kept) == multiset(all) + multiset(kept);
    assert Merges(multiset(r), ViewsOf(m), ViewList(seeds));
  }

  lemma EntryAdded(m: map<U32, EntryObject>, k: U32, e: EntryObject)
    requires Separate(m) && k !in m && e.instanceId == k && forall k' :: k' in m ==> m[k'] != e
    ensures Separate(m[k := e]) && ViewsOf(m[k := e]) == ViewsOf(m)[k := e.View()]
  {
  }

  lemma AdvertisedId(a: Advert, now: Time)
    ensures Advertised(a, now).instanceId == a.instanceId
  {
  }

  class EndpointRegistry {
    var entries: map<U32, EntryObject>
    var seeds: seq<EntryObject>
    var snapshot: Option<seq<EntryObject>>
    var dirty: bool

    ghost function Beacons(): map<U32, Endpoint>
      reads this, entries.Values
    {
      ViewsOf(entries)
    }

    ghost function Seeds(): seq<Endpoint>
      reads this, seeds
    {
      ViewList(seeds)
    }

    /** The cached objects. */
    ghost function Cached(): seq<EntryObject>
      reads this
    {
      if snapshot.Some? then snapshot.value else []
    }

    ghost predicate Valid()
      reads this, entries.Values, seeds, Cached()
    {
      Separate(entries) &&
      (forall k :: k in entries ==> entries[k] !in seeds && entries[k] !in Cached()) &&
      (!dirty && snapshot.Some? ==> IsSnapshot(ViewList(snapshot.value), Beacons(), Seeds()))
    }

    constructor ()
      ensures Valid() && Beacons() == map[] && Seeds() == []
    {
      entries, seeds, snapshot, dirty := map[], [], None, false;
    }

    /** Refresh the entry a beacon announces again. */
    method RefreshEntry(a: Advert, now: Time)
      requires Valid() && a.instanceId in entries
      modifies this`dirty, entries[a.instanceId]
      ensures Valid() && dirty && Beacons() == old(Beacons())[a.instanceId := Advertised(a, now)]
      ensures Seeds() == old(Seeds())
    {
      hide IsSnapshot, Advertised;
      var e := entries[a.instanceId];
      e.Refresh(a, now);
      dirty := true;
      assert e.View() == Advertised(a, now) by {
        AdvertisedId(a, now);
      }
    }

    /** Add the entry a new beacon announces. */
    method AddEntry(a: Advert, now: Time)
      requires Valid() && a.instanceId !in entries
      modifies this`dirty, this`entries
      ensures Valid() && dirty && Beacons() == old(Beacons())[a.instanceId := Advertised(a, now)]
      ensures Seeds() == old(Seeds()) && fresh(entries.Values - old(entries.Values))
    {
      hide IsSnapshot, Advertised, ViewList, ViewsOf, Separate;
      var e := new EntryObject(Advertised(a, now));
      AdvertisedId(a, now);
      assert forall k :: k in entries ==> entries[k] in entries.Values;
      EntryAdded(entries, a.instanceId, e);
      entries := entries[a.instanceId := e];
      dirty := true;
    }

    /** Insert or refresh the entry a beacon announces. */
    method Upsert(a: Advert, now: Time)
      requires Valid()
      modifies this`dirty, this`entries, entries.Values
      ensures Valid() && dirty && Beacons() == old(Beacons())[a.instanceId := Advertised(a, now)]
      ensures Seeds() == old(Seeds())
    {
      hide IsSnapshot, Advertised, ViewList, ViewsOf, Separate;
      if a.instanceId in entries {
        assert entries[a.instanceId] in entries.Values;
        RefreshEntry(a, now);
      } else {
        AddEntry(a, now);
      }
    }

    /** Drop every entry whose expiry has passed. */
    method Evict(now: Time)
      requires Valid()
      modifies this`dirty, this`entries
      ensures Valid() && Beacons() == Live(old(Beacons()), now) && Seeds() == old(Seeds())
    {
      hide IsSnapshot, ViewList, ViewsOf, Live;
      var kept, changed := Surviving(entries, now);
      entries := kept;
      dirty := dirty || changed;
    }

    /** Replace the static seeds. */
    method Seed(addrs: seq<string>)
      requires Valid()
      modifies this`dirty, this`seeds
      ensures Valid() && dirty && Beacons() == old(Beacons()) && Seeds() == SeedList(addrs)
    {
      hide IsSnapshot, ViewList, ViewsOf, SeedList;
      seeds := MakeSeeds(addrs);
      dirty := true;
    }

    /** Rebuild the cache from copies. */
    method Refill()
      requires Valid()
      modifies this`snapshot, this`dirty
      ensures Valid() && !dirty && snapshot.Some? && Beacons() == old(Beacons()) && Seeds() == old(Seeds())
    {
      hide IsSnapshot, ViewsOf, ViewList;
      var sorted := Rebuild(entries, seeds);
      var copies := Copies(sorted);
      snapshot, dirty := Some(copies), false;
    }

    /**
     The sorted endpoints. Cached or rebuilt, they are what the registry holds now, and the objects
     handed out are new ones, so that nothing done to them reaches the registry.
     */
    method Snapshot() returns (r: seq<EntryObject>)
      requires Valid()
      modifies this`snapshot, this`dirty
      ensures Valid() && Beacons() == old(Beacons()) && Seeds() == old(Seeds())
      ensures IsSnapshot(ViewList(r), Beacons(), Seeds())
      ensures forall o :: o in r ==> fresh(o) && o !in entries.Values && o !in seeds && o !in Cached()
      ensures !old(dirty) && old(snapshot).Some? ==>
                snapshot == old(snapshot) && ViewList(r) == old(ViewList(Cached()))
    {
      hide IsSnapshot, ViewsOf, ViewList;
      if dirty || snapshot.None? {
        Refill();
      }
      r := CopyAll(snapshot.value);
    }
  }
}
