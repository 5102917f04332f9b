/**
 The reassembly buffer as the listener runs it: a table of slot objects updated in place, two key
 queues, loops over both. Each method is proved to take the buffer's state where module Reassembly
 takes the corresponding value.
 */
module BufferObjects {
  import opened Base
  import opened Slots
  import opened SlotObjects
  import R = Reassembly
  import I = ReassemblyInvariants

  // ----- tables of slot objects -----

  /** What the slot objects of a table stand for. */
  ghost function ViewsOf(m: map<Key, SlotObject>): map<Key, Slot>
    reads m.Values
  {
    map k | k in m :: m[k].View()
  }

  /** The slots are well formed, filed under their keys, made of objects of own, and share none. */
  ghost predicate Separate(m: map<Key, SlotObject>, own: set<object>)
    reads m.Values, own
  {
    && (forall k :: k in m ==> m[k].Repr() <= own && m[k].Valid() && m[k].key == k)
    && (forall j, k :: j in m && k in m && j != k ==> m[j].Repr() !! m[k].Repr())
  }

  lemma EmptyTable()
    ensures ViewsOf(map[]) == map[] && Separate(map[], {})
  {
  }

  lemma RemoveFrom(m: map<Key, SlotObject>, own: set<object>, k: Key)
    requires Separate(m, own)
    ensures ViewsOf(m - {k}) == ViewsOf(m) - {k} && Separate(m - {k}, own)
  {
  }

  /** A slot made of new objects joins the table. */
  lemma AddTo(m: map<Key, SlotObject>, own: set<object>, k: Key, s: SlotObject)
    requires Separate(m, own) && s.Valid() && s.key == k && s.Repr() !! own
    ensures ViewsOf(m[k := s]) == ViewsOf(m)[k := s.View()]
    ensures Separate(m[k := s], own + s.Repr())
  {
    hide SlotObject.Valid, SlotObject.Repr, SlotObject.View;
  }

  lemma Overwritten(m: map<Key, Slot>, k: Key, a: Slot, b: Slot)
    ensures m[k := a][k := b] == m[k := b]
  {
  }

  /** A table without slot k, and the objects that are not slot k's. */
  lemma SetAside(m: map<Key, SlotObject>, own: set<object>, k: Key)
    requires Separate(m, own) && k in m
    ensures var rest, apart := m - {k}, own - m[k].Repr();
            Separate(rest, apart) && rest.Values <= apart && ViewsOf(m) == ViewsOf(rest)[k := m[k].View()]
  {
    hide SlotObject.Valid, SlotObject.View;
  }

  lemma PutBack(rest: map<Key, SlotObject>, apart: set<object>, own: set<object>, k: Key, s: SlotObject)
    requires Separate(rest, apart) && apart + s.Repr() <= own && apart !! s.Repr()
    requires k !in rest && s.Valid() && s.key == k
    ensures Separate(rest[k := s], own) && ViewsOf(rest[k := s]) == ViewsOf(rest)[k := s.View()]
  {
    hide SlotObject.Valid, SlotObject.View, SlotObject.Repr;
    assert forall j :: j in rest ==> rest[j].Repr() <= apart;
  }

  lemma SlotIsValid(m: map<Key, SlotObject>, own: set<object>, k: Key)
    requires Separate(m, own) && k in m
    ensures m[k].Valid() && m[k].key == k && m[k].Repr() <= own && m[k] in own
  {
  }

  lemma ViewsKeys(m: map<Key, SlotObject>)
    ensures ViewsOf(m).Keys == m.Keys
  {
  }

  lemma NoViews()
    ensures ViewsOf(map[]) == map[]
  {
  }

  lemma ViewsSize(m: map<Key, SlotObject>)
    ensures |ViewsOf(m)| == |m|
  {
    ViewsKeys(m);
    assert |ViewsOf(m)| == |ViewsOf(m).Keys| && |m| == |m.Keys|;
  }

  lemma ViewIs(m: map<Key, SlotObject>, k: Key)
    requires k in m
    ensures k in ViewsOf(m) && ViewsOf(m)[k] == m[k].View()
  {
  }

  lemma SlotCounts(s: SlotObject)
    requires s.Valid()
    ensures s.received == |s.parts| && s.received <= s.total
  {
    CountIsComplete(s.View());
  }

  lemma MarkDoneFrame<E>(cfg: R.Config, st: R.State<E>, k: Key, at: Time, slots: map<Key, Slot>)
    ensures R.MarkDone(cfg, st.(slots := slots), k, at) == R.MarkDone(cfg, st, k, at).(slots := slots)
  {
  }

  /** Completion removes the slot, so it does not matter whether its last fragment was filed first. */
  lemma CompleteForgets<E>(cfg: R.Config, st: R.State<E>, key: Key, t: Slot, at: Time)
    requires t.key == key
    ensures R.Complete(cfg, st.(slots := st.slots[key := t]), t, at) == R.Complete(cfg, st, t, at)
  {
    hide R.Outcome, Payload, R.MarkDone;
    MarkDoneFrame(cfg, st, key, at, st.slots[key := t]);
    MarkDoneFrame(cfg, st, key, at, st.slots);
    assert st.slots[key := t] - {key} == st.slots - {key};
  }

  /** The delivery an assembled object leads to, after its hash check where one applies. */
  method Dispatch(cfg: R.Config, s: SlotObject, payload: seq<Byte>) returns (result: Option<R.Delivery>)
    ensures result == R.Outcome(cfg, s.View(), payload)
  {
    if s.ver == VER_V4 {
      return Some(R.BlockDelivery(s.msgType, s.txId, s.hashKey, s.seqNum, payload));
    }
    if s.ver == VER_V5 {
      return Some(R.SubtreeDelivery(s.msgType, s.txId, s.hashKey, s.seqNum, payload));
    }
    if cfg.verifyHash && !cfg.hashOk(s.ver == VER_V9, s.txId, payload) {
      return None;
    }
    if s.ver == VER_V9 {
      return Some(R.BeefDelivery(s.msgType, s.txId, s.subtreeId, s.hashKey, s.seqNum, payload));
    }
    return Some(R.TxDelivery(s.txId, s.subtreeId, s.hashKey, s.seqNum, payload));
  }

  class Buffer<E> {
    const cfg: R.Config
    const hooks: R.Hooks<E>
    const headerSize: nat
    var slots: map<Key, SlotObject>
    var insertOrder: seq<Key>
    var done: map<Key, Time>
    var doneOrder: seq<Key>
    var lastEvict: Option<Time>
    var env: E             // the repair path behind the hooks
    var log: seq<R.Event>  // the calls made outwards
    ghost var own: set<object>

    ghost function Abs(): R.State<E>
      reads this, slots.Values
    {
      R.State(ViewsOf(slots), insertOrder, done, doneOrder, lastEvict, env, log)
    }

    ghost predicate Owns()
      reads this, slots.Values, own
    {
      this !in own && Separate(slots, own)
    }

    ghost predicate Valid()
      reads this, slots.Values, own
    {
      Owns() && I.Inv(cfg, Abs())
    }

    constructor (cfg: R.Config, hooks: R.Hooks<E>, headerSize: nat, env: E)
      ensures Valid() && own == {} && Abs() == R.Fresh(env)
      ensures this.cfg == cfg && this.hooks == hooks && this.headerSize == headerSize
    {
      hide Separate, ViewsOf, I.Inv;
      this.cfg, this.hooks, this.headerSize := cfg, hooks, headerSize;
      slots, insertOrder := map[], [];
      done, doneOrder, lastEvict := map[], [], None;
      this.env, log := env, [];
      own := {};
      new;
      EmptyTable();
      I.FreshInv(cfg, env);
    }

    // ----- completion memory -----

    /** markDone. */
    method MarkDone(key: Key, at: Time)
      requires Owns()
      modifies this`done, this`doneOrder
      ensures Owns() && Abs() == R.MarkDone(cfg, old(Abs()), key, at)
    {
      hide Separate, ViewsOf;
      var d, o := Remember(done, doneOrder, cfg.maxSlots, key, at + cfg.completionTTL);
      done, doneOrder := d, o;
    }

    /** sweepDone: one pass over the queue, dropping what has run out. */
    method SweepDone(now: Time)
      requires Owns() && done.Keys == Elements(doneOrder) && NoDup(doneOrder)
      modifies this`done, this`doneOrder
      ensures Owns() && Abs() == R.SweepDone(old(Abs()), now)
    {
      hide Separate, ViewsOf, R.KeepOnly, R.Unexpired, Restrict;
      var kept, live := SurvivingKeys(done, doneOrder, now);
      done, doneOrder := kept, live;
    }

    // ----- expiry -----

    method Abandon(key: Key, reason: R.Reason)
      requires Owns()
      modifies this`slots, this`log
      ensures Owns() && Abs() == R.Abandon(old(Abs()), key, reason)
    {
      hide Separate, ViewsOf;
      RemoveFrom(slots, own, key);
      log := log + [R.Abandoned(key, reason)];
      slots := slots - {key};
    }

    /** The incomplete hook, if installed and if there is anything to ask for. */
    method NotifyIncomplete(s: SlotObject, missing: seq<U64>)
      requires Owns()
      modifies this`env, this`log
      ensures Owns()
      ensures Abs() == if !cfg.asks || missing == [] then old(Abs())
                       else old(Abs()).(env := hooks.request(old(env), s.hashKey, missing),
                                        log := old(log) + [R.Asked(s.key, s.hashKey, missing)])
    {
      hide Separate, ViewsOf;
      if cfg.asks && |missing| > 0 {
        env := hooks.request(env, s.hashKey, missing);
        log := log + [R.Asked(s.key, s.hashKey, missing)];
      }
    }

    /** First expiry inside the age limit: mark the slot, then ask for what is missing. */
    method AskOnce(key: Key, s: SlotObject, missing: seq<U64>, now: Time)
      requires Owns() && key in slots && slots[key] == s && missing == Missing(s.View())
      modifies this`env, this`log, s`requested
      ensures Owns() && Abs() == R.AskOnce(cfg, hooks, old(Abs()), key, now)
    {
      hide Separate, Missing;
      SlotIsValid(slots, own, key);
      ViewIs(slots, key);
      if !s.requested && now < s.born + cfg.maxAge {
        MarkRequested(key, s);
        NotifyIncomplete(s, missing);
      }
    }

    method MarkRequested(key: Key, s: SlotObject)
      requires Owns() && key in slots && slots[key] == s
      modifies s`requested
      ensures Owns() && Abs() == old(Abs()).(slots := old(Abs()).slots[key := s.View()])
      ensures s.View() == old(s.View()).(requested := true)
    {
      hide SlotObject.Valid, SlotObject.View, ViewsOf, Separate;
      SlotIsValid(slots, own, key);
      ghost var rest := slots - {key};
      ghost var apart := own - s.Repr();
      SetAside(slots, own, key);
      s.MarkRequested();
      assert rest[key := s] == slots;
      PutBack(rest, apart, own, key, s);
      Overwritten(ViewsOf(rest), key, old(s.View()), s.View());
    }

    /** Repair is in progress: the deadline moves out, never past the age limit. */
    method Extend(key: Key, s: SlotObject, now: Time)
      requires Owns() && key in slots && slots[key] == s
      modifies this`log, s`deadline, s`extended
      ensures Owns() && Abs() == R.Extend(cfg, old(Abs()), key, now)
    {
      hide Separate, ViewsOf;
      ViewIs(slots, key);
      if !s.extended {
        log := log + [R.Extended(key)];
      }
      HoldSlot(key, s, now + cfg.ttl, s.born + cfg.maxAge);
    }

    method HoldSlot(key: Key, s: SlotObject, until: Time, limit: Time)
      requires Owns() && key in slots && slots[key] == s
      modifies s`deadline, s`extended
      ensures Owns() && Abs() == old(Abs()).(slots := old(Abs()).slots[key := s.View()])
      ensures s.View() == old(s.View()).(deadline := Min(until, limit), extended := true)
    {
      hide SlotObject.Valid, SlotObject.View, ViewsOf, Separate;
      SlotIsValid(slots, own, key);
      ghost var rest := slots - {key};
      ghost var apart := own - s.Repr();
      SetAside(slots, own, key);
      s.HoldUntil(until, limit);
      assert rest[key := s] == slots;
      PutBack(rest, apart, own, key, s);
      Overwritten(ViewsOf(rest), key, old(s.View()), s.View());
    }

    /** holdForRepair: keep the slot, or say why it goes. */
    method HoldForRepair(key: Key, s: SlotObject, now: Time) returns (reason: R.Reason, keep: bool)
      requires Owns() && key in slots && slots[key] == s
      modifies this`env, this`log, s`requested, s`deadline, s`extended
      ensures Owns()
      ensures R.HoldForRepair(cfg, hooks, old(Abs()), key, now) == if keep then Abs() else R.Abandon(Abs(), key, reason)
    {
      hide Separate, Missing, R.AskOnce, R.Extend, R.Abandon;
      SlotIsValid(slots, own, key);
      ViewIs(slots, key);
      var missing := s.MissingSeqNums();
      if |missing| == 0 {
        return R.Expired, false;
      }
      AskOnce(key, s, missing, now);
      var pending := hooks.pending(env, s.hashKey, missing);
      var limit := s.born + cfg.maxAge;
      if now >= limit && pending {
        return R.RepairTimeout, false;
      }
      if !pending {
        return R.Expired, false;
      }
      Extend(key, s, now);
      return R.Expired, true;
    }

    /** One turn of the expiry loop. */
    method Turn(key: Key, now: Time)
      requires Owns()
      modifies this`slots, this`env, this`log, own
      ensures Owns() && Abs() == R.SweepOne(cfg, hooks, old(Abs()), key, now)
    {
      hide Separate, Missing, R.HoldForRepair, R.Abandon;
      if key !in slots {
        return;
      }
      var s := slots[key];
      SlotIsValid(slots, own, key);
      ViewIs(slots, key);
      if now <= s.deadline {
        return;
      }
      if !cfg.waits {
        var missing := s.MissingSeqNums();
        NotifyIncomplete(s, missing);
        Abandon(key, R.Expired);
        return;
      }
      var reason, keep := HoldForRepair(key, s, now);
      if !keep {
        Abandon(key, reason);
      }
    }

    /** The expiry loop. */
    method SweepSlots(order: seq<Key>, now: Time)
      requires Owns()
      modifies this`slots, this`env, this`log, own
      ensures Owns() && Abs() == R.SweepList(cfg, hooks, old(Abs()), order, |order|, now)
    {
      hide Separate, ViewsOf, R.SweepOne;
      ghost var was := Abs();
      for i := 0 to |order|
        invariant Owns() && Abs() == R.SweepList(cfg, hooks, was, order, i, now)
      {
        Turn(order[i], now);
      }
    }

    /** evictExpired: drop stale memories, give every listed slot its turn, compact the order. */
    method EvictExpired(now: Time)
      requires Valid()
      modifies this`slots, this`insertOrder, this`done, this`doneOrder, this`env, this`log, own
      ensures Valid() && Abs() == R.EvictExpired(cfg, hooks, old(Abs()), now)
    {
      hide Separate, ViewsOf, I.Inv, R.SweepList, Restrict, R.SweepDone, Elements, NoDup;
      I.EvictExpiredKeeps(cfg, hooks, Abs(), now);
      I.MemoryIsQueue(cfg, Abs());
      I.SweepListOrder(cfg, hooks, R.SweepDone(Abs(), now), insertOrder, |insertOrder|, now);
      SweepDone(now);
      SweepSlots(insertOrder, now);
      ViewsKeys(slots);
      insertOrder := ListedKeys(insertOrder, slots);
    }

    // ----- capacity -----

    /** evictOldest: the first listed key that still has a slot loses it. */
    method EvictOldest()
      requires Owns()
      modifies this`slots, this`insertOrder, this`log
      ensures Owns() && Abs() == R.EvictOldest(old(Abs()))
    {
      hide Separate, ViewsOf;
      ViewsKeys(slots);
      var i := FindLive(insertOrder, slots);
      if i < |insertOrder| {
        Abandon(insertOrder[i], R.Capacity);
        insertOrder := insertOrder[..i] + insertOrder[i + 1..];
      }
    }

    // ----- arrival -----

    method Open(f: Fragment, now: Time)
      requires Owns() && SlotKey(f) !in slots && f.total >= 1
      modifies this`slots, this`insertOrder, this`log, this`own
      ensures Owns() && fresh(own - old(own)) && SlotKey(f) in slots
      ensures Abs() == R.Open(cfg, old(Abs()), f, now)
    {
      hide Separate, ViewsOf, SlotObject.Valid, SlotObject.View, SlotObject.Repr;
      var key := SlotKey(f);
      var s := new SlotObject(f, now, cfg.ttl, headerSize);
      AddTo(slots, own, key, s);
      slots := slots[key := s];
      own := own + s.Repr();
      insertOrder := insertOrder + [key];
      log := log + [R.Started(key)];
    }

    /** Hand the fragment to its slot; only that slot changes. */
    method TakeIn(key: Key, s: SlotObject, f: Fragment) returns (v: Verdict)
      requires Owns() && key in slots && slots[key] == s
      modifies this`own, s, s.have, s.fragSeq, s.whole
      ensures Owns() && fresh(own - old(own)) && s.Valid()
      ensures Abs() == old(Abs()).(slots := old(Abs()).slots[key := s.View()])
      ensures match Take(old(s.View()), f)
              case Ignored => v == Skipped && s.View() == old(s.View())
              case Bad => v == Dropped && s.View() == old(s.View())
              case Stored(t) => v == Kept && s.View() == t
    {
      hide SlotObject.Valid, SlotObject.View, Take, ViewsOf, Separate;
      SlotIsValid(slots, own, key);
      ghost var rest := slots - {key};
      ghost var apart := own - s.Repr();
      SetAside(slots, own, key);
      v := s.Take(f);
      own := own + s.Repr();
      assert rest[key := s] == slots;
      PutBack(rest, apart, own, key, s);
      Overwritten(ViewsOf(rest), key, old(s.View()), s.View());
    }

    /** complete: remember the key, check and dispatch the payload, drop the slot. */
    method Complete(key: Key, s: SlotObject, at: Time)
      requires Owns() && key in slots && slots[key] == s && s.received == s.total
      modifies this`slots, this`done, this`doneOrder, this`log
      ensures Owns() && Abs() == R.Complete(cfg, old(Abs()), old(s.View()), at)
    {
      hide Separate, ViewsOf, R.MarkDone, R.Outcome, Payload, SlotObject.Valid;
      SlotIsValid(slots, own, key);
      var buf := s.Assembled();
      var result := Dispatch(cfg, s, buf[s.Room()..]);
      RemoveFrom(slots, own, key);
      MarkDone(key, at);
      slots := slots - {key};
      log := log + [R.Completed(key, at, s.extended, result)];
    }

    /** The slot is dropped whole: its contents are no longer trustworthy as a set. */
    method DropBad(key: Key)
      requires Owns()
      modifies this`slots, this`log
      ensures Owns()
      ensures Abs() == old(Abs()).(slots := old(Abs()).slots - {key}, log := old(log) + [R.BadFragment(key)])
    {
      hide Separate, ViewsOf;
      RemoveFrom(slots, own, key);
      slots := slots - {key};
      log := log + [R.BadFragment(key)];
    }

    /** A fragment meets the open slot of its key. */
    method Admit(f: Fragment, at: Time)
      requires Owns() && SlotKey(f) in slots
      modifies this`slots, this`done, this`doneOrder, this`log, this`own, own
      ensures Owns() && fresh(own - old(own)) && Abs() == R.Admit(cfg, old(Abs()), f, at)
    {
      hide Separate, ViewsOf, R.Complete, Take, SlotObject.Valid;
      var key := SlotKey(f);
      var s := slots[key];
      SlotIsValid(slots, own, key);
      ViewIs(slots, key);
      ghost var was := Abs();
      var v := TakeIn(key, s, f);
      SlotCounts(s);
      assert was.slots[key := was.slots[key]] == was.slots;
      if v == Dropped {
        DropBad(key);
      } else if v == Kept && s.received >= s.total {
        Complete(key, s, at);
        CompleteForgets(cfg, was, key, s.View(), at);
      }
    }

    /** The lazy sweep at the head of Observe: every evictEvery, or half the TTL if that is shorter. */
    method LazySweep(now: Time)
      requires Valid()
      modifies this`slots, this`insertOrder, this`done, this`doneOrder, this`lastEvict, this`env, this`log, own
      ensures Valid() && Abs() == R.LazySweep(cfg, hooks, old(Abs()), now)
    {
      hide Separate, ViewsOf, I.Inv, R.EvictExpired;
      I.LazySweepKeeps(cfg, hooks, Abs(), now);
      var every := cfg.evictEvery;
      if cfg.ttl / 2 < every {
        every := cfg.ttl / 2;
      }
      if lastEvict.None? || now - lastEvict.value >= every {
        EvictExpired(now);
        lastEvict := Some(now);
      }
    }

    method Note(e: R.Event)
      requires Owns()
      modifies this`log
      ensures Owns() && Abs() == old(Abs()).(log := old(log) + [e])
    {
      hide Separate, ViewsOf;
      log := log + [e];
    }

    /** A new object: make room at the cap, then open its slot. */
    method Begin(f: Fragment, now: Time)
      requires Owns() && SlotKey(f) !in slots && f.total >= 1
      modifies this`slots, this`insertOrder, this`log, this`own
      ensures Owns() && fresh(own - old(own)) && SlotKey(f) in slots
      ensures Abs() == R.Open(cfg, R.MakeRoom(cfg, old(Abs())), f, now)
    {
      hide Separate, ViewsOf, R.EvictOldest, R.Open;
      ViewsSize(slots);
      if |slots| >= cfg.maxSlots {
        EvictOldest();
        ViewsKeys(slots);
        I.MakeRoomFrame(cfg, old(Abs()));
        ViewsKeys(old(slots));
      }
      Open(f, now);
    }

    /** Observe, after its lazy sweep. */
    method Arrive(f: Fragment, now: Time, at: Time)
      requires Valid() && R.ConfigOk(cfg)
      modifies this, own
      ensures Valid() && fresh(own - old(own)) && Abs() == R.Arrive(cfg, old(Abs()), f, now, at)
    {
      hide Separate, ViewsOf, I.Inv, R.Admit, R.Open, R.MakeRoom;
      var key := SlotKey(f);
      I.ArriveKeeps(cfg, Abs(), f, now, at);
      ViewsKeys(slots);
      if key !in slots {
        if key in done {
          Note(R.LateFragment(key));
          return;
        }
        if R.Pathological(f) {
          return;
        }
        if R.TooLarge(cfg, f) {
          Note(R.Oversize(key));
          return;
        }
        Begin(f, now);
      }
      Admit(f, at);
    }

    /** Observe: one fragment. */
    method Observe(f: Fragment, now: Time, at: Time)
      requires Valid() && R.ConfigOk(cfg)
      modifies this, own
      ensures Valid() && fresh(own - old(own)) && Abs() == R.Observe(cfg, hooks, old(Abs()), f, now, at)
    {
      hide Separate, ViewsOf, I.Inv, R.Arrive, R.LazySweep;
      LazySweep(now);
      Arrive(f, now, at);
    }

    /** Purge: drop every slot and every memory. */
    method Purge()
      requires Valid()
      modifies this`slots, this`insertOrder, this`done, this`doneOrder, this`log
      ensures Valid() && Abs() == R.Purge(old(Abs()))
    {
      hide I.Inv, R.ConfigOk, ViewsOf;
      I.PurgeKeeps(cfg, Abs());
      ViewsKeys(slots);
      log := log + [R.Purged(slots.Keys)];
      slots, insertOrder := map[], [];
      done, doneOrder := map[], [];
      NoViews();
    }
  }

  /** Add a key to a queue of keys and their expiry times, forgetting the oldest one at the cap. */
  method Remember(done: map<Key, Time>, order: seq<Key>, cap: nat, key: Key, expiry: Time)
    returns (d: map<Key, Time>, o: seq<Key>)
    ensures (d, o) == if key in done then (done[key := expiry], order)
                      else if |done| >= cap && |order| > 0 then
                        ((done - {order[0]})[key := expiry], order[1..] + [key])
                      else (done[key := expiry], order + [key])
  {
    d, o := done, order;
    if key !in d {
      if |d| >= cap && |o| > 0 {
        var oldest := o[0];
        o := o[1..];
        d := d - {oldest};
      }
      o := o + [key];
    }
    d := d[key := expiry];
  }

  /** The position of the first key of the order that has a slot, or the length of the order. */
  method FindLive(order: seq<Key>, slots: map<Key, SlotObject>) returns (i: nat)
    ensures i == R.FirstLive(order, slots.Keys)
  {
    i := 0;
    while i < |order|
      invariant i <= |order| && forall j :: 0 <= j < i ==> order[j] !in slots
    {
      if order[i] in slots {
        break;
      }
      i := i + 1;
    }
    FirstLiveIs(order, slots.Keys, i);
  }

  lemma FirstLiveIs(order: seq<Key>, live: set<Key>, i: nat)
    requires i <= |order| && (i < |order| ==> order[i] in live) && forall j :: 0 <= j < i ==> order[j] !in live
    ensures i == R.FirstLive(order, live)
  {
  }

  /** The keys of the order that still have a slot. */
  method ListedKeys(order: seq<Key>, slots: map<Key, SlotObject>) returns (live: seq<Key>)
    ensures live == Restrict(order, slots.Keys)
  {
    live := [];
    for i := 0 to |order|
      invariant live == Restrict(order[..i], slots.Keys)
    {
      RestrictSnoc(order[..i], order[i], slots.Keys);
      assert order[..i + 1] == order[..i] + [order[i]];
      if order[i] in slots {
        live := live + [order[i]];
      }
    }
    assert order[..|order|] == order;
  }

  lemma NotBefore(order: seq<Key>, i: nat)
    requires NoDup(order) && i < |order|
    ensures order[i] !in order[..i]
  {
  }

  /** One more key of the queue is passed, and kept or skipped. */
  lemma RestrictNext(order: seq<Key>, i: nat, keep: set<Key>)
    requires i < |order|
    ensures Restrict(order[..i + 1], keep) == Restrict(order[..i], keep) + (if order[i] in keep then [order[i]] else [])
    ensures forall k :: k in order[..i + 1] <==> k in order[..i] || k == order[i]
  {
    RestrictSnoc(order[..i], order[i], keep);
    assert order[..i + 1] == order[..i] + [order[i]];
  }

  lemma KeyWalked(done: map<Key, Time>, order: seq<Key>, i: nat)
    requires done.Keys == Elements(order) && i < |order|
    ensures order[i] in done
  {
    assert order[i] in Elements(order);
  }

  lemma RestrictNone(order: seq<Key>, keep: set<Key>)
    ensures Restrict(order[..0], keep) == []
  {
  }

  /** One pass over a queue of keys and their expiry times, keeping what has not run out. */
  method SurvivingKeys(done: map<Key, Time>, order: seq<Key>, now: Time)
    returns (kept: map<Key, Time>, live: seq<Key>)
    requires done.Keys == Elements(order) && NoDup(order)
    ensures kept == R.KeepOnly(done, R.Unexpired(done, now))
    ensures live == Restrict(order, R.Unexpired(done, now))
  {
    ghost var keep := R.Unexpired(done, now);
    assert forall k :: k in done ==> (k in keep <==> now <= done[k]);
    RestrictNone(order, keep);
    hide R.Unexpired, NoDup, Restrict, Elements;
    kept, live := done, [];
    for i := 0 to |order|
      invariant live == Restrict(order[..i], keep)
      invariant forall k :: k in kept <==> k in done && (k in keep || k !in order[..i])
      invariant forall k :: k in kept ==> kept[k] == done[k]
    {
      var key := order[i];
      RestrictNext(order, i, keep);
      NotBefore(order, i);
      KeyWalked(done, order, i);
      if now > kept[key] {
        kept := kept - {key};
      } else {
        live := live + [key];
      }
    }
    assert order[..|order|] == order;
    AllWalked(done, order);
  }

  lemma AllWalked(done: map<Key, Time>, order: seq<Key>)
    requires done.Keys == Elements(order)
    ensures forall k :: k in done ==> k in order
  {
    assert forall k :: k in done ==> k in Elements(order);
  }
}
