/** What every step of the reassembly buffer keeps. */
module ReassemblyInvariants {
  import opened Base
  import opened Grid
  import opened Slots
  import opened Reassembly

  // ----- reading the log -----

  datatype Tally = Tally(started: nat, completed: nat, bad: nat, abandoned: nat)

  function Count(t: Tally, e: Event): Tally {
    match e
    case Started(_) => t.(started := t.started + 1)
    case Completed(_, _, _, _) => t.(completed := t.completed + 1)
    case BadFragment(_) => t.(bad := t.bad + 1)
    case Abandoned(_, _) => t.(abandoned := t.abandoned + 1)
    case Purged(keys) => t.(abandoned := t.abandoned + |keys|)
    case _ => t
  }

  /** How many slots were opened, and how many ended in each way. */
  function TallyOf(log: seq<Event>): Tally {
    if log == [] then Tally(0, 0, 0, 0) else Count(TallyOf(log[..|log| - 1]), log[|log| - 1])
  }

  function CountAsk(n: nat, e: Event, k: Key): nat {
    if e == Started(k) then 0 else if e.Asked? && e.key == k then n + 1 else n
  }

  /** Requests for missing fragments made by the latest slot of key k. */
  function Asks(log: seq<Event>, k: Key): nat {
    if log == [] then 0 else CountAsk(Asks(log[..|log| - 1], k), log[|log| - 1], k)
  }

  function CountExtend(n: nat, e: Event, k: Key): nat {
    if e == Started(k) then 0 else if e == Extended(k) then n + 1 else n
  }

  /** How often the latest slot of key k was counted as held past its TTL. */
  function Extends(log: seq<Event>, k: Key): nat {
    if log == [] then 0 else CountExtend(Extends(log[..|log| - 1], k), log[|log| - 1], k)
  }

  lemma LogSnoc(log: seq<Event>, e: Event)
    ensures TallyOf(log + [e]) == Count(TallyOf(log), e)
    ensures forall k :: Asks(log + [e], k) == CountAsk(Asks(log, k), e, k)
    ensures forall k :: Extends(log + [e], k) == CountExtend(Extends(log, k), e, k)
  {
    assert (log + [e])[..|log + [e]| - 1] == log;
  }

  // ----- the invariant -----

  /** What holds of each slot by itself; n is the least number of fragments it must have. */
  ghost predicate SlotInv(cfg: Config, k: Key, s: Slot, n: nat) {
    && s.key == k && Keyed(s)
    && SlotOk(s)
    && n <= |s.parts| < s.total
    && s.deadline <= s.born + Max(cfg.ttl, cfg.maxAge)
    && (!cfg.waits ==> !s.requested)
  }

  /** Every live slot holds some but not all of its fragments, and its lifetime is bounded. */
  ghost predicate SlotsInv(cfg: Config, slots: map<Key, Slot>) {
    forall k :: k in slots ==> SlotInv(cfg, k, slots[k], 1)
  }

  /** Live slots are within the cap and all listed in the eviction order. */
  ghost predicate WithinCap(cfg: Config, live: set<Key>, insertOrder: seq<Key>) {
    |live| <= cfg.maxSlots && forall k :: k in live ==> k in insertOrder
  }

  /** The completion memory is a bounded duplicate-free queue of keys, none of them live. */
  ghost predicate Memory(cfg: Config, live: set<Key>, done: set<Key>, doneOrder: seq<Key>) {
    && done == Elements(doneOrder)
    && NoDup(doneOrder)
    && |doneOrder| <= cfg.maxSlots
    && live !! done
  }

  /** Every slot opened has completed, was dropped for a bad fragment, was abandoned, or is live. */
  ghost predicate Balanced(log: seq<Event>, live: nat) {
    var t := TallyOf(log);
    t.started == t.completed + t.bad + t.abandoned + live
  }

  /** No slot asks twice or is counted extended twice; one that may still do so has not done it. */
  ghost predicate Once(log: seq<Event>, slots: map<Key, Slot>) {
    forall k ::
      && Asks(log, k) <= 1
      && Extends(log, k) <= 1
      && (k in slots && !slots[k].requested ==> Asks(log, k) == 0)
      && (k in slots && !slots[k].extended ==> Extends(log, k) == 0)
  }

  /** At no point of the log had a slot asked twice or been counted extended twice. */
  ghost predicate EverOnce(log: seq<Event>) {
    forall n, k :: 0 <= n <= |log| ==> Asks(log[..n], k) <= 1 && Extends(log[..n], k) <= 1
  }

  ghost predicate AsksOnce(log: seq<Event>, slots: map<Key, Slot>) {
    Once(log, slots) && EverOnce(log)
  }

  ghost predicate Inv<E>(cfg: Config, st: State<E>) {
    && SlotsInv(cfg, st.slots)
    && WithinCap(cfg, st.slots.Keys, st.insertOrder)
    && Memory(cfg, st.slots.Keys, st.done.Keys, st.doneOrder)
    && Balanced(st.log, |st.slots|)
    && AsksOnce(st.log, st.slots)
  }

  // ----- small steps -----

  lemma EverSnoc(log: seq<Event>, e: Event, slots: map<Key, Slot>)
    requires EverOnce(log) && Once(log + [e], slots)
    ensures EverOnce(log + [e])
  {
    hide Asks, Extends;
    var all := log + [e];
    forall n, k | 0 <= n <= |all|
      ensures Asks(all[..n], k) <= 1 && Extends(all[..n], k) <= 1
    {
      assert n <= |log| ==> all[..n] == log[..n];
      assert n == |all| ==> all[..n] == all;
    }
  }

  lemma RemoveSize(m: map<Key, Slot>, k: Key)
    requires k in m
    ensures (m - {k}).Keys == m.Keys - {k} && |m - {k}| == |m| - 1
  {
    assert (m - {k}).Keys == m.Keys - {k};
  }

  lemma UpdateSize(m: map<Key, Slot>, k: Key, s: Slot)
    ensures m[k := s].Keys == m.Keys + {k} && |m[k := s]| == if k in m then |m| else |m| + 1
  {
    assert m[k := s].Keys == m.Keys + {k};
  }

  /** A slot ends: bad fragment, abandonment or completion. */
  lemma EndSlotBooks(log: seq<Event>, slots: map<Key, Slot>, k: Key, e: Event)
    requires Balanced(log, |slots|) && AsksOnce(log, slots) && k in slots
    requires e.Abandoned? || e.BadFragment? || e.Completed?
    ensures Balanced(log + [e], |slots - {k}|) && AsksOnce(log + [e], slots - {k})
  {
    hide Asks, Extends, TallyOf, EverOnce;
    LogSnoc(log, e);
    RemoveSize(slots, k);
    EverSnoc(log, e, slots - {k});
  }

  /** A step that opens and ends no slot. */
  lemma NeutralBooks(log: seq<Event>, slots: map<Key, Slot>, e: Event)
    requires Balanced(log, |slots|) && AsksOnce(log, slots)
    requires e.LateFragment? || e.Oversize?
    ensures Balanced(log + [e], |slots|) && AsksOnce(log + [e], slots)
  {
    hide Asks, Extends, TallyOf, EverOnce;
    LogSnoc(log, e);
    EverSnoc(log, e, slots);
  }

  lemma AskBooks(log: seq<Event>, slots: map<Key, Slot>, k: Key, hashKey: U64, missing: seq<U64>, s: Slot)
    requires Balanced(log, |slots|) && AsksOnce(log, slots)
    requires k in slots && !slots[k].requested && s.requested && s.extended == slots[k].extended
    ensures Balanced(log + [Asked(k, hashKey, missing)], |slots[k := s]|)
    ensures AsksOnce(log + [Asked(k, hashKey, missing)], slots[k := s])
  {
    hide Asks, Extends, TallyOf, EverOnce;
    LogSnoc(log, Asked(k, hashKey, missing));
    UpdateSize(slots, k, s);
    EverSnoc(log, Asked(k, hashKey, missing), slots[k := s]);
  }

  lemma ExtendBooks(log: seq<Event>, slots: map<Key, Slot>, k: Key, s: Slot)
    requires Balanced(log, |slots|) && AsksOnce(log, slots)
    requires k in slots && s.requested == slots[k].requested && s.extended && !slots[k].extended
    ensures Balanced(log + [Extended(k)], |slots[k := s]|) && AsksOnce(log + [Extended(k)], slots[k := s])
  {
    hide Asks, Extends, TallyOf, EverOnce;
    LogSnoc(log, Extended(k));
    UpdateSize(slots, k, s);
    EverSnoc(log, Extended(k), slots[k := s]);
  }

  lemma AbandonKeeps<E>(cfg: Config, st: State<E>, k: Key, reason: Reason)
    requires Inv(cfg, st) && k in st.slots
    ensures Inv(cfg, Abandon(st, k, reason))
  {
    EndSlotBooks(st.log, st.slots, k, Abandoned(k, reason));
    RemoveSize(st.slots, k);
  }

  /** A live slot is replaced by another legal one, and the books are kept. */
  lemma ReplaceKeeps<E>(cfg: Config, st: State<E>, k: Key, s: Slot, env: E, log: seq<Event>)
    requires Inv(cfg, st) && k in st.slots && SlotInv(cfg, k, s, 1)
    requires Balanced(log, |st.slots[k := s]|) && AsksOnce(log, st.slots[k := s])
    ensures Inv(cfg, st.(slots := st.slots[k := s], env := env, log := log))
  {
    hide SlotInv, Asks, Extends, TallyOf, Balanced, AsksOnce;
    assert st.slots[k := s].Keys == st.slots.Keys;
  }

  lemma SlotInvFlags(cfg: Config, k: Key, s: Slot, deadline: Time, requested: bool, extended: bool)
    requires SlotInv(cfg, k, s, 1)
    requires deadline <= s.born + Max(cfg.ttl, cfg.maxAge) && (!cfg.waits ==> !requested)
    ensures SlotInv(cfg, k, s.(deadline := deadline, requested := requested, extended := extended), 1)
  {
  }

  lemma AskKeeps<E>(cfg: Config, hooks: Hooks<E>, st: State<E>, k: Key)
    requires Inv(cfg, st) && k in st.slots && !st.slots[k].requested && cfg.waits
    ensures Inv(cfg, Ask(cfg, hooks, st.(slots := st.slots[k := st.slots[k].(requested := true)]), st.slots[k]))
  {
    hide SlotOk, WithinCap, Memory, Asks, Extends, TallyOf;
    var s := st.slots[k];
    var t := s.(requested := true);
    SlotInvFlags(cfg, k, s, s.deadline, true, s.extended);
    UpdateSize(st.slots, k, t);
    if cfg.asks && Missing(s) != [] {
      AskBooks(st.log, st.slots, k, s.hashKey, Missing(s), t);
      ReplaceKeeps(cfg, st, k, t, hooks.request(st.env, s.hashKey, Missing(s)),
                   st.log + [Asked(k, s.hashKey, Missing(s))]);
    } else {
      ReplaceKeeps(cfg, st, k, t, st.env, st.log);
    }
  }

  lemma AskOnceKeeps<E>(cfg: Config, hooks: Hooks<E>, st: State<E>, k: Key, now: Time)
    requires Inv(cfg, st) && k in st.slots && cfg.waits
    ensures Inv(cfg, AskOnce(cfg, hooks, st, k, now))
  {
    if !st.slots[k].requested && now < st.slots[k].born + cfg.maxAge {
      AskKeeps(cfg, hooks, st, k);
    }
  }

  lemma ExtendKeeps<E>(cfg: Config, st: State<E>, k: Key, now: Time)
    requires Inv(cfg, st) && k in st.slots
    ensures Inv(cfg, Extend(cfg, st, k, now))
  {
    hide SlotOk, WithinCap, Memory, Asks, Extends, TallyOf;
    var s := st.slots[k];
    var t, log := ExtendForm(cfg, st, k, now);
    SlotInvFlags(cfg, k, s, t.deadline, s.requested, true);
    UpdateSize(st.slots, k, t);
    if !s.extended {
      ExtendBooks(st.log, st.slots, k, t);
    }
    ReplaceKeeps(cfg, st, k, t, st.env, log);
  }

  lemma ExtendForm<E>(cfg: Config, st: State<E>, k: Key, now: Time) returns (t: Slot, log: seq<Event>)
    requires k in st.slots
    ensures t == st.slots[k].(deadline := Min(now + cfg.ttl, st.slots[k].born + cfg.maxAge), extended := true)
    ensures log == if st.slots[k].extended then st.log else st.log + [Extended(k)]
    ensures Extend(cfg, st, k, now) == st.(slots := st.slots[k := t], env := st.env, log := log)
  {
    t := st.slots[k].(deadline := Min(now + cfg.ttl, st.slots[k].born + cfg.maxAge), extended := true);
    log := if st.slots[k].extended then st.log else st.log + [Extended(k)];
  }

  lemma HoldKeeps<E>(cfg: Config, hooks: Hooks<E>, st: State<E>, k: Key, now: Time)
    requires Inv(cfg, st) && k in st.slots && cfg.waits
    ensures Inv(cfg, HoldForRepair(cfg, hooks, st, k, now))
  {
    hide SlotsInv, WithinCap, Memory, Balanced, AsksOnce;
    var s := st.slots[k];
    if Missing(s) == [] {
      AbandonKeeps(cfg, st, k, Expired);
    } else {
      var asked := AskOnce(cfg, hooks, st, k, now);
      AskOnceKeeps(cfg, hooks, st, k, now);
      var pending := hooks.pending(asked.env, s.hashKey, Missing(s));
      if now >= s.born + cfg.maxAge && pending {
        AbandonKeeps(cfg, asked, k, RepairTimeout);
      } else if !pending {
        AbandonKeeps(cfg, asked, k, Expired);
      } else {
        ExtendKeeps(cfg, asked, k, now);
      }
    }
  }

  /** Without a repair wait the request is made just before the slot goes. */
  lemma AskAndAbandonBooks(log: seq<Event>, slots: map<Key, Slot>, k: Key, hashKey: U64, missing: seq<U64>)
    requires Balanced(log, |slots|) && AsksOnce(log, slots) && k in slots && !slots[k].requested
    ensures var log' := log + [Asked(k, hashKey, missing)] + [Abandoned(k, Expired)];
            Balanced(log', |slots - {k}|) && AsksOnce(log', slots - {k})
  {
    var s := slots[k].(requested := true);
    AskBooks(log, slots, k, hashKey, missing, s);
    EndSlotBooks(log + [Asked(k, hashKey, missing)], slots[k := s], k, Abandoned(k, Expired));
    assert slots[k := s] - {k} == slots - {k};
  }

  /** The two slot tables agree on every key but k, and k was not added. */
  ghost predicate SameBut(a: map<Key, Slot>, b: map<Key, Slot>, k: Key) {
    && (k in b ==> k in a)
    && forall j :: j != k ==> (j in a <==> j in b) && (j in a && j in b ==> a[j] == b[j])
  }

  /** Nothing but the slots, the repair path and the log may differ. */
  ghost predicate SameOrders<E>(a: State<E>, b: State<E>) {
    && a.insertOrder == b.insertOrder && a.lastEvict == b.lastEvict
    && a.done == b.done && a.doneOrder == b.doneOrder
  }

  lemma HoldFrame<E>(cfg: Config, hooks: Hooks<E>, st: State<E>, k: Key, now: Time)
    requires k in st.slots
    ensures SameOrders(st, HoldForRepair(cfg, hooks, st, k, now))
    ensures SameBut(st.slots, HoldForRepair(cfg, hooks, st, k, now).slots, k)
  {
    var asked := AskOnce(cfg, hooks, st, k, now);
    assert SameOrders(st, asked) && SameBut(st.slots, asked.slots, k);
  }

  /** Handling one key leaves every other slot, the orders and the completion memory alone. */
  lemma SweepOneFrame<E>(cfg: Config, hooks: Hooks<E>, st: State<E>, k: Key, now: Time)
    ensures SameOrders(st, SweepOne(cfg, hooks, st, k, now))
    ensures SameBut(st.slots, SweepOne(cfg, hooks, st, k, now).slots, k)
  {
    if k in st.slots && now > st.slots[k].deadline && cfg.waits {
      HoldFrame(cfg, hooks, st, k, now);
    }
  }

  lemma SweepOneKeeps<E>(cfg: Config, hooks: Hooks<E>, st: State<E>, k: Key, now: Time)
    requires Inv(cfg, st)
    ensures Inv(cfg, SweepOne(cfg, hooks, st, k, now))
  {
    if k in st.slots && now > st.slots[k].deadline {
      var s := st.slots[k];
      if cfg.waits {
        HoldKeeps(cfg, hooks, st, k, now);
      } else if cfg.asks && Missing(s) != [] {
        AskAndAbandonBooks(st.log, st.slots, k, s.hashKey, Missing(s));
        RemoveSize(st.slots, k);
      } else {
        AbandonKeeps(cfg, st, k, Expired);
      }
    }
  }

  lemma {:induction false} SweepListKeeps<E>(cfg: Config, hooks: Hooks<E>, st: State<E>, order: seq<Key>, n: nat,
                                             now: Time)
    requires Inv(cfg, st) && n <= |order|
    ensures Inv(cfg, SweepList(cfg, hooks, st, order, n, now))
    ensures SweepList(cfg, hooks, st, order, n, now).insertOrder == st.insertOrder
  {
    hide Inv;
    if n > 0 {
      var mid := SweepList(cfg, hooks, st, order, n - 1, now);
      SweepListKeeps(cfg, hooks, st, order, n - 1, now);
      SweepOneKeeps(cfg, hooks, mid, order[n - 1], now);
      SweepOneFrame(cfg, hooks, mid, order[n - 1], now);
    }
  }

  /** A sweep leaves the eviction order to be compacted afterwards. */
  lemma {:induction false} SweepListOrder<E>(cfg: Config, hooks: Hooks<E>, st: State<E>, order: seq<Key>, n: nat,
                                             now: Time)
    requires n <= |order|
    ensures SweepList(cfg, hooks, st, order, n, now).insertOrder == st.insertOrder
  {
    hide SweepOne;
    if n > 0 {
      SweepListOrder(cfg, hooks, st, order, n - 1, now);
      SweepOneFrame(cfg, hooks, SweepList(cfg, hooks, st, order, n - 1, now), order[n - 1], now);
    }
  }

  lemma SweepDoneKeeps<E>(cfg: Config, st: State<E>, now: Time)
    requires Inv(cfg, st)
    ensures Inv(cfg, SweepDone(st, now))
  {
    var keep := Unexpired(st.done, now);
    RestrictNoDup(st.doneOrder, keep);
    assert SweepDone(st, now).done.Keys == Elements(Restrict(st.doneOrder, keep));
  }

  lemma MemoryIsQueue<E>(cfg: Config, st: State<E>)
    requires Inv(cfg, st)
    ensures st.done.Keys == Elements(st.doneOrder) && NoDup(st.doneOrder)
  {
  }

  lemma EvictExpiredKeeps<E>(cfg: Config, hooks: Hooks<E>, st: State<E>, now: Time)
    requires Inv(cfg, st)
    ensures Inv(cfg, EvictExpired(cfg, hooks, st, now))
  {
    SweepDoneKeeps(cfg, st, now);
    SweepListKeeps(cfg, hooks, SweepDone(st, now), st.insertOrder, |st.insertOrder|, now);
  }

  /** At the cap exactly one slot goes: the eviction order lists every live slot, so one is found. */
  lemma MakeRoomKeeps<E>(cfg: Config, st: State<E>)
    requires Inv(cfg, st) && ConfigOk(cfg)
    ensures Inv(cfg, MakeRoom(cfg, st))
    ensures |MakeRoom(cfg, st).slots| < cfg.maxSlots
  {
    if |st.slots| >= cfg.maxSlots {
      var i := FirstLive(st.insertOrder, st.slots.Keys);
      LiveIsListed(cfg, st.slots.Keys, st.insertOrder);
      var gone := Abandon(st, st.insertOrder[i], Capacity);
      AbandonKeeps(cfg, st, st.insertOrder[i], Capacity);
      RemoveSize(st.slots, st.insertOrder[i]);
      CutOutKeepsOthers(st.insertOrder, i);
      ReorderKeeps(cfg, gone, st.insertOrder[..i] + st.insertOrder[i + 1..]);
    }
  }

  lemma ReorderKeeps<E>(cfg: Config, st: State<E>, order: seq<Key>)
    requires Inv(cfg, st) && forall k :: k in st.slots ==> k in order
    ensures Inv(cfg, st.(insertOrder := order))
  {
  }

  lemma MakeRoomFrame<E>(cfg: Config, st: State<E>)
    ensures MakeRoom(cfg, st).done == st.done && MakeRoom(cfg, st).doneOrder == st.doneOrder
    ensures MakeRoom(cfg, st).slots.Keys <= st.slots.Keys
    ensures forall k :: k in MakeRoom(cfg, st).slots ==> MakeRoom(cfg, st).slots[k] == st.slots[k]
  {
  }

  lemma LiveIsListed(cfg: Config, live: set<Key>, order: seq<Key>)
    requires WithinCap(cfg, live, order) && live != {}
    ensures FirstLive(order, live) < |order|
  {
    var k :| k in live;
    assert k in order;
  }

  lemma CutOutKeepsOthers(order: seq<Key>, i: nat)
    requires i < |order|
    ensures forall k :: k in order && k != order[i] ==> k in order[..i] + order[i + 1..]
  {
    forall k | k in order && k != order[i]
      ensures k in order[..i] + order[i + 1..]
    {
      var j :| 0 <= j < |order| && order[j] == k;
      if j < i {
        assert order[..i][j] == k;
      } else {
        assert order[i + 1..][j - i - 1] == k;
      }
    }
  }

  // ----- arrival -----

  /** Opening a slot, before its first fragment is judged. */
  lemma OpenBooks(log: seq<Event>, slots: map<Key, Slot>, k: Key, s: Slot)
    requires Balanced(log, |slots|) && AsksOnce(log, slots) && k !in slots
    ensures Balanced(log + [Started(k)], |slots[k := s]|) && AsksOnce(log + [Started(k)], slots[k := s])
  {
    hide Asks, Extends, TallyOf, EverOnce;
    LogSnoc(log, Started(k));
    UpdateSize(slots, k, s);
    EverSnoc(log, Started(k), slots[k := s]);
  }

  ghost predicate SlotsOpen(cfg: Config, slots: map<Key, Slot>, k: Key) {
    forall j :: j in slots ==> SlotInv(cfg, j, slots[j], if j == k then 0 else 1)
  }

  /** The invariant while slot k may still be empty. */
  ghost predicate InvOpen<E>(cfg: Config, st: State<E>, k: Key) {
    && k in st.slots
    && SlotsOpen(cfg, st.slots, k)
    && WithinCap(cfg, st.slots.Keys, st.insertOrder)
    && Memory(cfg, st.slots.Keys, st.done.Keys, st.doneOrder)
    && Balanced(st.log, |st.slots|)
    && AsksOnce(st.log, st.slots)
  }

  lemma OpenedSlot(cfg: Config, f: Fragment, now: Time)
    requires f.total >= 1
    ensures SlotInv(cfg, SlotKey(f), OpenSlot(f, now, cfg.ttl), 0)
  {
  }

  lemma OpenSlots(cfg: Config, slots: map<Key, Slot>, k: Key, s: Slot)
    requires SlotsInv(cfg, slots) && SlotInv(cfg, k, s, 0)
    ensures SlotsOpen(cfg, slots[k := s], k)
  {
    hide SlotInv;
  }

  lemma OpenCap(cfg: Config, slots: map<Key, Slot>, order: seq<Key>, k: Key, s: Slot)
    requires WithinCap(cfg, slots.Keys, order) && |slots| < cfg.maxSlots && k !in slots
    ensures WithinCap(cfg, slots[k := s].Keys, order + [k])
  {
    UpdateSize(slots, k, s);
    var live := slots[k := s].Keys;
    assert |live| == |slots[k := s]|;
    assert forall j :: j in live ==> j == k || j in order;
  }

  lemma OpenKeeps<E>(cfg: Config, st: State<E>, f: Fragment, now: Time)
    requires Inv(cfg, st) && |st.slots| < cfg.maxSlots && f.total >= 1
    requires SlotKey(f) !in st.slots && SlotKey(f) !in st.done
    ensures InvOpen(cfg, Open(cfg, st, f, now), SlotKey(f))
  {
    hide SlotInv, SlotsInv, SlotsOpen, WithinCap, Balanced, AsksOnce, OpenSlot;
    var k, s := SlotKey(f), OpenSlot(f, now, cfg.ttl);
    OpenedSlot(cfg, f, now);
    OpenSlots(cfg, st.slots, k, s);
    OpenCap(cfg, st.slots, st.insertOrder, k, s);
    OpenBooks(st.log, st.slots, k, s);
  }

  lemma BadKeeps<E>(cfg: Config, st: State<E>, k: Key)
    requires InvOpen(cfg, st, k)
    ensures Inv(cfg, st.(slots := st.slots - {k}, log := st.log + [BadFragment(k)]))
  {
    EndSlotBooks(st.log, st.slots, k, BadFragment(k));
    RemoveSize(st.slots, k);
  }

  lemma StoreKeeps<E>(cfg: Config, st: State<E>, k: Key, t: Slot)
    requires InvOpen(cfg, st, k) && SlotInv(cfg, k, t, 1)
    requires t.requested == st.slots[k].requested && t.extended == st.slots[k].extended
    ensures Inv(cfg, st.(slots := st.slots[k := t]))
  {
    hide SlotOk, Asks, Extends, TallyOf;
    UpdateSize(st.slots, k, t);
    assert st.slots[k := t].Keys == st.slots.Keys;
  }

  /** Remembering a key that is neither live nor remembered. */
  lemma MarkDoneKeeps<E>(cfg: Config, st: State<E>, live: set<Key>, k: Key, at: Time)
    requires Memory(cfg, live, st.done.Keys, st.doneOrder) && ConfigOk(cfg)
    requires k !in st.done && k !in live
    ensures var r := MarkDone(cfg, st, k, at);
            Memory(cfg, live, r.done.Keys, r.doneOrder)
  {
    var r := MarkDone(cfg, st, k, at);
    NoDupSize(st.doneOrder);
    var kept := if |st.done| >= cfg.maxSlots then st.doneOrder[1..] else st.doneOrder;
    assert r.doneOrder == kept + [k];
    assert r.done.Keys == Elements(kept + [k]);
  }

  lemma CompleteKeeps<E>(cfg: Config, st: State<E>, t: Slot, at: Time)
    requires InvOpen(cfg, st, t.key) && ConfigOk(cfg)
    ensures Inv(cfg, Complete(cfg, st, t, at))
  {
    hide SlotOk, SlotInv, Asks, Extends, TallyOf, NoDup, Elements;
    var k := t.key;
    RemoveSize(st.slots, k);
    MarkDoneKeeps(cfg, st, st.slots.Keys - {k}, k, at);
    EndSlotBooks(st.log, st.slots, k, Completed(k, at, t.extended, Outcome(cfg, t, Payload(t))));
  }

  /** A stored fragment leaves the slot legal until the last one is in, and changes no flag. */
  lemma StoredSlot(cfg: Config, k: Key, s: Slot, f: Fragment)
    requires SlotInv(cfg, k, s, 0) && Take(s, f).Stored?
    ensures var t := Take(s, f).slot;
            && t.key == k && t.requested == s.requested && t.extended == s.extended
            && (|t.parts| < t.total ==> SlotInv(cfg, k, t, 1))
  {
    TakeStores(s, f);
  }

  lemma AdmitKeeps<E>(cfg: Config, st: State<E>, f: Fragment, at: Time)
    requires InvOpen(cfg, st, SlotKey(f)) && ConfigOk(cfg)
    requires Take(st.slots[SlotKey(f)], f).Ignored? ==> |st.slots[SlotKey(f)].parts| > 0
    ensures Inv(cfg, Admit(cfg, st, f, at))
  {
    hide WithinCap, Memory, Balanced, AsksOnce, SlotOk, CheckFragLen;
    var k := SlotKey(f);
    var s := st.slots[k];
    match Take(s, f)
    case Ignored =>
    case Bad => BadKeeps(cfg, st, k);
    case Stored(t) =>
      StoredSlot(cfg, k, s, f);
      if |t.parts| < t.total {
        StoreKeeps(cfg, st, k, t);
      } else {
        CompleteKeeps(cfg, st, t, at);
      }
  }

  lemma HeldFragmentHasParts(s: Slot, f: Fragment)
    requires f.total == s.total && f.index < f.total && Take(s, f).Ignored?
    ensures |s.parts| > 0
  {
    assert f.index in s.parts.Keys;
  }

  lemma LazySweepKeeps<E>(cfg: Config, hooks: Hooks<E>, st: State<E>, now: Time)
    requires Inv(cfg, st)
    ensures Inv(cfg, LazySweep(cfg, hooks, st, now))
  {
    EvictExpiredKeeps(cfg, hooks, st, now);
  }

  lemma NeutralKeeps<E>(cfg: Config, st: State<E>, e: Event)
    requires Inv(cfg, st) && (e.LateFragment? || e.Oversize?)
    ensures Inv(cfg, st.(log := st.log + [e]))
  {
    NeutralBooks(st.log, st.slots, e);
  }

  lemma ArriveKeeps<E>(cfg: Config, st: State<E>, f: Fragment, now: Time, at: Time)
    requires Inv(cfg, st) && ConfigOk(cfg)
    ensures Inv(cfg, Arrive(cfg, st, f, now, at))
  {
    var k := SlotKey(f);
    if k in st.slots {
      AdmitKeeps(cfg, st, f, at);
    } else if k in st.done {
      NeutralKeeps(cfg, st, LateFragment(k));
    } else if Pathological(f) {
    } else if TooLarge(cfg, f) {
      NeutralKeeps(cfg, st, Oversize(k));
    } else {
      var room := MakeRoom(cfg, st);
      MakeRoomKeeps(cfg, st);
      MakeRoomFrame(cfg, st);
      OpenKeeps(cfg, room, f, now);
      if Take(OpenSlot(f, now, cfg.ttl), f).Ignored? {
        HeldFragmentHasParts(OpenSlot(f, now, cfg.ttl), f);
      }
      AdmitKeeps(cfg, Open(cfg, room, f, now), f, at);
    }
  }

  lemma PurgeKeeps<E>(cfg: Config, st: State<E>)
    requires Inv(cfg, st)
    ensures Inv(cfg, Purge(st))
  {
    hide Asks, Extends, TallyOf, EverOnce;
    LogSnoc(st.log, Purged(st.slots.Keys));
    assert Elements<Key>([]) == {};
    EverSnoc(st.log, Purged(st.slots.Keys), map[]);
  }

  /** Every step of the buffer keeps the invariant, whatever the repair path does. */
  lemma StepKeeps<E>(cfg: Config, hooks: Hooks<E>, st: State<E>, op: Op<E>)
    requires Inv(cfg, st) && ConfigOk(cfg)
    ensures Inv(cfg, Step(cfg, hooks, st, op))
  {
    hide Inv;
    match op
    case ObserveOp(f, now, at) =>
      LazySweepKeeps(cfg, hooks, st, now);
      ArriveKeeps(cfg, LazySweep(cfg, hooks, st, now), f, now, at);
    case TickOp(now) => EvictExpiredKeeps(cfg, hooks, st, now);
    case PurgeOp => PurgeKeeps(cfg, st);
    case RepairOp(env) => RepairKeeps(cfg, st, env);
  }

  lemma RepairKeeps<E>(cfg: Config, st: State<E>, env: E)
    requires Inv(cfg, st)
    ensures Inv(cfg, st.(env := env))
  {
  }

  lemma FreshInv<E>(cfg: Config, env: E)
    ensures Inv(cfg, Fresh(env))
  {
    hide EverOnce, Once, Balanced;
    NothingEver();
    NothingYet();
    assert Elements<Key>([]) == {};
  }

  lemma NothingYet()
    ensures Once([], map[]) && Balanced([], 0)
  {
  }

  lemma NothingEver()
    ensures EverOnce([])
  {
    var log: seq<Event> := [];
    forall n, k | 0 <= n <= |log|
      ensures Asks(log[..n], k) <= 1 && Extends(log[..n], k) <= 1
    {
      assert log[..n] == [];
    }
  }

  /** The invariant holds in every state a buffer can reach. */
  lemma {:induction false} RunKeeps<E>(cfg: Config, hooks: Hooks<E>, st: State<E>, ops: seq<Op<E>>)
    requires Inv(cfg, st) && ConfigOk(cfg)
    ensures Inv(cfg, Run(cfg, hooks, st, ops))
  {
    if ops != [] {
      RunKeeps(cfg, hooks, st, ops[..|ops| - 1]);
      StepKeeps(cfg, hooks, Run(cfg, hooks, st, ops[..|ops| - 1]), ops[|ops| - 1]);
    }
  }
}
