/**
 The reassembly buffer as a state machine over values. Calls the buffer makes outwards (metrics
 hooks, delivery callbacks, requests for missing fragments) are recorded in order in the state's
 log; the repair path behind the incomplete and repair-pending hooks is an arbitrary environment.
 */
module Reassembly {
  import opened Base
  import opened Slots

  datatype Config = Config(
    maxSlots: nat, ttl: Time, completionTTL: Time, maxAge: Time, evictEvery: Time,
    maxObject: int, maxObjectV9: int, beefEnvelope: nat,
    verifyHash: bool,
    hashOk: (bool, Id32, seq<Byte>) -> bool,  // the check for V9 objects, and the one for transactions
    asks: bool,   // an incomplete hook is installed
    waits: bool)  // a repair-pending hook is installed

  /** What the constructor's defaults and the setters guarantee. */
  predicate ConfigOk(cfg: Config) {
    cfg.maxSlots >= 1 && cfg.ttl >= 1 && cfg.completionTTL >= 1 && cfg.maxAge >= 1
  }

  /** The repair path: asking for missing fragments, and whether any of them is still in repair. */
  datatype Hooks<!E> = Hooks(
    request: (E, U64, seq<U64>) -> E,
    pending: (E, U64, seq<U64>) -> bool)

  datatype Reason = Expired | RepairTimeout | Capacity

  datatype Delivery =
    | TxDelivery(txId: Id32, subtreeId: Id32, hashKey: U64, seqNum: U64, payload: seq<Byte>)
    | BlockDelivery(msgType: Byte, contentId: Id32, hashKey: U64, seqNum: U64, payload: seq<Byte>)
    | SubtreeDelivery(msgType: Byte, subtreeId: Id32, hashKey: U64, seqNum: U64, payload: seq<Byte>)
    | BeefDelivery(deliverCount: Byte, contentId: Id32, topicId: Id32, hashKey: U64, seqNum: U64,
                   payload: seq<Byte>)

  datatype Event =
    | Started(key: Key)
    | LateFragment(key: Key)
    | Oversize(key: Key)
    | BadFragment(key: Key)
    | Asked(key: Key, hashKey: U64, missing: seq<U64>)
    | Extended(key: Key)
    | Abandoned(key: Key, reason: Reason)
    | Purged(keys: set<Key>)
    | Completed(key: Key, at: Time, late: bool, result: Option<Delivery>)

  datatype State<E> = State(
    slots: map<Key, Slot>, insertOrder: seq<Key>,
    done: map<Key, Time>, doneOrder: seq<Key>,
    lastEvict: Option<Time>, env: E, log: seq<Event>)

  function Fresh<E>(env: E): State<E> {
    State(map[], [], map[], [], None, env, [])
  }

  // ----- completion -----

  /** What a completed object is delivered as; None when its hash check fails. */
  function Outcome(cfg: Config, s: Slot, payload: seq<Byte>): Option<Delivery> {
    if s.ver == VER_V4 then
      Some(BlockDelivery(s.msgType, s.txId, s.hashKey, s.seqNum, payload))
    else if s.ver == VER_V5 then
      Some(SubtreeDelivery(s.msgType, s.txId, s.hashKey, s.seqNum, payload))
    else if cfg.verifyHash && !cfg.hashOk(s.ver == VER_V9, s.txId, payload) then
      None
    else if s.ver == VER_V9 then
      Some(BeefDelivery(s.msgType, s.txId, s.subtreeId, s.hashKey, s.seqNum, payload))
    else
      Some(TxDelivery(s.txId, s.subtreeId, s.hashKey, s.seqNum, payload))
  }

  /** markDone: remember a completed key, forgetting the oldest one at the cap. */
  function MarkDone<E>(cfg: Config, st: State<E>, k: Key, at: Time): State<E> {
    if k in st.done then st.(done := st.done[k := at + cfg.completionTTL])
    else if |st.done| >= cfg.maxSlots && |st.doneOrder| > 0 then
      st.(done := (st.done - {st.doneOrder[0]})[k := at + cfg.completionTTL],
          doneOrder := st.doneOrder[1..] + [k])
    else
      st.(done := st.done[k := at + cfg.completionTTL], doneOrder := st.doneOrder + [k])
  }

  function Complete<E>(cfg: Config, st: State<E>, s: Slot, at: Time): State<E> {
    var marked := MarkDone(cfg, st, s.key, at);
    marked.(slots := st.slots - {s.key},
            log := st.log + [Completed(s.key, at, s.extended, Outcome(cfg, s, Payload(s)))])
  }

  // ----- expiry -----

  function Abandon<E>(st: State<E>, k: Key, reason: Reason): State<E> {
    st.(slots := st.slots - {k}, log := st.log + [Abandoned(k, reason)])
  }

  /** The incomplete hook, when installed: hand the missing numbers to the repair path. */
  function Ask<E>(cfg: Config, hooks: Hooks<E>, st: State<E>, s: Slot): State<E> {
    if !cfg.asks || Missing(s) == [] then st
    else st.(env := hooks.request(st.env, s.hashKey, Missing(s)),
             log := st.log + [Asked(s.key, s.hashKey, Missing(s))])
  }

  /** First expiry inside the age limit: mark the slot and ask for every missing fragment. */
  function AskOnce<E>(cfg: Config, hooks: Hooks<E>, st: State<E>, k: Key, now: Time): State<E>
    requires k in st.slots
  {
    var s := st.slots[k];
    if !s.requested && now < s.born + cfg.maxAge then
      Ask(cfg, hooks, st.(slots := st.slots[k := s.(requested := true)]), s)
    else st
  }

  function Extend<E>(cfg: Config, st: State<E>, k: Key, now: Time): State<E>
    requires k in st.slots
  {
    var s := st.slots[k];
    var held := s.(deadline := Min(now + cfg.ttl, s.born + cfg.maxAge), extended := true);
    st.(slots := st.slots[k := held],
        log := if s.extended then st.log else st.log + [Extended(k)])
  }

  /** holdForRepair, with the abandonment its caller performs. */
  function HoldForRepair<E>(cfg: Config, hooks: Hooks<E>, st: State<E>, k: Key, now: Time): State<E>
    requires k in st.slots
  {
    var s := st.slots[k];
    if Missing(s) == [] then Abandon(st, k, Expired)
    else
      var asked := AskOnce(cfg, hooks, st, k, now);
      var pending := hooks.pending(asked.env, s.hashKey, Missing(s));
      if now >= s.born + cfg.maxAge && pending then Abandon(asked, k, RepairTimeout)
      else if !pending then Abandon(asked, k, Expired)
      else Extend(cfg, asked, k, now)
  }

  /** One turn of the expiry loop. */
  function SweepOne<E>(cfg: Config, hooks: Hooks<E>, st: State<E>, k: Key, now: Time): State<E> {
    if k !in st.slots || now <= st.slots[k].deadline then st
    else if !cfg.waits then Abandon(Ask(cfg, hooks, st, st.slots[k]), k, Expired)
    else HoldForRepair(cfg, hooks, st, k, now)
  }

  /** The expiry loop over the first n keys of order. */
  function SweepList<E>(cfg: Config, hooks: Hooks<E>, st: State<E>, order: seq<Key>, n: nat, now: Time)
    : State<E>
    requires n <= |order|
  {
    if n == 0 then st
    else SweepOne(cfg, hooks, SweepList(cfg, hooks, st, order, n - 1, now), order[n - 1], now)
  }

  /** The keys whose memory has not run out. */
  function Unexpired(done: map<Key, Time>, now: Time): set<Key> {
    set k | k in done && now <= done[k]
  }

  function KeepOnly(done: map<Key, Time>, keep: set<Key>): map<Key, Time> {
    map k | k in done && k in keep :: done[k]
  }

  function SweepDone<E>(st: State<E>, now: Time): State<E> {
    var keep := Unexpired(st.done, now);
    st.(done := KeepOnly(st.done, keep), doneOrder := Restrict(st.doneOrder, keep))
  }

  function Compact<E>(st: State<E>): State<E> {
    st.(insertOrder := Restrict(st.insertOrder, st.slots.Keys))
  }

  function EvictExpired<E>(cfg: Config, hooks: Hooks<E>, st: State<E>, now: Time): State<E> {
    Compact(SweepList(cfg, hooks, SweepDone(st, now), st.insertOrder, |st.insertOrder|, now))
  }

  // ----- capacity -----

  function FirstLive(order: seq<Key>, live: set<Key>): (i: nat)
    ensures i <= |order|
    ensures i < |order| ==> order[i] in live
    ensures forall j :: 0 <= j < i ==> order[j] !in live
  {
    if order == [] then 0
    else if order[0] in live then 0
    else 1 + FirstLive(order[1..], live)
  }

  function EvictOldest<E>(st: State<E>): State<E> {
    var i := FirstLive(st.insertOrder, st.slots.Keys);
    if i == |st.insertOrder| then st
    else Abandon(st, st.insertOrder[i], Capacity)
         .(insertOrder := st.insertOrder[..i] + st.insertOrder[i + 1..])
  }

  // ----- arrival -----

  /** Metadata no fragmenter produces; the length bound wraps as the 32-bit field does. */
  predicate Pathological(f: Fragment) {
    || f.total == 0 || f.index >= f.total
    || f.origLen == 0 || f.total > (f.origLen + 1) % 0x1_0000_0000
  }

  predicate TooLarge(cfg: Config, f: Fragment) {
    var bound := if f.ver == VER_V9 && cfg.maxObjectV9 > 0 then cfg.maxObjectV9 + cfg.beefEnvelope
                 else cfg.maxObject;
    bound > 0 && f.origLen > bound
  }

  function Open<E>(cfg: Config, st: State<E>, f: Fragment, now: Time): State<E> {
    var k := SlotKey(f);
    st.(slots := st.slots[k := OpenSlot(f, now, cfg.ttl)],
        insertOrder := st.insertOrder + [k],
        log := st.log + [Started(k)])
  }

  /** A fragment meets the open slot of its key. */
  function Admit<E>(cfg: Config, st: State<E>, f: Fragment, at: Time): State<E>
    requires SlotKey(f) in st.slots
  {
    var k := SlotKey(f);
    var s := st.slots[k];
    match Take(s, f)
    case Ignored => st
    case Bad => st.(slots := st.slots - {k}, log := st.log + [BadFragment(k)])
    case Stored(t) =>
      if |t.parts| < t.total then st.(slots := st.slots[k := t])
      else Complete(cfg, st, t, at)
  }

  predicate SweepDue<E>(cfg: Config, st: State<E>, now: Time) {
    var every := if cfg.ttl / 2 < cfg.evictEvery then cfg.ttl / 2 else cfg.evictEvery;
    st.lastEvict.None? || now - st.lastEvict.value >= every
  }

  function LazySweep<E>(cfg: Config, hooks: Hooks<E>, st: State<E>, now: Time): State<E> {
    if SweepDue(cfg, st, now) then EvictExpired(cfg, hooks, st, now).(lastEvict := Some(now)) else st
  }

  function MakeRoom<E>(cfg: Config, st: State<E>): State<E> {
    if |st.slots| >= cfg.maxSlots then EvictOldest(st) else st
  }

  /** Everything Observe does after its lazy sweep. */
  function Arrive<E>(cfg: Config, st: State<E>, f: Fragment, now: Time, at: Time): State<E> {
    var k := SlotKey(f);
    if k in st.slots then Admit(cfg, st, f, at)
    else if k in st.done then st.(log := st.log + [LateFragment(k)])
    else if Pathological(f) then st
    else if TooLarge(cfg, f) then st.(log := st.log + [Oversize(k)])
    else Admit(cfg, Open(cfg, MakeRoom(cfg, st), f, now), f, at)
  }

  /** Observe: now is its first clock reading, at the one markDone takes. */
  function Observe<E>(cfg: Config, hooks: Hooks<E>, st: State<E>, f: Fragment, now: Time, at: Time)
    : State<E> {
    Arrive(cfg, LazySweep(cfg, hooks, st, now), f, now, at)
  }

  function Purge<E>(st: State<E>): State<E> {
    st.(slots := map[], insertOrder := [], done := map[], doneOrder := [],
        log := st.log + [Purged(st.slots.Keys)])
  }

  // ----- runs -----

  /** One atomic step: a locked method of the buffer, or the repair path moving on its own. */
  datatype Op<E> =
    | ObserveOp(f: Fragment, now: Time, at: Time)
    | TickOp(now: Time)
    | PurgeOp
    | RepairOp(env: E)

  function Step<E>(cfg: Config, hooks: Hooks<E>, st: State<E>, op: Op<E>): State<E> {
    match op
    case ObserveOp(f, now, at) => Observe(cfg, hooks, st, f, now, at)
    case TickOp(now) => EvictExpired(cfg, hooks, st, now)
    case PurgeOp => Purge(st)
    case RepairOp(env) => st.(env := env)
  }

  function Run<E>(cfg: Config, hooks: Hooks<E>, st: State<E>, ops: seq<Op<E>>): State<E> {
    if ops == [] then st
    else Step(cfg, hooks, Run(cfg, hooks, st, ops[..|ops| - 1]), ops[|ops| - 1])
  }
}
