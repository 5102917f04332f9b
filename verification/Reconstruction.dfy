/**
 Objects come back whole: for every arrival order, duplication and interleaving with other
 traffic, what the buffer delivers for a key is the object its fragments were cut from.
 */
module Reconstruction {
  import opened Base
  import opened Grid
  import opened Slots
  import opened Reassembly
  import opened ReassemblyInvariants
  import opened ReassemblyTheorems
  import Bounds = ReassemblyBounds

  /** An object and the way its sender cut it. */
  datatype Object = Object(bytes: seq<Byte>, total: nat, fragSize: nat)

  ghost predicate Cuttable(o: Object) {
    IsFragSize(|o.bytes|, o.total, o.fragSize)
  }

  /** If f belongs to key k then it is one of the fragments o was cut into. */
  ghost predicate Genuine(f: Fragment, k: Key, o: Object)
    requires Cuttable(o)
  {
    SlotKey(f) == k ==>
      && f.origLen == |o.bytes|
      && f.total == o.total
      && (f.index < f.total ==> f.data == Cut(o.bytes, o.total, o.fragSize, f.index))
  }

  ghost predicate HoldsCutsOf(s: Slot, o: Object)
    requires Cuttable(o)
  {
    && s.origLen == |o.bytes|
    && s.total == o.total
    && (s.fragSize == 0 || s.fragSize == o.fragSize)
    && forall i :: i in s.parts ==>
                     i < o.total && s.parts[i].data == Cut(o.bytes, o.total, o.fragSize, i)
  }

  /** A genuine fragment is never bad: it is stored unless already held or out of range. */
  lemma TakeGenuine(s: Slot, f: Fragment, k: Key, o: Object)
    requires Cuttable(o) && HoldsCutsOf(s, o) && SlotKey(f) == k && Genuine(f, k, o)
    ensures Take(s, f).Ignored? <==> f.index >= o.total || f.index in s.parts
    ensures Take(s, f).Stored? ==>
              && HoldsCutsOf(Take(s, f).slot, o)
              && Take(s, f).slot.parts.Keys == s.parts.Keys + {f.index as nat}
    ensures !Take(s, f).Bad?
  {
    if f.index < o.total {
      CheckFragLenExact(s.origLen, s.total, s.fragSize, f.index, |f.data|, o.fragSize);
    }
  }

  /** A full slot of genuine fragments delivers the object. */
  lemma PayloadIsObject(s: Slot, o: Object)
    requires Cuttable(o) && HoldsCutsOf(s, o) && SlotOk(s) && |s.parts| == s.total
    ensures Payload(s) == o.bytes
  {
    CountIsComplete(s);
    JoinOfCuts(o.bytes, s.parts, o.total, o.fragSize);
  }

  // ----- what steps do to one key -----

  /** The same fragments, whatever happened to deadlines and flags. */
  ghost predicate SameContent(a: Slot, b: Slot) {
    a.origLen == b.origLen && a.total == b.total && a.fragSize == b.fragSize && a.parts == b.parts
    && a.key == b.key && a.txId == b.txId && a.ver == b.ver && a.born == b.born && a.hashKey == b.hashKey
  }

  /** No event from position base on abandons k or purges the buffer. */
  ghost predicate NotDropped(log: seq<Event>, base: nat, k: Key) {
    forall j :: base <= j < |log| ==>
                  !log[j].Purged? && !(log[j].Abandoned? && log[j].key == k)
  }

  /** Slot k is still there with the same fragments, unless its abandonment was logged. */
  ghost predicate Survives<E>(st: State<E>, r: State<E>, k: Key) {
    && st.log <= r.log
    && (k !in st.slots ==> k !in r.slots)
    && (k !in st.done ==> k !in r.done)
    && (k in r.slots && k in st.slots ==> SameContent(st.slots[k], r.slots[k]))
    && (k in st.slots && NotDropped(r.log, |st.log|, k) ==> k in r.slots)
  }

  lemma SurvivesTrans<E>(a: State<E>, b: State<E>, c: State<E>, k: Key)
    requires Survives(a, b, k) && Survives(b, c, k)
    ensures Survives(a, c, k)
  {
    if NotDropped(c.log, |a.log|, k) {
      assert forall j :: 0 <= j < |b.log| ==> b.log[j] == c.log[j];
    }
  }

  lemma AbandonSurvives<E>(st: State<E>, k: Key, reason: Reason, j: Key)
    ensures Survives(st, Abandon(st, k, reason), j)
  {
    assert Abandon(st, k, reason).log[|st.log|] == Abandoned(k, reason);
  }

  lemma HoldSurvives<E>(cfg: Config, hooks: Hooks<E>, st: State<E>, k: Key, now: Time, j: Key)
    requires k in st.slots
    ensures Survives(st, HoldForRepair(cfg, hooks, st, k, now), j)
  {
    hide Abandon, Extend, AskOnce, Missing;
    var asked := AskOnce(cfg, hooks, st, k, now);
    AskSurvives(cfg, hooks, st, k, now, j);
    AbandonSurvives(st, k, Expired, j);
    AbandonSurvives(asked, k, Expired, j);
    AbandonSurvives(asked, k, RepairTimeout, j);
    ExtendSurvives(cfg, asked, k, now, j);
    var r := HoldForRepair(cfg, hooks, st, k, now);
    if Missing(st.slots[k]) != [] {
      SurvivesTrans(st, asked, r, j);
    }
  }

  lemma AskSurvives<E>(cfg: Config, hooks: Hooks<E>, st: State<E>, k: Key, now: Time, j: Key)
    requires k in st.slots
    ensures Survives(st, AskOnce(cfg, hooks, st, k, now), j)
    ensures k in AskOnce(cfg, hooks, st, k, now).slots
  {
  }

  lemma ExtendSurvives<E>(cfg: Config, st: State<E>, k: Key, now: Time, j: Key)
    requires k in st.slots
    ensures Survives(st, Extend(cfg, st, k, now), j)
  {
  }

  lemma SweepOneSurvives<E>(cfg: Config, hooks: Hooks<E>, st: State<E>, k: Key, now: Time, j: Key)
    ensures Survives(st, SweepOne(cfg, hooks, st, k, now), j)
  {
    hide HoldForRepair;
    if k in st.slots && now > st.slots[k].deadline {
      if cfg.waits {
        HoldSurvives(cfg, hooks, st, k, now, j);
      } else {
        var asked := Ask(cfg, hooks, st, st.slots[k]);
        assert Survives(st, asked, j);
        AbandonSurvives(asked, k, Expired, j);
        SurvivesTrans(st, asked, Abandon(asked, k, Expired), j);
      }
    }
  }

  lemma {:induction false} SweepListSurvives<E>(cfg: Config, hooks: Hooks<E>, st: State<E>, order: seq<Key>, n: nat,
                                                now: Time, j: Key)
    requires n <= |order|
    ensures Survives(st, SweepList(cfg, hooks, st, order, n, now), j)
  {
    hide SweepOne;
    if n > 0 {
      var mid := SweepList(cfg, hooks, st, order, n - 1, now);
      SweepListSurvives(cfg, hooks, st, order, n - 1, now, j);
      SweepOneSurvives(cfg, hooks, mid, order[n - 1], now, j);
      SurvivesTrans(st, mid, SweepList(cfg, hooks, st, order, n, now), j);
    }
  }

  lemma LazySweepSurvives<E>(cfg: Config, hooks: Hooks<E>, st: State<E>, now: Time, j: Key)
    ensures Survives(st, LazySweep(cfg, hooks, st, now), j)
    ensures Survives(st, EvictExpired(cfg, hooks, st, now), j)
  {
    hide SweepList;
    SweepListSurvives(cfg, hooks, SweepDone(st, now), st.insertOrder, |st.insertOrder|, now, j);
  }

  lemma MakeRoomSurvives<E>(cfg: Config, st: State<E>, j: Key)
    ensures Survives(st, MakeRoom(cfg, st), j)
  {
    var i := FirstLive(st.insertOrder, st.slots.Keys);
    if |st.slots| >= cfg.maxSlots && i < |st.insertOrder| {
      AbandonSurvives(st, st.insertOrder[i], Capacity, j);
    }
  }

  lemma CompleteOther<E>(cfg: Config, st: State<E>, t: Slot, at: Time, k: Key)
    requires t.key != k
    ensures Survives(st, Complete(cfg, st, t, at), k)
  {
    hide Payload, Outcome;
  }

  lemma TakeKeepsTags(s: Slot, f: Fragment)
    requires Take(s, f).Stored?
    ensures SameTags(s, Take(s, f).slot) && Take(s, f).slot.total == s.total
  {
    hide CheckFragLen;
  }

  /** A fragment of another key leaves slot k alone unless it pushes it out. */
  lemma AdmitOther<E>(cfg: Config, st: State<E>, f: Fragment, at: Time, k: Key)
    requires SlotKey(f) in st.slots && st.slots[SlotKey(f)].key == SlotKey(f) && SlotKey(f) != k
    ensures Survives(st, Admit(cfg, st, f, at), k)
  {
    hide Complete, Take;
    var s := st.slots[SlotKey(f)];
    if Take(s, f).Stored? {
      TakeKeepsTags(s, f);
      CompleteOther(cfg, st, Take(s, f).slot, at, k);
    }
  }

  lemma ArriveOther<E>(cfg: Config, st: State<E>, f: Fragment, now: Time, at: Time, k: Key)
    requires SlotsInv(cfg, st.slots) && SlotKey(f) != k
    ensures Survives(st, Arrive(cfg, st, f, now, at), k)
  {
    hide Admit, MakeRoom, SlotOk;
    if SlotKey(f) in st.slots {
      assert SlotInv(cfg, SlotKey(f), st.slots[SlotKey(f)], 1);
      AdmitOther(cfg, st, f, at, k);
    } else if SlotKey(f) !in st.done && !Pathological(f) && !TooLarge(cfg, f) {
      var room := MakeRoom(cfg, st);
      var begun := Open(cfg, room, f, now);
      MakeRoomSurvives(cfg, st, k);
      assert Survives(room, begun, k);
      AdmitOther(cfg, begun, f, at, k);
      SurvivesTrans(st, room, begun, k);
      SurvivesTrans(st, begun, Arrive(cfg, st, f, now, at), k);
    }
  }

  // ----- safety: what is delivered is the object -----

  /** The delivery names the object by the identifiers its key was made from. */
  predicate Identifies(d: Delivery, k: Key) {
    match d
    case TxDelivery(txId, _, _, _, _) => k == Single(txId)
    case BlockDelivery(_, contentId, _, _, _) => k == Single(contentId)
    case SubtreeDelivery(_, subtreeId, _, _, _) => k == Single(subtreeId)
    case BeefDelivery(_, contentId, topicId, _, _, _) => k == Pair(contentId, topicId)
  }

  function IdOf(k: Key): Id32 {
    match k
    case Single(id) => id
    case Pair(content, _) => content
  }

  /** The hash check that applies to objects of key k. */
  predicate HashHolds(cfg: Config, k: Key, bytes: seq<Byte>) {
    cfg.hashOk(k.Pair?, IdOf(k), bytes)
  }

  /**
   What a completion of k may report when its object is bytes: a delivery of exactly those bytes under
   k's identifiers, past the hash check where one applies; or nothing, when that check fails on them.
   */
  predicate Truthful(cfg: Config, result: Option<Delivery>, k: Key, bytes: seq<Byte>) {
    match result
    case Some(d) =>
      && d.payload == bytes && Identifies(d, k)
      && (cfg.verifyHash && (d.TxDelivery? || d.BeefDelivery?) ==> HashHolds(cfg, k, bytes))
    case None => cfg.verifyHash && !HashHolds(cfg, k, bytes)
  }

  /** Every completion logged for k is truthful about o. */
  ghost predicate Faithful(cfg: Config, log: seq<Event>, k: Key, o: Object) {
    forall j :: 0 <= j < |log| && log[j].Completed? && log[j].key == k ==> Truthful(cfg, log[j].result, k, o.bytes)
  }

  ghost predicate KeyFaithful<E>(cfg: Config, st: State<E>, k: Key, o: Object)
    requires Cuttable(o)
  {
    && (k in st.slots ==> HoldsCutsOf(st.slots[k], o))
    && Faithful(cfg, st.log, k, o)
  }

  /** What a genuine fragment does to its slot: one more index held, or the object delivered. */
  lemma AdmitGenuine<E>(cfg: Config, st: State<E>, f: Fragment, at: Time, k: Key, o: Object)
    requires Cuttable(o) && SlotKey(f) == k && Genuine(f, k, o)
    requires k in st.slots && SlotInv(cfg, k, st.slots[k], 0) && HoldsCutsOf(st.slots[k], o)
    ensures var r := Admit(cfg, st, f, at);
            var s := st.slots[k];
            var held := s.parts.Keys + (if f.index < o.total then {f.index as nat} else {});
            && (|held| < o.total ==>
                  && k in r.slots && HoldsCutsOf(r.slots[k], o) && r.slots[k].parts.Keys == held
                  && SameTags(s, r.slots[k])
                  && r.log == st.log)
            && (|held| >= o.total ==>
                  && k !in r.slots
                  && r.log == st.log + [Completed(k, at, s.extended, Outcome(cfg, s, o.bytes))])
  {
    hide Outcome, Take, MarkDone, SlotOk, Genuine, Payload;
    var s := st.slots[k];
    TakeGenuine(s, f, k, o);
    var held := s.parts.Keys + (if f.index < o.total then {f.index as nat} else {});
    if Take(s, f).Stored? {
      var t := Take(s, f).slot;
      TakeStores(s, f);
      TakeKeepsTags(s, f);
      assert held == t.parts.Keys;
      SameOutcome(cfg, s, t, o.bytes);
      if |t.parts| >= t.total {
        CountIsComplete(t);
        PayloadIsObject(t, o);
      }
    } else {
      assert held == s.parts.Keys;
    }
  }

  ghost predicate SameTags(a: Slot, b: Slot) {
    && a.key == b.key && a.txId == b.txId && a.subtreeId == b.subtreeId && a.hashKey == b.hashKey
    && a.seqNum == b.seqNum && a.ver == b.ver && a.msgType == b.msgType && a.extended == b.extended
  }

  lemma SameOutcome(cfg: Config, a: Slot, b: Slot, payload: seq<Byte>)
    requires SameTags(a, b)
    ensures Outcome(cfg, a, payload) == Outcome(cfg, b, payload)
  {
  }

  /** What a slot of k completes as is truthful, whatever its version. */
  lemma OutcomeIsTruthful(cfg: Config, k: Key, s: Slot, bytes: seq<Byte>)
    requires s.key == k && Keyed(s)
    ensures Truthful(cfg, Outcome(cfg, s, bytes), k, bytes)
  {
  }

  lemma FaithfulSnoc(cfg: Config, log: seq<Event>, k: Key, o: Object, e: Event)
    requires Faithful(cfg, log, k, o)
    requires e.Completed? && e.key == k ==> Truthful(cfg, e.result, k, o.bytes)
    ensures Faithful(cfg, log + [e], k, o)
  {
    hide Truthful;
  }

  lemma AdmitFaithful<E>(cfg: Config, st: State<E>, f: Fragment, at: Time, k: Key, o: Object)
    requires Cuttable(o) && Genuine(f, k, o) && KeyFaithful(cfg, st, k, o)
    requires SlotKey(f) in st.slots && SlotInv(cfg, SlotKey(f), st.slots[SlotKey(f)], 0)
    ensures KeyFaithful(cfg, Admit(cfg, st, f, at), k, o)
  {
    if SlotKey(f) == k {
      hide Admit, Outcome, SlotOk, HoldsCutsOf, Truthful;
      var s := st.slots[k];
      AdmitGenuine(cfg, st, f, at, k, o);
      OutcomeIsTruthful(cfg, k, s, o.bytes);
      FaithfulSnoc(cfg, st.log, k, o, Completed(k, at, s.extended, Outcome(cfg, s, o.bytes)));
    } else {
      hide Outcome, Payload, HoldsCutsOf, CheckFragLen, Truthful;
    }
  }

  lemma ArriveFaithful<E>(cfg: Config, st: State<E>, f: Fragment, now: Time, at: Time, k: Key, o: Object)
    requires Cuttable(o) && Genuine(f, k, o) && KeyFaithful(cfg, st, k, o)
    requires SlotsInv(cfg, st.slots)
    ensures KeyFaithful(cfg, Arrive(cfg, st, f, now, at), k, o)
  {
    hide Admit, MakeRoom, SlotInv;
    if SlotKey(f) in st.slots {
      WeakerSlotInv(cfg, SlotKey(f), st.slots[SlotKey(f)]);
      AdmitFaithful(cfg, st, f, at, k, o);
    } else if SlotKey(f) !in st.done && !Pathological(f) && !TooLarge(cfg, f) {
      MakeRoomSurvives(cfg, st, k);
      MakeRoomQuiet(cfg, st);
      OpenedSlot(cfg, f, now);
      AdmitFaithful(cfg, Open(cfg, MakeRoom(cfg, st), f, now), f, at, k, o);
    }
  }

  lemma WeakerSlotInv(cfg: Config, k: Key, s: Slot)
    requires SlotInv(cfg, k, s, 1)
    ensures SlotInv(cfg, k, s, 0)
  {
  }

  lemma MakeRoomQuiet<E>(cfg: Config, st: State<E>)
    ensures Quiet(st.log, MakeRoom(cfg, st).log)
  {
  }

  lemma QuietFaithful(cfg: Config, log: seq<Event>, log': seq<Event>, k: Key, o: Object)
    requires Faithful(cfg, log, k, o) && Quiet(log, log')
    ensures Faithful(cfg, log', k, o)
  {
    hide Truthful;
  }

  lemma EvictFaithful<E>(cfg: Config, hooks: Hooks<E>, st: State<E>, now: Time, k: Key, o: Object)
    requires Cuttable(o) && KeyFaithful(cfg, st, k, o) && Inv(cfg, st)
    ensures KeyFaithful(cfg, EvictExpired(cfg, hooks, st, now), k, o)
    ensures KeyFaithful(cfg, LazySweep(cfg, hooks, st, now), k, o)
  {
    hide SweepList, Faithful, Inv;
    LazySweepSurvives(cfg, hooks, st, now, k);
    SweepDoneKeeps(cfg, st, now);
    SweepListSpeaks(cfg, hooks, SweepDone(st, now), st.insertOrder, |st.insertOrder|, now);
    QuietFaithful(cfg, st.log, EvictExpired(cfg, hooks, st, now).log, k, o);
  }

  ghost predicate AllGenuine<E>(ops: seq<Op<E>>, k: Key, o: Object)
    requires Cuttable(o)
  {
    forall i :: 0 <= i < |ops| && ops[i].ObserveOp? ==> Genuine(ops[i].f, k, o)
  }

  lemma StepFaithful<E>(cfg: Config, hooks: Hooks<E>, st: State<E>, op: Op<E>, k: Key, o: Object)
    requires Cuttable(o) && KeyFaithful(cfg, st, k, o) && Inv(cfg, st) && (op.ObserveOp? ==> Genuine(op.f, k, o))
    ensures KeyFaithful(cfg, Step(cfg, hooks, st, op), k, o)
  {
    hide Inv, Faithful, LazySweep, Arrive, EvictExpired, HoldsCutsOf, Genuine;
    match op
    case ObserveOp(f, now, at) =>
      EvictFaithful(cfg, hooks, st, now, k, o);
      LazySweepKeeps(cfg, hooks, st, now);
      InvSlots(cfg, LazySweep(cfg, hooks, st, now));
      ArriveFaithful(cfg, LazySweep(cfg, hooks, st, now), f, now, at, k, o);
    case TickOp(now) => EvictFaithful(cfg, hooks, st, now, k, o);
    case PurgeOp => FaithfulSnoc(cfg, st.log, k, o, Purged(st.slots.Keys));
    case RepairOp(_) =>
  }

  lemma InvSlots<E>(cfg: Config, st: State<E>)
    requires Inv(cfg, st)
    ensures SlotsInv(cfg, st.slots)
  {
  }

  lemma {:induction false} RunFaithful<E>(cfg: Config, hooks: Hooks<E>, env: E, ops: seq<Op<E>>, k: Key, o: Object)
    requires ConfigOk(cfg) && Cuttable(o) && AllGenuine(ops, k, o)
    ensures KeyFaithful(cfg, Run(cfg, hooks, Fresh(env), ops), k, o)
  {
    hide Inv, Step, HoldsCutsOf, Faithful, Genuine;
    if ops == [] {
      FaithfulStart(cfg, k, o);
    } else {
      var front := ops[..|ops| - 1];
      var st := Run(cfg, hooks, Fresh(env), front);
      RunFaithful(cfg, hooks, env, front, k, o);
      FreshInv(cfg, env);
      RunKeeps(cfg, hooks, Fresh(env), front);
      StepFaithful(cfg, hooks, st, ops[|ops| - 1], k, o);
    }
  }

  lemma FaithfulStart(cfg: Config, k: Key, o: Object)
    ensures Faithful(cfg, [], k, o)
  {
  }

  /**
   If every fragment observed for key k was cut from o, then every completion of k in the run delivers
   exactly o under k's identifiers, or nothing when its hash check fails on o: whatever the order, the
   duplicates, the losses and the traffic around it.
   */
  lemma DeliversOnlyTheObject<E>(cfg: Config, hooks: Hooks<E>, env: E, ops: seq<Op<E>>, k: Key, o: Object, j: nat)
    requires ConfigOk(cfg) && Cuttable(o) && AllGenuine(ops, k, o)
    requires var log := Run(cfg, hooks, Fresh(env), ops).log;
             j < |log| && log[j].Completed? && log[j].key == k
    ensures Truthful(cfg, Run(cfg, hooks, Fresh(env), ops).log[j].result, k, o.bytes)
  {
    hide Run, Truthful;
    RunFaithful(cfg, hooks, env, ops, k, o);
  }

  /** An object whose hash is right is never refused. */
  lemma RightHashIsDelivered(cfg: Config, result: Option<Delivery>, k: Key, bytes: seq<Byte>)
    requires Truthful(cfg, result, k, bytes) && (cfg.verifyHash ==> HashHolds(cfg, k, bytes))
    ensures result.Some? && result.value.payload == bytes && Identifies(result.value, k)
  {
  }

  // ----- an object is delivered as what it was sent as -----

  /** A completion of an object sent as version v: its own kind of delivery, or a failed hash check. */
  predicate OfKind(result: Option<Delivery>, v: Byte) {
    match result
    case Some(TxDelivery(_, _, _, _, _)) => v != VER_V4 && v != VER_V5 && v != VER_V9
    case Some(BlockDelivery(_, _, _, _, _)) => v == VER_V4
    case Some(SubtreeDelivery(_, _, _, _, _)) => v == VER_V5
    case Some(BeefDelivery(_, _, _, _, _, _)) => v == VER_V9
    case None => v != VER_V4 && v != VER_V5
  }

  ghost predicate KeyVersion<E>(st: State<E>, k: Key, v: Byte) {
    && (k in st.slots ==> st.slots[k].ver == v)
    && forall j :: 0 <= j < |st.log| && st.log[j].Completed? && st.log[j].key == k ==> OfKind(st.log[j].result, v)
  }

  lemma OutcomeOfKind(cfg: Config, s: Slot, bytes: seq<Byte>)
    ensures OfKind(Outcome(cfg, s, bytes), s.ver)
  {
  }

  lemma QuietVersion<E>(st: State<E>, r: State<E>, k: Key, v: Byte)
    requires KeyVersion(st, k, v) && Quiet(st.log, r.log) && Bounds.Descends(st.slots, r.slots)
    ensures KeyVersion(r, k, v)
  {
    hide OfKind;
  }

  lemma AdmitVersion<E>(cfg: Config, st: State<E>, f: Fragment, at: Time, k: Key, v: Byte)
    requires SlotKey(f) in st.slots && st.slots[SlotKey(f)].key == SlotKey(f) && KeyVersion(st, k, v)
    ensures KeyVersion(Admit(cfg, st, f, at), k, v)
  {
    hide Payload, Outcome, OfKind, Take, MarkDone;
    var s := st.slots[SlotKey(f)];
    Bounds.AdmitDescends(cfg, st, f, at);
    if Take(s, f).Stored? {
      var t := Take(s, f).slot;
      TakeKeepsTags(s, f);
      OutcomeOfKind(cfg, t, Payload(t));
    }
  }

  lemma OpenVersion<E>(cfg: Config, st: State<E>, f: Fragment, now: Time, k: Key, v: Byte)
    requires KeyVersion(st, k, v) && (SlotKey(f) == k ==> f.ver == v)
    ensures KeyVersion(Open(cfg, MakeRoom(cfg, st), f, now), k, v)
  {
    hide OfKind;
  }

  lemma ArriveVersion<E>(cfg: Config, st: State<E>, f: Fragment, now: Time, at: Time, k: Key, v: Byte)
    requires SlotsInv(cfg, st.slots) && KeyVersion(st, k, v) && (SlotKey(f) == k ==> f.ver == v)
    ensures KeyVersion(Arrive(cfg, st, f, now, at), k, v)
  {
    hide Admit, MakeRoom, OfKind, SlotOk;
    if SlotKey(f) in st.slots {
      assert SlotInv(cfg, SlotKey(f), st.slots[SlotKey(f)], 1);
      AdmitVersion(cfg, st, f, at, k, v);
    } else if SlotKey(f) !in st.done && !Pathological(f) && !TooLarge(cfg, f) {
      OpenVersion(cfg, st, f, now, k, v);
      AdmitVersion(cfg, Open(cfg, MakeRoom(cfg, st), f, now), f, at, k, v);
    }
  }

  lemma EvictVersion<E>(cfg: Config, hooks: Hooks<E>, st: State<E>, now: Time, k: Key, v: Byte)
    requires Inv(cfg, st) && KeyVersion(st, k, v)
    ensures KeyVersion(EvictExpired(cfg, hooks, st, now), k, v) && KeyVersion(LazySweep(cfg, hooks, st, now), k, v)
  {
    hide SweepList, Inv, KeyVersion;
    SweepDoneKeeps(cfg, st, now);
    SweepListSpeaks(cfg, hooks, SweepDone(st, now), st.insertOrder, |st.insertOrder|, now);
    Bounds.EvictDescends(cfg, hooks, st, now);
    QuietVersion(st, EvictExpired(cfg, hooks, st, now), k, v);
    SameVersion(EvictExpired(cfg, hooks, st, now), LazySweep(cfg, hooks, st, now), k, v);
  }

  lemma SameVersion<E>(st: State<E>, r: State<E>, k: Key, v: Byte)
    ensures KeyVersion(st, k, v) && st.slots == r.slots && st.log == r.log ==> KeyVersion(r, k, v)
  {
  }

  lemma StepVersion<E>(cfg: Config, hooks: Hooks<E>, st: State<E>, op: Op<E>, k: Key, v: Byte)
    requires Inv(cfg, st) && KeyVersion(st, k, v) && (op.ObserveOp? && SlotKey(op.f) == k ==> op.f.ver == v)
    ensures KeyVersion(Step(cfg, hooks, st, op), k, v)
  {
    hide Inv, LazySweep, Arrive, EvictExpired, OfKind;
    match op
    case ObserveOp(f, now, at) =>
      EvictVersion(cfg, hooks, st, now, k, v);
      LazySweepKeeps(cfg, hooks, st, now);
      InvSlots(cfg, LazySweep(cfg, hooks, st, now));
      ArriveVersion(cfg, LazySweep(cfg, hooks, st, now), f, now, at, k, v);
    case TickOp(now) => EvictVersion(cfg, hooks, st, now, k, v);
    case PurgeOp =>
    case RepairOp(_) =>
  }

  /** If every fragment of k was sent as version v, every completion of k in the run is of v's kind. */
  lemma {:induction false} DeliversItsKind<E>(cfg: Config, hooks: Hooks<E>, env: E, ops: seq<Op<E>>, k: Key, v: Byte)
    requires ConfigOk(cfg)
    requires forall i :: 0 <= i < |ops| && ops[i].ObserveOp? && SlotKey(ops[i].f) == k ==> ops[i].f.ver == v
    ensures KeyVersion(Run(cfg, hooks, Fresh(env), ops), k, v)
  {
    hide Inv, Step, OfKind;
    if ops != [] {
      var front := ops[..|ops| - 1];
      DeliversItsKind(cfg, hooks, env, front, k, v);
      FreshInv(cfg, env);
      RunKeeps(cfg, hooks, Fresh(env), front);
      StepVersion(cfg, hooks, Run(cfg, hooks, Fresh(env), front), ops[|ops| - 1], k, v);
    }
  }

  // ----- and with the tags it was sent with -----

  /** The delivery carries the flow, number, type and second identifier of the fragment. */
  predicate Carries(d: Delivery, f: Fragment) {
    && d.hashKey == f.hashKey && d.seqNum == f.seqNum
    && match d
       case TxDelivery(_, subtreeId, _, _, _) => subtreeId == f.subtreeId
       case BlockDelivery(msgType, _, _, _, _) => msgType == f.msgType
       case SubtreeDelivery(msgType, _, _, _, _) => msgType == f.msgType
       case BeefDelivery(deliverCount, _, topicId, _, _, _) => deliverCount == f.msgType && topicId == f.subtreeId
  }

  predicate OpenedBy(s: Slot, f: Fragment) {
    s.hashKey == f.hashKey && s.seqNum == f.seqNum && s.msgType == f.msgType && s.subtreeId == f.subtreeId
  }

  /** The fragments of k observed in the run. */
  function Observed<E>(ops: seq<Op<E>>, k: Key): set<Fragment> {
    set i | 0 <= i < |ops| && ops[i].ObserveOp? && SlotKey(ops[i].f) == k :: ops[i].f
  }

  ghost predicate CarriesOne(result: Option<Delivery>, fs: set<Fragment>) {
    result.Some? ==> exists f :: f in fs && Carries(result.value, f)
  }

  ghost predicate Tagged<E>(st: State<E>, k: Key, fs: set<Fragment>) {
    && (k in st.slots ==> exists f :: f in fs && OpenedBy(st.slots[k], f))
    && forall j :: 0 <= j < |st.log| && st.log[j].Completed? && st.log[j].key == k ==> CarriesOne(st.log[j].result, fs)
  }

  ghost predicate TagsKept(a: map<Key, Slot>, b: map<Key, Slot>, k: Key) {
    k in b ==> k in a && a[k].hashKey == b[k].hashKey && a[k].seqNum == b[k].seqNum && a[k].msgType == b[k].msgType &&
               a[k].subtreeId == b[k].subtreeId
  }

  lemma TaggedMore<E>(st: State<E>, k: Key, fs: set<Fragment>, more: set<Fragment>)
    requires Tagged(st, k, fs) && fs <= more
    ensures Tagged(st, k, more)
  {
  }

  lemma QuietTags<E>(st: State<E>, r: State<E>, k: Key, fs: set<Fragment>)
    requires Tagged(st, k, fs) && Quiet(st.log, r.log) && TagsKept(st.slots, r.slots, k)
    ensures Tagged(r, k, fs)
  {
    hide CarriesOne;
    if k in r.slots {
      var f :| f in fs && OpenedBy(st.slots[k], f);
      assert OpenedBy(r.slots[k], f);
    }
  }

  lemma OutcomeTagged(cfg: Config, s: Slot, bytes: seq<Byte>, fs: set<Fragment>)
    requires exists f :: f in fs && OpenedBy(s, f)
    ensures CarriesOne(Outcome(cfg, s, bytes), fs)
  {
    var f :| f in fs && OpenedBy(s, f);
    assert Outcome(cfg, s, bytes).Some? ==> Carries(Outcome(cfg, s, bytes).value, f);
  }

  lemma AdmitTagged<E>(cfg: Config, st: State<E>, f: Fragment, at: Time, k: Key, fs: set<Fragment>)
    requires SlotKey(f) in st.slots && st.slots[SlotKey(f)].key == SlotKey(f) && Tagged(st, k, fs)
    ensures Tagged(Admit(cfg, st, f, at), k, fs)
  {
    hide Payload, Outcome, CarriesOne, Take, MarkDone;
    var s := st.slots[SlotKey(f)];
    if Take(s, f).Stored? {
      var t := Take(s, f).slot;
      TakeKeepsTags(s, f);
      if SlotKey(f) == k {
        var g :| g in fs && OpenedBy(s, g);
        assert OpenedBy(t, g);
        OutcomeTagged(cfg, t, Payload(t), fs);
      }
    }
  }

  lemma OpenTagged<E>(cfg: Config, st: State<E>, f: Fragment, now: Time, k: Key, fs: set<Fragment>)
    requires Tagged(st, k, fs) && (SlotKey(f) == k ==> f in fs)
    ensures Tagged(Open(cfg, MakeRoom(cfg, st), f, now), k, fs)
  {
    hide CarriesOne;
    if SlotKey(f) == k {
      assert OpenedBy(OpenSlot(f, now, cfg.ttl), f);
    }
  }

  lemma ArriveTagged<E>(cfg: Config, st: State<E>, f: Fragment, now: Time, at: Time, k: Key, fs: set<Fragment>)
    requires SlotsInv(cfg, st.slots) && Tagged(st, k, fs) && (SlotKey(f) == k ==> f in fs)
    ensures Tagged(Arrive(cfg, st, f, now, at), k, fs)
  {
    hide Admit, MakeRoom, CarriesOne, SlotOk, OpenedBy;
    if SlotKey(f) in st.slots {
      assert SlotInv(cfg, SlotKey(f), st.slots[SlotKey(f)], 1);
      AdmitTagged(cfg, st, f, at, k, fs);
    } else if SlotKey(f) !in st.done && !Pathological(f) && !TooLarge(cfg, f) {
      OpenTagged(cfg, st, f, now, k, fs);
      AdmitTagged(cfg, Open(cfg, MakeRoom(cfg, st), f, now), f, at, k, fs);
    }
  }

  lemma HoldKeepsTags<E>(cfg: Config, hooks: Hooks<E>, st: State<E>, j: Key, now: Time, k: Key)
    ensures TagsKept(st.slots, SweepOne(cfg, hooks, st, j, now).slots, k)
  {
    hide Missing;
  }

  lemma {:induction false} ListKeepsTags<E>(cfg: Config, hooks: Hooks<E>, st: State<E>, order: seq<Key>, n: nat, now: Time,
                                            k: Key)
    requires n <= |order|
    ensures TagsKept(st.slots, SweepList(cfg, hooks, st, order, n, now).slots, k)
  {
    hide SweepOne;
    if n > 0 {
      ListKeepsTags(cfg, hooks, st, order, n - 1, now, k);
      HoldKeepsTags(cfg, hooks, SweepList(cfg, hooks, st, order, n - 1, now), order[n - 1], now, k);
    }
  }

  lemma EvictTagged<E>(cfg: Config, hooks: Hooks<E>, st: State<E>, now: Time, k: Key, fs: set<Fragment>)
    requires Inv(cfg, st) && Tagged(st, k, fs)
    ensures Tagged(EvictExpired(cfg, hooks, st, now), k, fs) && Tagged(LazySweep(cfg, hooks, st, now), k, fs)
  {
    hide SweepList, Inv, CarriesOne, OpenedBy;
    SweepDoneKeeps(cfg, st, now);
    SweepListSpeaks(cfg, hooks, SweepDone(st, now), st.insertOrder, |st.insertOrder|, now);
    ListKeepsTags(cfg, hooks, SweepDone(st, now), st.insertOrder, |st.insertOrder|, now, k);
    QuietTags(st, EvictExpired(cfg, hooks, st, now), k, fs);
  }

  lemma StepTagged<E>(cfg: Config, hooks: Hooks<E>, st: State<E>, op: Op<E>, k: Key, fs: set<Fragment>)
    requires Inv(cfg, st) && Tagged(st, k, fs) && (op.ObserveOp? && SlotKey(op.f) == k ==> op.f in fs)
    ensures Tagged(Step(cfg, hooks, st, op), k, fs)
  {
    hide Inv, LazySweep, Arrive, EvictExpired, CarriesOne, OpenedBy;
    match op
    case ObserveOp(f, now, at) =>
      EvictTagged(cfg, hooks, st, now, k, fs);
      LazySweepKeeps(cfg, hooks, st, now);
      InvSlots(cfg, LazySweep(cfg, hooks, st, now));
      ArriveTagged(cfg, LazySweep(cfg, hooks, st, now), f, now, at, k, fs);
    case TickOp(now) => EvictTagged(cfg, hooks, st, now, k, fs);
    case PurgeOp =>
    case RepairOp(_) =>
  }

  lemma {:induction false} RunTagged<E>(cfg: Config, hooks: Hooks<E>, env: E, ops: seq<Op<E>>, k: Key)
    requires ConfigOk(cfg)
    ensures Tagged(Run(cfg, hooks, Fresh(env), ops), k, Observed(ops, k))
  {
    hide Inv, Step, CarriesOne, OpenedBy;
    if ops != [] {
      var front, op := ops[..|ops| - 1], ops[|ops| - 1];
      var st := Run(cfg, hooks, Fresh(env), front);
      RunTagged(cfg, hooks, env, front, k);
      assert Observed(front, k) <= Observed(ops, k) by {
        forall f | f in Observed(front, k)
          ensures f in Observed(ops, k)
        {
          var i :| 0 <= i < |front| && front[i].ObserveOp? && SlotKey(front[i].f) == k && front[i].f == f;
          assert ops[i] == front[i];
        }
      }
      TaggedMore(st, k, Observed(front, k), Observed(ops, k));
      FreshInv(cfg, env);
      RunKeeps(cfg, hooks, Fresh(env), front);
      StepTagged(cfg, hooks, st, op, k, Observed(ops, k));
    }
  }

  /** In every run a delivery carries the flow, number, type and second identifier of one observed fragment of its key. */
  lemma DeliversItsTags<E>(cfg: Config, hooks: Hooks<E>, env: E, ops: seq<Op<E>>, k: Key, j: nat)
    requires ConfigOk(cfg)
    requires var log := Run(cfg, hooks, Fresh(env), ops).log;
             j < |log| && log[j].Completed? && log[j].key == k && log[j].result.Some?
    ensures var d := Run(cfg, hooks, Fresh(env), ops).log[j].result.value;
            exists f :: f in Observed(ops, k) && Carries(d, f)
  {
    hide Run, Observed, Carries;
    RunTagged(cfg, hooks, env, ops, k);
  }
}
