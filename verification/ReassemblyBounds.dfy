/**
 What a slot may declare. A slot sizes its arrays and its buffer by the fragment count and the length its
 first fragment declares, so both are bounded before the slot exists and never change after.
 */
module ReassemblyBounds {
  import opened Base
  import opened Grid
  import opened Slots
  import opened Reassembly

  /** The largest object of this frame version the buffer takes; none if not positive. */
  function Bound(cfg: Config, ver: Byte): int {
    if ver == VER_V9 && cfg.maxObjectV9 > 0 then cfg.maxObjectV9 + cfg.beefEnvelope else cfg.maxObject
  }

  /** At least a byte, at most one fragment more than bytes, and no longer than the bound. */
  predicate Sane(cfg: Config, s: Slot) {
    && s.origLen >= 1 && 1 <= s.total <= s.origLen + 1
    && (Bound(cfg, s.ver) > 0 ==> s.origLen <= Bound(cfg, s.ver))
  }

  ghost predicate AllSane(cfg: Config, slots: map<Key, Slot>) {
    forall k :: k in slots ==> Sane(cfg, slots[k])
  }

  predicate SameShape(a: Slot, b: Slot) {
    a.origLen == b.origLen && a.total == b.total && a.ver == b.ver
  }

  /** Every slot of b is a slot of a that declares the same. */
  ghost predicate Descends(a: map<Key, Slot>, b: map<Key, Slot>) {
    forall k :: k in b ==> k in a && SameShape(a[k], b[k])
  }

  lemma DescendsSane(cfg: Config, a: map<Key, Slot>, b: map<Key, Slot>)
    requires AllSane(cfg, a) && Descends(a, b)
    ensures AllSane(cfg, b)
  {
  }

  lemma HoldDescends<E>(cfg: Config, hooks: Hooks<E>, st: State<E>, k: Key, now: Time)
    requires k in st.slots
    ensures Descends(st.slots, HoldForRepair(cfg, hooks, st, k, now).slots)
  {
    hide Missing;
  }

  lemma SweepOneDescends<E>(cfg: Config, hooks: Hooks<E>, st: State<E>, k: Key, now: Time)
    ensures Descends(st.slots, SweepOne(cfg, hooks, st, k, now).slots)
  {
    hide Missing, HoldForRepair;
    if k in st.slots {
      HoldDescends(cfg, hooks, st, k, now);
    }
  }

  lemma {:induction false} SweepListDescends<E>(cfg: Config, hooks: Hooks<E>, st: State<E>, order: seq<Key>, n: nat,
                                                now: Time)
    requires n <= |order|
    ensures Descends(st.slots, SweepList(cfg, hooks, st, order, n, now).slots)
  {
    hide SweepOne;
    if n > 0 {
      SweepListDescends(cfg, hooks, st, order, n - 1, now);
      SweepOneDescends(cfg, hooks, SweepList(cfg, hooks, st, order, n - 1, now), order[n - 1], now);
    }
  }

  lemma EvictDescends<E>(cfg: Config, hooks: Hooks<E>, st: State<E>, now: Time)
    ensures Descends(st.slots, EvictExpired(cfg, hooks, st, now).slots)
  {
    hide SweepList;
    SweepListDescends(cfg, hooks, SweepDone(st, now), st.insertOrder, |st.insertOrder|, now);
  }

  /** What is not rejected as pathological or too large opens a sane slot. */
  lemma OpensSane(cfg: Config, f: Fragment, now: Time)
    requires !Pathological(f) && !TooLarge(cfg, f)
    ensures Sane(cfg, OpenSlot(f, now, cfg.ttl))
  {
  }

  lemma AdmitDescends<E>(cfg: Config, st: State<E>, f: Fragment, at: Time)
    requires SlotKey(f) in st.slots
    ensures Descends(st.slots, Admit(cfg, st, f, at).slots)
  {
    hide Payload, Outcome, MarkDone;
  }

  lemma ArriveSane<E>(cfg: Config, st: State<E>, f: Fragment, now: Time, at: Time)
    requires AllSane(cfg, st.slots)
    ensures AllSane(cfg, Arrive(cfg, st, f, now, at).slots)
  {
    hide Admit, Sane;
    var r := Arrive(cfg, st, f, now, at);
    if SlotKey(f) in st.slots {
      AdmitDescends(cfg, st, f, at);
      DescendsSane(cfg, st.slots, r.slots);
    } else if SlotKey(f) !in st.done && !Pathological(f) && !TooLarge(cfg, f) {
      var begun := Open(cfg, MakeRoom(cfg, st), f, now);
      OpensSane(cfg, f, now);
      AdmitDescends(cfg, begun, f, at);
      DescendsSane(cfg, begun.slots, r.slots);
    }
  }

  lemma StepSane<E>(cfg: Config, hooks: Hooks<E>, st: State<E>, op: Op<E>)
    requires AllSane(cfg, st.slots)
    ensures AllSane(cfg, Step(cfg, hooks, st, op).slots)
  {
    hide Arrive, EvictExpired, Sane;
    match op
    case ObserveOp(f, now, at) =>
      EvictDescends(cfg, hooks, st, now);
      DescendsSane(cfg, st.slots, EvictExpired(cfg, hooks, st, now).slots);
      ArriveSane(cfg, LazySweep(cfg, hooks, st, now), f, now, at);
    case TickOp(now) =>
      EvictDescends(cfg, hooks, st, now);
      DescendsSane(cfg, st.slots, EvictExpired(cfg, hooks, st, now).slots);
    case PurgeOp =>
    case RepairOp(env) =>
  }

  /** In every run no live slot declares an empty object, more fragments than fit, or more bytes than allowed. */
  lemma {:induction false} SlotsAreBounded<E>(cfg: Config, hooks: Hooks<E>, env: E, ops: seq<Op<E>>)
    ensures AllSane(cfg, Run(cfg, hooks, Fresh(env), ops).slots)
  {
    hide Step, Sane;
    if ops != [] {
      SlotsAreBounded(cfg, hooks, env, ops[..|ops| - 1]);
      StepSane(cfg, hooks, Run(cfg, hooks, Fresh(env), ops[..|ops| - 1]), ops[|ops| - 1]);
    }
  }

  // ----- what opens a slot -----

  /** The log grew by e among other events. */
  ghost predicate Logs(log: seq<Event>, log': seq<Event>, e: Event) {
    exists j :: |log| <= j < |log'| && log'[j] == e
  }

  /** A fragment that may open a slot: a place among its fragments, a length, and room for the count in it. */
  predicate WellFormed(f: Fragment) {
    f.index < f.total && 1 <= f.origLen < 0xFFFF_FFFF && f.total <= f.origLen + 1
  }

  lemma RoomLogs<E>(cfg: Config, st: State<E>, f: Fragment, now: Time)
    requires SlotKey(f) !in st.slots
    ensures var r := Open(cfg, MakeRoom(cfg, st), f, now);
            && st.log < r.log && r.log[|r.log| - 1] == Started(SlotKey(f))
            && !Logs(st.log, r.log, Oversize(SlotKey(f))) && !Logs(st.log, r.log, LateFragment(SlotKey(f)))
  {
  }

  lemma AdmitLogs<E>(cfg: Config, st: State<E>, f: Fragment, at: Time)
    requires SlotKey(f) in st.slots
    ensures var log := Admit(cfg, st, f, at).log;
            && st.log <= log
            && !Logs(st.log, log, Oversize(SlotKey(f))) && !Logs(st.log, log, LateFragment(SlotKey(f)))
  {
    hide Payload, Outcome, MarkDone;
  }

  lemma LogsTrans(a: seq<Event>, b: seq<Event>, c: seq<Event>, e: Event)
    requires a <= b <= c
    ensures Logs(a, c, e) <==> Logs(a, b, e) || Logs(b, c, e)
  {
    if Logs(a, b, e) {
      var j :| |a| <= j < |b| && b[j] == e;
      assert c[j] == e;
    }
  }

  /**
   A fragment whose key is neither live nor remembered after the sweep opens a slot exactly when it is well
   formed and its declared length is within the bound of its version. A well-formed one that is too long is
   reported oversize, and any other is dropped without a word; in both cases nothing else changes.
   */
  lemma OpensExactlyWhen<E>(cfg: Config, hooks: Hooks<E>, st: State<E>, f: Fragment, now: Time, at: Time)
    requires var swept := LazySweep(cfg, hooks, st, now); SlotKey(f) !in swept.slots && SlotKey(f) !in swept.done
    ensures var swept, r, k := LazySweep(cfg, hooks, st, now), Observe(cfg, hooks, st, f, now, at), SlotKey(f);
            var over := Bound(cfg, f.ver) > 0 && f.origLen > Bound(cfg, f.ver);
            && (Logs(swept.log, r.log, Started(k)) <==> WellFormed(f) && !over)
            && (Logs(swept.log, r.log, Oversize(k)) <==> WellFormed(f) && over)
            && (WellFormed(f) && over ==> r == swept.(log := swept.log + [Oversize(k)]))
            && (!WellFormed(f) ==> r == swept)
  {
    hide LazySweep, Admit, Open, MakeRoom;
    var swept, r, k := LazySweep(cfg, hooks, st, now), Observe(cfg, hooks, st, f, now, at), SlotKey(f);
    if WellFormed(f) && !(Bound(cfg, f.ver) > 0 && f.origLen > Bound(cfg, f.ver)) {
      var begun := Open(cfg, MakeRoom(cfg, swept), f, now);
      RoomLogs(cfg, swept, f, now);
      OpenHas(cfg, MakeRoom(cfg, swept), f, now);
      AdmitLogs(cfg, begun, f, at);
      assert begun.log[|begun.log| - 1] == Started(k);
      LogsTrans(swept.log, begun.log, r.log, Started(k));
      LogsTrans(swept.log, begun.log, r.log, Oversize(k));
    } else if WellFormed(f) {
      assert r.log[|swept.log|] == Oversize(k);
    }
  }

  /** A fragment is reported late exactly when its key has no slot and is remembered, and changes nothing then. */
  lemma LateCopyExactlyWhen<E>(cfg: Config, hooks: Hooks<E>, st: State<E>, f: Fragment, now: Time, at: Time)
    ensures var swept, r, k := LazySweep(cfg, hooks, st, now), Observe(cfg, hooks, st, f, now, at), SlotKey(f);
            var late := k !in swept.slots && k in swept.done;
            && (late ==> r == swept.(log := swept.log + [LateFragment(k)]))
            && (Logs(swept.log, r.log, LateFragment(k)) <==> late)
  {
    hide LazySweep, Admit, Open, MakeRoom;
    var swept, r, k := LazySweep(cfg, hooks, st, now), Observe(cfg, hooks, st, f, now, at), SlotKey(f);
    if k in swept.slots {
      AdmitLogs(cfg, swept, f, at);
    } else if k in swept.done {
      assert r.log[|swept.log|] == LateFragment(k);
    } else if !Pathological(f) && !TooLarge(cfg, f) {
      var begun := Open(cfg, MakeRoom(cfg, swept), f, now);
      RoomLogs(cfg, swept, f, now);
      OpenHas(cfg, MakeRoom(cfg, swept), f, now);
      AdmitLogs(cfg, begun, f, at);
      LogsTrans(swept.log, begun.log, r.log, LateFragment(k));
    }
  }

  /** The fragment is one the slot has a place for and does not hold yet. */
  predicate Wanted(s: Slot, f: Fragment) {
    f.total == s.total && f.index < s.total && f.index !in s.parts
  }

  /** The fragment's length is right for its place on some grid the slot allows. */
  ghost predicate OnSomeGrid(s: Slot, f: Fragment)
    requires f.index < s.total
  {
    exists fs: nat :: LengthFits(s, f, fs)
  }

  predicate LengthFits(s: Slot, f: Fragment, fs: nat)
    requires f.index < s.total
  {
    && IsFragSize(s.origLen, s.total, fs) && (s.fragSize == 0 || s.fragSize == fs)
    && |f.data| == FragLen(s.origLen, s.total, fs, f.index)
  }

  /**
   A fragment met by an open slot is ignored unless it is wanted. A wanted one of the wrong length costs the
   slot and is reported; one of the right length is held, and the slot then stays unless it is full.
   */
  lemma MetExactlyWhen<E>(cfg: Config, st: State<E>, f: Fragment, at: Time)
    requires SlotKey(f) in st.slots && SlotOk(st.slots[SlotKey(f)]) && st.slots[SlotKey(f)].key == SlotKey(f)
    ensures var k, r := SlotKey(f), Admit(cfg, st, f, at);
            var s := st.slots[k];
            && (!Wanted(s, f) ==> r == st)
            && (Wanted(s, f) && !OnSomeGrid(s, f) ==>
                  r == st.(slots := st.slots - {k}, log := st.log + [BadFragment(k)]))
            && (Wanted(s, f) && OnSomeGrid(s, f) ==>
                  && !Logs(st.log, r.log, BadFragment(k))
                  && (k in r.slots <==> |s.parts| + 1 < s.total)
                  && (k in r.slots ==> r.slots[k].parts == s.parts[f.index as nat := Part(f.data, f.seqNum)]))
  {
    hide Payload, Outcome, MarkDone, CheckFragLen, SlotOk;
    var s := st.slots[SlotKey(f)];
    if Wanted(s, f) {
      LengthChecked(s, f);
      if Take(s, f).Stored? {
        TakeStores(s, f);
      }
    }
  }

  lemma LengthChecked(s: Slot, f: Fragment)
    requires f.index < s.total
    ensures CheckFragLen(s.origLen, s.total, s.fragSize, f.index, |f.data|).Some? <==> OnSomeGrid(s, f)
  {
    var c := CheckFragLen(s.origLen, s.total, s.fragSize, f.index, |f.data|);
    if c.Some? {
      CheckFragLenExact(s.origLen, s.total, s.fragSize, f.index, |f.data|, c.value);
      assert LengthFits(s, f, c.value);
    }
    if OnSomeGrid(s, f) {
      var fs: nat :| LengthFits(s, f, fs);
      CheckFragLenExact(s.origLen, s.total, s.fragSize, f.index, |f.data|, fs);
    }
  }

  lemma OpenHas<E>(cfg: Config, st: State<E>, f: Fragment, now: Time)
    ensures SlotKey(f) in Open(cfg, st, f, now).slots
  {
  }

  /**
   The fragment count test adds one to the declared length in 32 bits, so an object of the largest
   declarable length is never taken, whatever the bounds say; a fragment of any other length fails
   the test exactly when it declares nothing or more fragments than bytes plus one.
   */
  lemma LargestLengthIsRefused(f: Fragment)
    requires f.total >= 1 && f.index < f.total
    ensures f.origLen == 0xFFFF_FFFF ==> Pathological(f)
    ensures f.origLen != 0xFFFF_FFFF ==> (Pathological(f) <==> f.origLen == 0 || f.total > f.origLen + 1)
  {
  }
}
