/**
 The tracker as the listener runs it: a table of flow objects behind one lock. Each locked section
 is proved to be the step of module Tracker.
 */
module TrackerObjects {
  import opened Base
  import opened FlowObjects
  import F = Flow
  import T = Tracker

  // ----- tables of flow objects -----

  /**
   Flow objects are well formed, none is filed twice, no two share a gap object, and every gap object is
   one of own.
   */
  ghost predicate Separate(m: map<U64, FlowObject>, own: set<GapObject>)
    reads m.Values
  {
    && (forall hk :: hk in m ==> m[hk].Valid() && m[hk].pending.Values <= own)
    && (forall a, b :: a in m && b in m && a != b ==> m[a] != m[b] && m[a].pending.Values !! m[b].pending.Values)
  }

  ghost function FlowsOf(m: map<U64, FlowObject>, own: set<GapObject>): map<U64, F.FlowState>
    requires Separate(m, own)
    reads m.Values, own
  {
    map hk | hk in m :: m[hk].View()
  }

  lemma FlowIs(m: map<U64, FlowObject>, own: set<GapObject>, hk: U64)
    requires Separate(m, own)
    ensures FlowsOf(m, own).Keys == m.Keys
    ensures |FlowsOf(m, own)| == |m|
    ensures hk in m ==> FlowsOf(m, own)[hk] == m[hk].View()
  {
    assert FlowsOf(m, own).Keys == m.Keys;
    assert |FlowsOf(m, own)| == |FlowsOf(m, own).Keys| && |m| == |m.Keys|;
  }

  /** The table without one flow shares nothing with it. */
  lemma SetAside(m: map<U64, FlowObject>, own: set<GapObject>, hk: U64)
    requires Separate(m, own) && hk in m
    ensures m[hk].Valid() && m[hk] in m.Values && m[hk].pending.Values <= own
    ensures var rest, apart := m - {hk}, own - m[hk].pending.Values;
            && Separate(rest, apart) && m[hk] !in rest.Values && rest.Values <= m.Values
            && FlowsOf(m, own) == FlowsOf(rest, apart)[hk := m[hk].View()]
            && FlowsOf(rest, apart) == FlowsOf(m, own) - {hk}
  {
    hide FlowObject.View, FlowObject.Valid;
  }

  lemma PutBack(rest: map<U64, FlowObject>, apart: set<GapObject>, own: set<GapObject>, hk: U64, fs: FlowObject)
    requires Separate(rest, apart) && hk !in rest && fs !in rest.Values
    requires fs.Valid() && apart !! fs.pending.Values && apart + fs.pending.Values <= own
    ensures Separate(rest[hk := fs], own)
    ensures FlowsOf(rest[hk := fs], own) == FlowsOf(rest, apart)[hk := fs.View()]
    ensures rest[hk := fs].Values <= rest.Values + {fs}
  {
    hide FlowObject.View, FlowObject.Valid;
    assert forall k :: k in rest ==> rest[k] in rest.Values;
  }

  lemma UpdateTwice(m: map<U64, F.FlowState>, hk: U64, a: F.FlowState, b: F.FlowState)
    ensures m[hk := a][hk := b] == m[hk := b]
  {
  }

  class TrackerObject {
    const cfg: T.Config
    var flows: map<U64, FlowObject>
    var refused: nat
    ghost var own: set<GapObject>
    ghost var books: map<U64, F.Books>

    ghost predicate Valid()
      reads this, flows.Values
    {
      Separate(flows, own)
    }

    ghost function Flows(): map<U64, F.FlowState>
      requires Valid()
      reads this, flows.Values, own
    {
      FlowsOf(flows, own)
    }

    ghost function Abs(): T.State
      requires Valid()
      reads this, flows.Values, own
    {
      T.State(Flows(), books, refused)
    }

    constructor (cfg: T.Config)
      ensures Valid() && this.cfg == cfg && Abs() == T.Empty()
    {
      this.cfg := cfg;
      flows, refused, own, books := map[], 0, {}, map[];
    }

    /** Pending: whether any of seqs is a pending gap of the flow. */
    method Pending(hk: U64, seqs: seq<U64>) returns (found: bool)
      requires Valid()
      ensures found == T.Pending(Abs(), hk, seqs)
    {
      hide GapsOf, Separate, FlowsOf;
      FlowIs(flows, own, hk);
      if hk !in flows {
        return false;
      }
      var fs := flows[hk];
      for i := 0 to |seqs|
        invariant forall j :: 0 <= j < i ==> seqs[j] !in GapsOf(fs.pending)
      {
        GapIs(fs.pending, seqs[i]);
        if seqs[i] in fs.pending {
          assert seqs[i] in Abs().flows[hk].pending;
          return true;
        }
      }
      return false;
    }

    /** The flow's object, created on demand under the flow cap; null when the cap refuses it. */
    method Locate(hk: U64, now: Time) returns (fs: FlowObject?)
      requires Valid()
      modifies this`flows
      ensures Valid() && fresh(flows.Values - old(flows.Values))
      ensures if fs == null then !T.Admits(cfg, old(Abs()), hk) && Abs() == old(Abs())
              else
                && T.Admits(cfg, old(Abs()), hk) && hk in flows && flows[hk] == fs
                && Abs() == old(Abs()).(flows := old(Abs()).flows[hk := Entry(old(Abs()), hk, now)])
    {
      hide FlowsOf, Separate;
      FlowIs(flows, own, hk);
      if hk in flows {
        assert Flows()[hk := Flows()[hk]] == Flows();
        return flows[hk];
      }
      if cfg.maxFlows > 0 && |flows| >= cfg.maxFlows {
        return null;
      }
      fs := AddFlow(hk, now);
    }

    method AddFlow(hk: U64, now: Time) returns (fs: FlowObject)
      requires Valid() && hk !in flows
      modifies this`flows
      ensures Valid() && fresh(flows.Values - old(flows.Values))
      ensures hk in flows && flows[hk] == fs && Flows() == old(Flows())[hk := F.NewFlow(now)]
    {
      hide FlowsOf, F.NewFlow, Separate, FlowObject.Valid;
      fs := new FlowObject(now);
      PutBack(flows, own, own, hk, fs);
      flows := flows[hk := fs];
    }

    /** ObserveFrom. */
    method ObserveFrom(hk: U64, seqNum: U64, live: bool, now: Time, ch: F.Choices)
      requires Valid()
      modifies this, flows.Values, own
      ensures Valid() && fresh(flows.Values - old(flows.Values)) && fresh(own - old(own))
      ensures Abs() == T.Step(cfg, old(Abs()), T.ObserveFrom(hk, seqNum, live, now, ch))
    {
      hide F.ObserveFrame, FlowsOf, T.Step, T.BooksOf, T.Admits, Entry, Separate;
      ghost var was := Abs();
      NothingToDo(cfg, was, T.ObserveFrom(hk, seqNum, live, now, ch));
      if seqNum == 0 {
        return;
      }
      ObserveStep(cfg, was, hk, seqNum, live, now, ch);
      var fs := Locate(hk, now);
      if fs == null {
        refused := refused + 1;
        books := books[hk := T.BooksOf(was, hk)];
        return;
      }
      FlowIs(flows, own, hk);
      OwnGaps(flows, own, hk);
      ghost var b := ObserveAt(hk, fs, seqNum, live, now, ch, T.BooksOf(was, hk));
      UpdateTwice(was.flows, hk, Entry(was, hk, now), fs.View());
    }

    method ObserveAt(hk: U64, fs: FlowObject, seqNum: U64, live: bool, now: Time, ch: F.Choices,
                     ghost b: F.Books) returns (ghost r: F.Books)
      requires Valid() && hk in flows && flows[hk] == fs && seqNum != 0
      modifies this`books, this`own, fs, fs.pending.Values
      ensures Valid() && fresh(own - old(own)) && F.Track(fs.View(), r) == 
              F.ObserveFrame(cfg.flow, F.Track(old(fs.View()), b), seqNum, live, now, ch)
      ensures Flows() == old(Flows())[hk := fs.View()] && books == old(books)[hk := r]
    {
      hide FlowsOf, Separate, FlowObject.Valid, FlowObject.View, F.ObserveFrame;
      SetAside(flows, own, hk);
      ghost var rest, apart := flows - {hk}, own - fs.pending.Values;
      r := fs.Observe(cfg.flow, seqNum, live, now, ch, b);
      books := books[hk := r];
      own := own + fs.pending.Values;
      assert rest[hk := fs] == flows;
      PutBack(rest, apart, own, hk, fs);
      UpdateTwice(FlowsOf(rest, apart), hk, old(fs.View()), fs.View());
    }

    /** RequestGapsFrom, with the copies it gets onto the queue once the lock is released. */
    method RequestGaps(hk: U64, seqs: seq<U64>, now: Time, ch: F.Choices) returns (q: seq<F.Gap>)
      requires Valid()
      modifies this, flows.Values, own
      ensures Valid() && fresh(flows.Values - old(flows.Values)) && fresh(own - old(own))
      ensures Abs() == T.Step(cfg, old(Abs()), T.RequestGaps(hk, seqs, now, ch))
      ensures q == RequestQueue(cfg, old(Abs()), hk, seqs, now, ch)
    {
      hide F.RegisterList, F.RequestCopies, F.Accepted, FlowsOf, T.Step, T.BooksOf, T.Admits, Entry, Separate;
      ghost var was := Abs();
      q := [];
      NothingToDo(cfg, was, T.RequestGaps(hk, seqs, now, ch));
      NothingQueued(cfg, was, hk, seqs, now, ch);
      if |seqs| == 0 {
        return;
      }
      RequestStep(cfg, was, hk, seqs, now, ch);
      var fs := Locate(hk, now);
      if fs == null {
        books := books[hk := T.BooksOf(was, hk)];
        return;
      }
      FlowIs(flows, own, hk);
      OwnGaps(flows, own, hk);
      var copies;
      ghost var b;
      copies, b := RequestAt(hk, fs, seqs, now, ch, T.BooksOf(was, hk));
      UpdateTwice(was.flows, hk, Entry(was, hk, now), fs.View());
      q := Enqueue(copies, ch);
    }

    method RequestAt(hk: U64, fs: FlowObject, seqs: seq<U64>, now: Time, ch: F.Choices, ghost b: F.Books)
      returns (q: seq<F.Gap>, ghost r: F.Books)
      requires Valid() && hk in flows && flows[hk] == fs
      modifies this`books, this`own, fs, fs.pending.Values
      ensures Valid() && fresh(own - old(own)) && F.Track(fs.View(), r) == 
              F.RegisterList(cfg.flow, F.Track(old(fs.View()), b), seqs, |seqs|, now, ch)
      ensures Flows() == old(Flows())[hk := fs.View()] && books == old(books)[hk := r]
      ensures q == F.RequestCopies(cfg.flow, F.Track(old(fs.View()), b), seqs, |seqs|, now, ch)
    {
      hide FlowsOf, Separate, FlowObject.Valid, FlowObject.View, F.RegisterList, F.RequestCopies;
      SetAside(flows, own, hk);
      ghost var rest, apart := flows - {hk}, own - fs.pending.Values;
      q, r := fs.RegisterList(cfg.flow, seqs, now, ch, b);
      books := books[hk := r];
      own := own + fs.pending.Values;
      assert rest[hk := fs] == flows;
      PutBack(rest, apart, own, hk, fs);
      UpdateTwice(FlowsOf(rest, apart), hk, old(fs.View()), fs.View());
    }

    /** Fill. */
    method Fill(hk: U64, seqNum: U64)
      requires Valid()
      modifies this`books, this`own, flows.Values, own
      ensures Valid() && fresh(own - old(own)) && Abs() == T.Step(cfg, old(Abs()), T.Fill(hk, seqNum))
    {
      hide F.Fill, FlowsOf, T.Step, T.BooksOf, Separate;
      ghost var was := Abs();
      FillStep(cfg, was, hk, seqNum);
      FlowIs(flows, own, hk);
      ghost var b := T.BooksOf(was, hk);
      if hk in flows {
        OwnGaps(flows, own, hk);
        b := FillAt(hk, flows[hk], seqNum, b);
      } else {
        books := books[hk := b];
      }
    }

    method FillAt(hk: U64, fs: FlowObject, seqNum: U64, ghost b: F.Books) returns (ghost r: F.Books)
      requires Valid() && hk in flows && flows[hk] == fs
      modifies this`books, this`own, fs, fs.pending.Values
      ensures Valid() && fresh(own - old(own)) && F.Track(fs.View(), r) == F.Fill(F.Track(old(fs.View()), b), seqNum)
      ensures Flows() == old(Flows())[hk := fs.View()] && books == old(books)[hk := r]
    {
      hide FlowsOf, Separate, FlowObject.Valid, FlowObject.View, F.Fill;
      SetAside(flows, own, hk);
      ghost var rest, apart := flows - {hk}, own - fs.pending.Values;
      r := fs.Fill(seqNum, b);
      books := books[hk := r];
      own := own + fs.pending.Values;
      assert rest[hk := fs] == flows;
      PutBack(rest, apart, own, hk, fs);
      UpdateTwice(FlowsOf(rest, apart), hk, old(fs.View()), fs.View());
    }

    /** The locked effect of a dispatched copy's outcome. */
    method Answer(hk: U64, copy: F.Gap, resp: F.Response, now: Time, share: nat)
      requires Valid()
      modifies this`books, this`own, flows.Values, own
      ensures Valid() && fresh(own - old(own))
      ensures Abs() == T.Step(cfg, old(Abs()), T.Answer(hk, copy, resp, now, share))
    {
      hide F.Respond, FlowsOf, T.Step, T.BooksOf, Separate;
      ghost var was := Abs();
      AnswerStep(cfg, was, hk, copy, resp, now, share);
      FlowIs(flows, own, hk);
      ghost var b := T.BooksOf(was, hk);
      if hk in flows {
        OwnGaps(flows, own, hk);
        b := AnswerAt(hk, flows[hk], copy, resp, now, share, b);
      } else {
        books := books[hk := b];
      }
    }

    method AnswerAt(hk: U64, fs: FlowObject, copy: F.Gap, resp: F.Response, now: Time, share: nat,
                    ghost b: F.Books) returns (ghost r: F.Books)
      requires Valid() && hk in flows && flows[hk] == fs
      modifies this`books, this`own, fs, fs.pending.Values
      ensures Valid() && fresh(own - old(own)) && F.Track(fs.View(), r) == 
              F.Respond(cfg.flow, F.Track(old(fs.View()), b), copy, resp, now, share)
      ensures Flows() == old(Flows())[hk := fs.View()] && books == old(books)[hk := r]
    {
      hide FlowsOf, Separate, FlowObject.Valid, FlowObject.View, F.Respond;
      SetAside(flows, own, hk);
      ghost var rest, apart := flows - {hk}, own - fs.pending.Values;
      r := fs.Respond(cfg.flow, copy, resp, now, share, b);
      books := books[hk := r];
      own := own + fs.pending.Values;
      assert rest[hk := fs] == flows;
      PutBack(rest, apart, own, hk, fs);
      UpdateTwice(FlowsOf(rest, apart), hk, old(fs.View()), fs.View());
    }

    /**
     sweepOnce: every flow gets its share of the sweep, in whatever order the table is walked, and is
     forgotten when it has nothing pending and has been silent too long.
     */
    method Sweep(now: Time, chs: U64 -> F.Choices) returns (q: seq<F.Gap>, ghost order: seq<U64>)
      requires Valid()
      modifies this`flows, this`books, this`own, flows.Values, own
      ensures Valid() && fresh(own - old(own)) && Abs() == T.Step(cfg, old(Abs()), T.Sweep(now, chs))
      ensures Lists(order, old(Abs()).flows.Keys)
      ensures q == T.SweepQueue(cfg, old(Abs()), now, chs, order)
    {
      hide FlowsOf, T.Step, T.After, T.PutCell, T.CellOf, T.CellQueues, T.SweepQueue, Swept, Separate, F.Step, Lists;
      ghost var op := T.Sweep(now, chs);
      ghost var was := Abs();
      FlowIs(flows, own, 0);
      SweptNone(cfg, was, op);
      NoQueue(cfg, was, now, chs, was.flows.Keys);
      var todo := flows.Keys;
      q, order := [], [];
      while todo != {}
        invariant Valid() && todo <= flows.Keys && flows.Values <= old(flows.Values) && todo <= was.flows.Keys
        invariant fresh(own - old(own)) && Abs() == Swept(cfg, was, op, was.flows.Keys - todo)
        invariant Lists(order, was.flows.Keys - todo)
        invariant q == T.SweepQueue(cfg, was, now, chs, order)
        decreases todo
      {
        var hk :| hk in todo;
        TurnTaken(cfg, was, op, todo, hk, order);
        var one := SweepTurn(hk, now, chs(hk));
        q, order := q + one, order + [hk];
        todo := todo - {hk};
      }
      SweptAll(cfg, was, op);
    }

    method SweepTurn(hk: U64, now: Time, ch: F.Choices) returns (q: seq<F.Gap>)
      requires Valid() && hk in flows
      modifies this`flows, this`books, this`own, flows.Values, own
      ensures Valid() && fresh(own - old(own))
      ensures flows.Values <= old(flows.Values) && old(flows.Keys) - {hk} <= flows.Keys
      ensures Abs() == T.PutCell(old(Abs()), hk, F.Step(cfg.flow, T.CellOf(old(Abs()), hk), F.Sweep(now, ch)))
      ensures q == T.CellQueues(cfg, T.CellOf(old(Abs()), hk), now, ch)
    {
      hide FlowsOf, T.PutCell, Separate, F.Step, F.SweepQueues, FlowObject.View;
      OwnGaps(flows, own, hk);
      FlowIs(flows, own, hk);
      q := SweepAt(hk, flows[hk], now, ch);
    }

    /** One flow's turn, with the copies it queues. */
    method SweepAt(hk: U64, fs: FlowObject, now: Time, ch: F.Choices) returns (q: seq<F.Gap>)
      requires Valid() && hk in flows && flows[hk] == fs
      modifies this`flows, this`books, this`own, fs, fs.pending.Values
      ensures Valid() && fresh(own - old(own))
      ensures flows.Values <= old(flows.Values) && old(flows.Keys) - {hk} <= flows.Keys
      ensures Abs() == T.PutCell(old(Abs()), hk, F.Step(cfg.flow, T.CellOf(old(Abs()), hk), F.Sweep(now, ch)))
      ensures q == F.SweepQueues(cfg.flow, F.Track(old(fs.View()), T.BooksOf(old(Abs()), hk)), now, ch)
    {
      hide F.SweepFlow, F.SweepQueues, FlowsOf, T.PutCell, T.CellOf, F.Step, F.Idle, T.BooksOf, Separate;
      hide FlowObject.View, FlowObject.Valid;
      ghost var was := Abs();
      FlowIs(flows, own, hk);
      SweepStep(cfg, was, hk, now, ch);
      var drop;
      ghost var b;
      drop, q, b := SweepOneAt(hk, fs, now, ch, T.BooksOf(was, hk));
      ghost var v := fs.View();
      assert Abs() == Filed(was, hk, F.Track(v, b));
      if drop {
        Forget(hk);
        UnfiledFlow(was.flows, hk, v);
        assert Abs() == was.(flows := was.flows - {hk}, books := was.books[hk := b]);
      }
    }

    method Forget(hk: U64)
      requires Valid() && hk in flows
      modifies this`flows
      ensures Valid() && flows == old(flows) - {hk} && flows.Values <= old(flows.Values)
      ensures Flows() == old(Flows()) - {hk}
    {
      hide FlowsOf, FlowObject.View, FlowObject.Valid;
      SetAside(flows, own, hk);
      Wider(flows - {hk}, own - flows[hk].pending.Values, own);
      flows := flows - {hk};
    }

    method SweepOneAt(hk: U64, fs: FlowObject, now: Time, ch: F.Choices, ghost b: F.Books)
      returns (drop: bool, q: seq<F.Gap>, ghost r: F.Books)
      requires Valid() && hk in flows && flows[hk] == fs
      modifies this`books, this`own, fs, fs.pending.Values
      ensures Valid() && fresh(own - old(own)) && F.Track(fs.View(), r) == 
              F.SweepFlow(cfg.flow, F.Track(old(fs.View()), b), now, ch)
      ensures Flows() == old(Flows())[hk := fs.View()] && books == old(books)[hk := r]
      ensures q == F.SweepQueues(cfg.flow, F.Track(old(fs.View()), b), now, ch)
      ensures drop == F.Idle(cfg.flow, fs.View(), now)
    {
      hide FlowsOf, Separate, FlowObject.Valid, FlowObject.View, F.SweepFlow, F.SweepQueues, F.Idle;
      SetAside(flows, own, hk);
      ghost var rest, apart := flows - {hk}, own - fs.pending.Values;
      drop, q, r := fs.Sweep(cfg.flow, now, ch, b);
      books := books[hk := r];
      own := own + fs.pending.Values;
      assert rest[hk := fs] == flows;
      PutBack(rest, apart, own, hk, fs);
      UpdateTwice(FlowsOf(rest, apart), hk, old(fs.View()), fs.View());
    }
  }

  lemma OwnGaps(m: map<U64, FlowObject>, own: set<GapObject>, hk: U64)
    requires Separate(m, own) && hk in m
    ensures m[hk].pending.Values <= own && m[hk] in m.Values
  {
  }

  lemma Wider(m: map<U64, FlowObject>, apart: set<GapObject>, own: set<GapObject>)
    requires Separate(m, apart) && apart <= own
    ensures Separate(m, own) && FlowsOf(m, own) == FlowsOf(m, apart)
  {
    hide FlowObject.View, FlowObject.Valid;
  }

  lemma UnfiledFlow(m: map<U64, F.FlowState>, hk: U64, v: F.FlowState)
    ensures m[hk := v] - {hk} == m - {hk}
  {
  }

  /** Queue the copies one by one until the queue refuses one. */
  method Enqueue(copies: seq<F.Gap>, ch: F.Choices) returns (q: seq<F.Gap>)
    ensures q == F.Accepted(copies, ch)
  {
    q := [];
    for i := 0 to |copies|
      invariant q == copies[..i] && F.Accepted(copies, ch) == q + F.Accepted(copies[i..], ch)
    {
      if !ch.room(copies[i].seqNum) {
        return;
      }
      assert copies[i..][1..] == copies[i + 1..];
      q := q + [copies[i]];
    }
  }

  /** The copies a request gets onto the queue: none if it is refused. */
  ghost function RequestQueue(cfg: T.Config, st: T.State, hk: U64, seqs: seq<U64>, now: Time, ch: F.Choices): seq<F.Gap> {
    if T.Admits(cfg, st, hk) then
      F.Accepted(F.RequestCopies(cfg.flow, F.Track(Entry(st, hk, now), T.BooksOf(st, hk)), seqs, |seqs|, now, ch), ch)
    else []
  }

  lemma NothingQueued(cfg: T.Config, st: T.State, hk: U64, seqs: seq<U64>, now: Time, ch: F.Choices)
    ensures seqs == [] ==> RequestQueue(cfg, st, hk, seqs, now, ch) == []
  {
  }

  /** The tracker when the flows in part have had their turn in the sweep. */
  ghost function Swept(cfg: T.Config, st: T.State, op: T.Op, part: set<U64>): T.State {
    st.(flows := map hk | hk in st.flows && (hk in part ==> T.After(cfg, st, op, hk).flow.Some?)
                   :: if hk in part then T.After(cfg, st, op, hk).flow.value else st.flows[hk],
        books := st.books + map hk | hk in st.flows && hk in part :: T.After(cfg, st, op, hk).books)
  }

  lemma SweptNone(cfg: T.Config, st: T.State, op: T.Op)
    ensures Swept(cfg, st, op, st.flows.Keys - st.flows.Keys) == st
  {
    hide T.After;
    assert st.flows.Keys - st.flows.Keys == {};
    assert (map hk | hk in st.flows && hk in {} :: T.After(cfg, st, op, hk).books) == map[];
  }

  lemma SweptNext(cfg: T.Config, st: T.State, op: T.Op, part: set<U64>, hk: U64)
    requires op.Sweep? && hk in st.flows && hk !in part
    ensures var mid := Swept(cfg, st, op, part);
            && T.CellOf(mid, hk) == T.CellOf(st, hk)
            && T.PutCell(mid, hk, F.Step(cfg.flow, T.CellOf(mid, hk), F.Sweep(op.now, op.chs(hk)))) ==
               Swept(cfg, st, op, part + {hk})
  {
    hide F.Step;
    var mid := Swept(cfg, st, op, part);
    var end := Swept(cfg, st, op, part + {hk});
    var c := T.After(cfg, st, op, hk);
    assert T.CellOf(mid, hk) == T.CellOf(st, hk);
    assert T.PutCell(mid, hk, c).flows == end.flows;
    assert T.PutCell(mid, hk, c).books == end.books;
  }

  /** The order lists each key of the set once. */
  ghost predicate Lists(order: seq<U64>, part: set<U64>) {
    NoDup(order) && forall k :: k in order <==> k in part
  }

  lemma NoQueue(cfg: T.Config, st: T.State, now: Time, chs: U64 -> F.Choices, all: set<U64>)
    ensures Lists([], all - all) && T.SweepQueue(cfg, st, now, chs, []) == []
  {
  }

  lemma QueueGrows(cfg: T.Config, st: T.State, now: Time, chs: U64 -> F.Choices, order: seq<U64>, part: set<U64>, hk: U64)
    requires Lists(order, part) && hk !in part
    ensures T.SweepQueue(cfg, st, now, chs, order + [hk]) ==
            T.SweepQueue(cfg, st, now, chs, order) + T.CellQueues(cfg, T.CellOf(st, hk), now, chs(hk))
    ensures Lists(order + [hk], part + {hk})
  {
    hide T.CellQueues, T.CellOf;
    assert (order + [hk])[..|order|] == order;
  }

  /** What one more turn makes of the table, the queue and the walk. */
  lemma TurnTaken(cfg: T.Config, st: T.State, op: T.Op, todo: set<U64>, hk: U64, order: seq<U64>)
    requires op.Sweep? && todo <= st.flows.Keys && hk in todo && Lists(order, st.flows.Keys - todo)
    ensures var mid := Swept(cfg, st, op, st.flows.Keys - todo);
            && T.PutCell(mid, hk, F.Step(cfg.flow, T.CellOf(mid, hk), F.Sweep(op.now, op.chs(hk)))) ==
               Swept(cfg, st, op, st.flows.Keys - (todo - {hk}))
            && T.SweepQueue(cfg, st, op.now, op.chs, order + [hk]) ==
               T.SweepQueue(cfg, st, op.now, op.chs, order) + T.CellQueues(cfg, T.CellOf(mid, hk), op.now, op.chs(hk))
            && Lists(order + [hk], st.flows.Keys - (todo - {hk}))
  {
    hide F.Step, Swept, T.PutCell, T.CellOf, T.CellQueues, Lists, T.SweepQueue;
    SweptNext(cfg, st, op, st.flows.Keys - todo, hk);
    QueueGrows(cfg, st, op.now, op.chs, order, st.flows.Keys - todo, hk);
    assert st.flows.Keys - todo + {hk} == st.flows.Keys - (todo - {hk});
  }

  lemma SweptAll(cfg: T.Config, st: T.State, op: T.Op)
    requires op.Sweep?
    ensures st.flows.Keys - {} == st.flows.Keys
    ensures Swept(cfg, st, op, st.flows.Keys - {}) == T.Step(cfg, st, op)
  {
    hide T.After;
    assert st.flows.Keys - {} == st.flows.Keys;
    var a, b := Swept(cfg, st, op, st.flows.Keys), T.Step(cfg, st, op);
    assert a.flows == b.flows && a.books == b.books;
  }

  // ----- the steps of module Tracker, spelled out -----

  /** The flow a step starts from: the one on file, or a new one. */
  ghost function Entry(st: T.State, hk: U64, now: Time): F.FlowState {
    if hk in st.flows then st.flows[hk] else F.NewFlow(now)
  }

  ghost function Filed(st: T.State, hk: U64, t: F.Track): T.State {
    st.(flows := st.flows[hk := t.flow], books := st.books[hk := t.books])
  }

  lemma NothingToDo(cfg: T.Config, st: T.State, op: T.Op)
    ensures (op.ObserveFrom? && op.seqNum == 0) || (op.RequestGaps? && op.seqs == []) ==> T.Step(cfg, st, op) == st
  {
  }

  lemma ObserveStep(cfg: T.Config, st: T.State, hk: U64, seqNum: U64, live: bool, now: Time, ch: F.Choices)
    requires seqNum != 0
    ensures T.Step(cfg, st, T.ObserveFrom(hk, seqNum, live, now, ch)) ==
            if T.Admits(cfg, st, hk) then
              Filed(st, hk,
                    F.ObserveFrame(cfg.flow, F.Track(Entry(st, hk, now), T.BooksOf(st, hk)), seqNum, live, now, ch))
            else st.(books := st.books[hk := T.BooksOf(st, hk)], refused := st.refused + 1)
  {
    hide F.ObserveFrame;
    assert hk !in st.flows ==> st.flows - {hk} == st.flows;
  }

  lemma RequestStep(cfg: T.Config, st: T.State, hk: U64, seqs: seq<U64>, now: Time, ch: F.Choices)
    requires seqs != []
    ensures T.Step(cfg, st, T.RequestGaps(hk, seqs, now, ch)) ==
            if T.Admits(cfg, st, hk) then
              Filed(st, hk,
                    F.RegisterList(cfg.flow, F.Track(Entry(st, hk, now), T.BooksOf(st, hk)), seqs, |seqs|, now, ch))
            else st.(books := st.books[hk := T.BooksOf(st, hk)])
  {
    hide F.RegisterList;
    assert hk !in st.flows ==> st.flows - {hk} == st.flows;
  }

  lemma SweepStep(cfg: T.Config, st: T.State, hk: U64, now: Time, ch: F.Choices)
    requires hk in st.flows
    ensures var t := F.SweepFlow(cfg.flow, F.Track(st.flows[hk], T.BooksOf(st, hk)), now, ch);
            T.PutCell(st, hk, F.Step(cfg.flow, T.CellOf(st, hk), F.Sweep(now, ch))) ==
            if F.Idle(cfg.flow, t.flow, now) then st.(flows := st.flows - {hk}, books := st.books[hk := t.books])
            else Filed(st, hk, t)
  {
    hide F.SweepFlow, F.Idle;
  }

  lemma FillStep(cfg: T.Config, st: T.State, hk: U64, seqNum: U64)
    ensures T.Step(cfg, st, T.Fill(hk, seqNum)) ==
            if hk in st.flows then Filed(st, hk, F.Fill(F.Track(st.flows[hk], T.BooksOf(st, hk)), seqNum))
            else st.(books := st.books[hk := T.BooksOf(st, hk)])
  {
    hide F.Fill;
    assert hk !in st.flows ==> st.flows - {hk} == st.flows;
  }

  lemma AnswerStep(cfg: T.Config, st: T.State, hk: U64, copy: F.Gap, resp: F.Response, now: Time, share: nat)
    ensures T.Step(cfg, st, T.Answer(hk, copy, resp, now, share)) ==
            if hk in st.flows then
              Filed(st, hk, F.Respond(cfg.flow, F.Track(st.flows[hk], T.BooksOf(st, hk)), copy, resp, now, share))
            else st.(books := st.books[hk := T.BooksOf(st, hk)])
  {
    hide F.Respond;
    assert hk !in st.flows ==> st.flows - {hk} == st.flows;
  }
}
