/**
 The gap tracker: a table of flows under one lock. Each of its steps acts on every flow as a step
 of that flow's own machine, so what is proved of one flow holds of each flow of a tracker.
 */
module Tracker {
  import opened Base
  import F = Flow
  import L = FlowLedger
  import P = FlowProbes

  datatype Config = Config(flow: F.Config, maxFlows: int)

  datatype State = State(flows: map<U64, F.FlowState>, books: map<U64, F.Books>, refused: nat)

  function Empty(): State {
    State(map[], map[], 0)
  }

  function BooksOf(st: State, hk: U64): F.Books {
    if hk in st.books then st.books[hk] else F.NewBooks()
  }

  function CellOf(st: State, hk: U64): F.Cell {
    F.Cell(if hk in st.flows then Some(st.flows[hk]) else None, BooksOf(st, hk))
  }

  function PutCell(st: State, hk: U64, c: F.Cell): State {
    st.(flows := if c.flow.Some? then st.flows[hk := c.flow.value] else st.flows - {hk},
        books := st.books[hk := c.books])
  }

  /** A flow already known keeps its place; a new one needs room under the cap. */
  predicate Admits(cfg: Config, st: State, hk: U64) {
    hk in st.flows || cfg.maxFlows <= 0 || |st.flows| < cfg.maxFlows
  }

  /** Pending: is any of seqs a pending gap of the flow. */
  predicate Pending(st: State, hk: U64, seqs: seq<U64>) {
    hk in st.flows && exists i :: 0 <= i < |seqs| && seqs[i] in st.flows[hk].pending
  }

  datatype Op =
    | ObserveFrom(hk: U64, seqNum: U64, live: bool, now: Time, ch: F.Choices)
    | RequestGaps(hk: U64, seqs: seq<U64>, now: Time, ch: F.Choices)
    | Fill(hk: U64, seqNum: U64)
    | Sweep(now: Time, chs: U64 -> F.Choices)
    | Answer(hk: U64, copy: F.Gap, resp: F.Response, now: Time, share: nat)

  /** Whether the tracker's step reaches flow hk at all. */
  predicate Touches(op: Op, hk: U64) {
    if op.Sweep? then true else op.hk == hk
  }

  /** The step as flow hk sees it. */
  function OpAt(cfg: Config, st: State, op: Op, hk: U64): F.Op {
    match op
    case ObserveFrom(_, seqNum, live, now, ch) => F.Observe(seqNum, live, now, Admits(cfg, st, hk), ch)
    case RequestGaps(_, seqs, now, ch) => F.Request(seqs, now, Admits(cfg, st, hk), ch)
    case Fill(_, seqNum) => F.FillFrame(seqNum)
    case Sweep(now, chs) => F.Sweep(now, chs(hk))
    case Answer(_, copy, resp, now, share) => F.Answer(copy, resp, now, share)
  }

  /** The copies a flow's share of a sweep puts on the dispatch queue. */
  function CellQueues(cfg: Config, c: F.Cell, now: Time, ch: F.Choices): seq<F.Gap> {
    if c.flow.Some? then F.SweepQueues(cfg.flow, F.Track(c.flow.value, c.books), now, ch) else []
  }

  /** The copies a sweep of the whole table queues, flow by flow in the order the table is walked. */
  function SweepQueue(cfg: Config, st: State, now: Time, chs: U64 -> F.Choices, order: seq<U64>): seq<F.Gap> {
    if order == [] then []
    else
      var hk := order[|order| - 1];
      SweepQueue(cfg, st, now, chs, order[..|order| - 1]) + CellQueues(cfg, CellOf(st, hk), now, chs(hk))
  }

  ghost function After(cfg: Config, st: State, op: Op, hk: U64): F.Cell {
    if Touches(op, hk) then F.Step(cfg.flow, CellOf(st, hk), OpAt(cfg, st, op, hk)) else CellOf(st, hk)
  }

  ghost function SweepAll(cfg: Config, st: State, op: Op): State
    requires op.Sweep?
  {
    st.(flows := map hk | hk in st.flows && After(cfg, st, op, hk).flow.Some? :: After(cfg, st, op, hk).flow.value,
        books := st.books + map hk | hk in st.flows :: After(cfg, st, op, hk).books)
  }

  /** One locked section of the tracker. */
  ghost function Step(cfg: Config, st: State, op: Op): State {
    if op.Sweep? then SweepAll(cfg, st, op)
    else if (op.ObserveFrom? && op.seqNum == 0) || (op.RequestGaps? && op.seqs == []) then st
    else
      var r := PutCell(st, op.hk, After(cfg, st, op, op.hk));
      if op.ObserveFrom? && op.seqNum != 0 && !Admits(cfg, st, op.hk) then r.(refused := r.refused + 1) else r
  }

  ghost function Run(cfg: Config, st: State, ops: seq<Op>): State {
    if ops == [] then st else Step(cfg, Run(cfg, st, ops[..|ops| - 1]), ops[|ops| - 1])
  }

  lemma SweepAtFlow(cfg: Config, st: State, op: Op, hk: U64)
    requires op.Sweep?
    ensures CellOf(SweepAll(cfg, st, op), hk) == After(cfg, st, op, hk)
  {
    hide F.SweepFlow;
    assert hk !in st.flows ==> After(cfg, st, op, hk) == CellOf(st, hk);
  }

  /** A step that does not reach a flow, or carries nothing, leaves it where it was. */
  lemma Unmoved(cfg: Config, st: State, op: Op, hk: U64)
    requires !op.Sweep?
    ensures op.hk != hk || (op.ObserveFrom? && op.seqNum == 0) || (op.RequestGaps? && op.seqs == []) ==>
              After(cfg, st, op, hk) == CellOf(st, hk)
  {
    hide F.ObserveFrame, F.RegisterList, F.Respond, F.Fill;
  }

  /** Every flow moves as its own machine does, or not at all. */
  lemma StepAtFlow(cfg: Config, st: State, op: Op, hk: U64)
    ensures CellOf(Step(cfg, st, op), hk) == After(cfg, st, op, hk)
  {
    hide F.ObserveFrame, F.RegisterList, F.SweepFlow, F.Respond, F.Fill, After, OpAt, Admits;
    if op.Sweep? {
      SweepAtFlow(cfg, st, op, hk);
    } else {
      Unmoved(cfg, st, op, hk);
    }
  }

  /** The steps of a tracker run that reach flow hk, as that flow sees them. */
  ghost function Projection(cfg: Config, st: State, ops: seq<Op>, hk: U64): seq<F.Op> {
    if ops == [] then []
    else
      var front, op := ops[..|ops| - 1], ops[|ops| - 1];
      Projection(cfg, st, front, hk) +
      (if Touches(op, hk) then [OpAt(cfg, Run(cfg, st, front), op, hk)] else [])
  }

  /**
   A tracker run is, for each flow, a run of that flow's machine: every theorem about runs of one
   flow is a theorem about each flow of the tracker.
   */
  lemma {:induction false} RunAtFlow(cfg: Config, st: State, ops: seq<Op>, hk: U64)
    ensures CellOf(Run(cfg, st, ops), hk) ==
            F.Run(cfg.flow, CellOf(st, hk), Projection(cfg, st, ops, hk))
  {
    hide F.Step, Step, CellOf, OpAt;
    if ops != [] {
      var front, op := ops[..|ops| - 1], ops[|ops| - 1];
      RunAtFlow(cfg, st, front, hk);
      StepAtFlow(cfg, Run(cfg, st, front), op, hk);
      var p := Projection(cfg, st, front, hk);
      var q := Projection(cfg, st, ops, hk);
      if Touches(op, hk) {
        assert q[..|q| - 1] == p;
      } else {
        assert q == p;
      }
    }
  }

  /** The flow table never outgrows its cap. */
  lemma StepWithinCap(cfg: Config, st: State, op: Op)
    requires cfg.maxFlows > 0 && |st.flows| <= cfg.maxFlows
    ensures |Step(cfg, st, op).flows| <= cfg.maxFlows
  {
    hide F.ObserveFrame, F.RegisterList, F.SweepFlow, F.Respond, F.Fill;
    var r := Step(cfg, st, op);
    if op.Sweep? {
      assert r.flows.Keys <= st.flows.Keys;
      SubsetSize(r.flows.Keys, st.flows.Keys);
    } else {
      assert r.flows.Keys <= st.flows.Keys + {op.hk};
      if Admits(cfg, st, op.hk) {
        SubsetSize(r.flows.Keys, st.flows.Keys + {op.hk});
      } else {
        assert r.flows.Keys <= st.flows.Keys;
        SubsetSize(r.flows.Keys, st.flows.Keys);
      }
    }
  }

  lemma {:induction false} RunWithinCap(cfg: Config, ops: seq<Op>)
    requires cfg.maxFlows > 0
    ensures |Run(cfg, Empty(), ops).flows| <= cfg.maxFlows
  {
    hide Step;
    if ops != [] {
      RunWithinCap(cfg, ops[..|ops| - 1]);
      StepWithinCap(cfg, Run(cfg, Empty(), ops[..|ops| - 1]), ops[|ops| - 1]);
    }
  }

  /**
   A frame is counted refused exactly when it is stamped, its flow is not known and the table is at its cap;
   a refused frame changes no flow. Every other stamped frame leaves its flow in the table.
   */
  lemma RefusedExactlyWhen(cfg: Config, st: State, op: Op)
    ensures var r := Step(cfg, st, op);
            var full := op.ObserveFrom? && op.seqNum != 0 && op.hk !in st.flows && 0 < cfg.maxFlows <= |st.flows|;
            && r.refused == st.refused + (if full then 1 else 0)
            && (full ==> r.flows == st.flows && forall hk :: BooksOf(r, hk) == BooksOf(st, hk))
            && (op.ObserveFrom? && op.seqNum != 0 && !full ==> op.hk in r.flows)
  {
    hide F.ObserveFrame, F.RegisterList, F.SweepFlow, F.Respond, F.Fill;
    if !op.Sweep? && op.hk !in st.flows {
      assert st.flows - {op.hk} == st.flows;
    }
  }

  /** The loss ledger and the single probe hold of every flow in every run of a tracker. */
  lemma EveryFlowKeepsBooks(cfg: Config, ops: seq<Op>, hk: U64)
    ensures var c := CellOf(Run(cfg, Empty(), ops), hk);
            && c.books.suppressed + L.RealPending(c) <= c.books.detected
            && c.books.lateFilled + L.StillRemembered(c) <= c.books.unrecovered
            && P.CellOneProbe(c)
  {
    hide Run, Projection, F.Run;
    RunAtFlow(cfg, Empty(), ops, hk);
    L.LossLedger(cfg.flow, Projection(cfg, Empty(), ops, hk));
    P.RunOneProbe(cfg.flow, L.Unseen(), Projection(cfg, Empty(), ops, hk));
  }
}
