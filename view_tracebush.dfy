/** The bush view (view/tracebush.py): a bush as a control-flow graph, written
    as the node and edge statements handed to a Graphviz digraph, or as text in
    the dump's own format. */
module ViewTraceBush {
  import opened Outcomes
  import opened Text
  import opened Sorting
  import opened Traces
  import opened TraceBushes
  import opened Seqs

  const MarkedTraceColor := "crimson"

  /** A keyword argument of `graph.node` or `graph.edge`, in call order. */
  datatype Attr = Attr(name: string, value: string)

  /** One statement of the digraph's body. */
  datatype Stmt =
    | Node(name: string, attrs: seq<Attr>)
    | Edge(from: string, to: string, attrs: seq<Attr>)

  /** `graphviz.Digraph`: the statements emitted so far, in order. */
  class Digraph {
    var body: seq<Stmt>

    constructor()
      ensures body == []
    {
      body := [];
    }

    /** `graph.node(name, **attrs)`. */
    method AddNode(name: string, attrs: seq<Attr>)
      modifies this
      ensures body == old(body) + [Node(name, attrs)]
    {
      body := body + [Node(name, attrs)];
    }

    /** `graph.edge(from, to, **attrs)`. */
    method AddEdge(from: string, to: string, attrs: seq<Attr>)
      modifies this
      ensures body == old(body) + [Edge(from, to, attrs)]
    {
      body := body + [Edge(from, to, attrs)];
    }
  }

  const BoldAttrs := [Attr("style", "bold")]
  const BoxAttrs := [Attr("style", "bold"), Attr("shape", "box")]
  const MarkAttrs := [Attr("color", MarkedTraceColor)]
  const MarkedExitAttrs := [Attr("style", "bold"), Attr("color", MarkedTraceColor)]

  /** The attributes of an implicit control-flow edge. */
  function FlowAttrs(isRoot: bool): seq<Attr> {
    if isRoot then [Attr("color", MarkedTraceColor), Attr("penwidth", "1.5")]
    else [Attr("style", "dashed")]
  }

  function StartNode(id: nat): string { "START " + NatToString(id) }

  function ExitNode(id: nat, exit: nat): string { NatToString(id) + "/" + NatToString(exit) }

  /** What the exit node says about where the trace goes when it ends. */
  function EndLabel(linkType: string): string {
    if linkType == "interpreter" then "enforce VM"
    else if linkType == "return" then "return to VM"
    else if linkType == "loop" then "loop"
    else if IsNumeral(linkType) then "goto " + linkType
    else linkType
  }

  function EndNode(t: TraceRec): string { "END " + NatToString(t.id) + " " + EndLabel(t.linkType) }

  /** The node a bold back edge from the exit node points at, if any. */
  function BackTarget(t: TraceRec, rootId: nat): Option<string> {
    if t.linkType == "loop" then Some(StartNode(t.id))
    else if IsNumeral(t.linkType) && DigitsValue(t.linkType) == rootId then Some(StartNode(rootId))
    else None
  }

  /** `sorted(trace.side_exits.keys())`. */
  function SortedExits(t: TraceRec): seq<nat> {
    NatLeTotal();
    SortSet(t.sideExits.Keys, NatLe)
  }

  /** `_add_boundary_node`. */
  function Boundary(node: string, isRoot: bool): seq<Stmt> {
    [Node(node, BoxAttrs)] + (if isRoot then [Node(node, MarkAttrs)] else [])
  }

  /** `_add_implicit_cf_edge`. */
  function Flow(a: string, b: string, isRoot: bool): Stmt { Edge(a, b, FlowAttrs(isRoot)) }

  /** The statements of one turn of `_add_trace_body`'s loop. */
  function ExitStep(id: nat, prev: string, exit: nat, isRoot: bool): seq<Stmt> {
    [Flow(prev, ExitNode(id, exit), isRoot)]
    + (if isRoot then [Node(ExitNode(id, exit), MarkedExitAttrs)] else [])
  }

  /** `node_prev` after the loop has gone through `exits`. */
  function ChainEnd(id: nat, exits: seq<nat>, start: string): string {
    if exits == [] then start else ExitNode(id, exits[|exits| - 1])
  }

  /** The statements `_add_trace_body`'s loop emits for `exits`. */
  function Chain(id: nat, exits: seq<nat>, start: string, isRoot: bool): seq<Stmt> {
    if exits == [] then []
    else
      var init := exits[..|exits| - 1];
      Chain(id, init, start, isRoot) + ExitStep(id, ChainEnd(id, init, start), exits[|exits| - 1], isRoot)
  }

  /** What `_add_to_graph` emits for one trace of the bush rooted at `rootId`,
      when the trace's side exits, sorted, are `exits`. */
  function GraphWith(t: TraceRec, rootId: nat, exits: seq<nat>): seq<Stmt> {
    var start := StartNode(t.id);
    Boundary(start, IsRoot(t))
    + ParentLink(t)
    + Chain(t.id, exits, start, IsRoot(t))
    + Boundary(EndNode(t), IsRoot(t))
    + [Flow(ChainEnd(t.id, exits, start), EndNode(t), IsRoot(t))]
    + BackLink(t, rootId)
  }

  /** What `_add_to_graph` emits for one trace of the bush rooted at `rootId`. */
  function TraceGraph(t: TraceRec, rootId: nat): seq<Stmt> {
    GraphWith(t, rootId, SortedExits(t))
  }

  /** What `_render_png` adds to the graph for the traces of a bush. */
  function BushGraph(ts: seq<TraceRec>, rootId: nat): seq<Stmt> {
    if ts == [] then [] else BushGraph(ts[..|ts| - 1], rootId) + TraceGraph(ts[|ts| - 1], rootId)
  }

  lemma BushGraphSnoc(ts: seq<TraceRec>, i: nat, rootId: nat)
    requires i < |ts|
    ensures BushGraph(ts[..i + 1], rootId) == BushGraph(ts[..i], rootId) + TraceGraph(ts[i], rootId)
  {
    assert ts[..i + 1][..i] == ts[..i];
  }

  // ---------------------------------------------------------------------------
  // Emission, as the source performs it

  method AddBoundaryNode(g: Digraph, node: string, isRoot: bool)
    modifies g
    ensures g.body == old(g.body) + Boundary(node, isRoot)
  {
    g.AddNode(node, BoxAttrs);
    if isRoot {
      g.AddNode(node, MarkAttrs);
    }
  }

  method AddImplicitEdge(g: Digraph, a: string, b: string, isRoot: bool)
    modifies g
    ensures g.body == old(g.body) + [Flow(a, b, isRoot)]
  {
    if isRoot {
      g.AddEdge(a, b, [Attr("color", MarkedTraceColor), Attr("penwidth", "1.5")]);
    } else {
      g.AddEdge(a, b, [Attr("style", "dashed")]);
    }
  }

  /** One turn of `_add_trace_body`'s loop: the edge to the side exit's node,
      and for a root trace the node itself; the exit's node comes next. */
  method AddExit(g: Digraph, id: nat, prev: string, exit: nat, isRoot: bool) returns (side: string)
    modifies g
    ensures g.body == old(g.body) + ExitStep(id, prev, exit, isRoot)
    ensures side == ExitNode(id, exit)
  {
    side := ExitNode(id, exit);
    AddImplicitEdge(g, prev, side, isRoot);
    if isRoot {
      g.AddNode(side, MarkedExitAttrs);
    } else {
      assert g.body + [] == g.body;
    }
  }

  /** The loop of `_add_trace_body` over the sorted side exits `exits`. */
  method AddChain(g: Digraph, id: nat, exits: seq<nat>, start: string, isRoot: bool) returns (last: string)
    modifies g
    ensures g.body == old(g.body) + Chain(id, exits, start, isRoot)
    ensures last == ChainEnd(id, exits, start)
  {
    var prev := start;
    for i := 0 to |exits|
      invariant g.body == old(g.body) + Chain(id, exits[..i], start, isRoot)
      invariant prev == ChainEnd(id, exits[..i], start)
    {
      prev := AddExit(g, id, prev, exits[i], isRoot);
      ChainSnoc(id, exits, i, start, isRoot);
      AppendAssoc(old(g.body), Chain(id, exits[..i], start, isRoot),
                  ExitStep(id, ChainEnd(id, exits[..i], start), exits[i], isRoot));
    }
    assert exits[..|exits|] == exits;
    last := prev;
  }

  lemma ChainSnoc(id: nat, exits: seq<nat>, i: nat, start: string, isRoot: bool)
    requires i < |exits|
    ensures Chain(id, exits[..i + 1], start, isRoot)
         == Chain(id, exits[..i], start, isRoot) + ExitStep(id, ChainEnd(id, exits[..i], start), exits[i], isRoot)
    ensures ChainEnd(id, exits[..i + 1], start) == ExitNode(id, exits[i])
  {
    assert exits[..i + 1][..i] == exits[..i];
  }

  /** `_add_trace_body`: chains the side exits in ascending order and returns the
      last node of the chain. */
  method AddTraceBody(g: Digraph, t: TraceRec, start: string) returns (last: string)
    modifies g
    ensures g.body == old(g.body) + Chain(t.id, SortedExits(t), start, IsRoot(t))
    ensures last == ChainEnd(t.id, SortedExits(t), start)
  {
    var exits := SortedExits(t);
    last := AddChain(g, t.id, exits, start, IsRoot(t));
  }

  /** `_add_to_graph`. */
  method AddToGraph(g: Digraph, rootId: nat, t: TraceRec)
    modifies g
    ensures g.body == old(g.body) + TraceGraph(t, rootId)
  {
    ghost var b0 := g.body;
    var start := StartNode(t.id);
    AddBoundaryNode(g, start, IsRoot(t));
    AddParentEdge(g, t);
    AppendAssoc(b0, Boundary(start, IsRoot(t)), ParentLink(t));
    ghost var done := Boundary(start, IsRoot(t)) + ParentLink(t);
    assert g.body == b0 + done;
    var last := AddTraceBody(g, t, start);
    AppendAssoc(b0, done, Chain(t.id, SortedExits(t), start, IsRoot(t)));
    done := done + Chain(t.id, SortedExits(t), start, IsRoot(t));
    assert g.body == b0 + done;
    var end := EndNode(t);
    AddBoundaryNode(g, end, IsRoot(t));
    AppendAssoc(b0, done, Boundary(end, IsRoot(t)));
    done := done + Boundary(end, IsRoot(t));
    assert g.body == b0 + done;
    AddImplicitEdge(g, last, end, IsRoot(t));
    AppendAssoc(b0, done, [Flow(last, end, IsRoot(t))]);
    done := done + [Flow(last, end, IsRoot(t))];
    assert g.body == b0 + done;
    AddBackEdge(g, t, rootId);
    AppendAssoc(b0, done, BackLink(t, rootId));
    done := done + BackLink(t, rootId);
    assert g.body == b0 + done;
    assert done == TraceGraph(t, rootId);
  }

  /** The bold edge from the parent's side exit, for a side trace only. */
  method AddParentEdge(g: Digraph, t: TraceRec)
    modifies g
    ensures g.body == old(g.body) + ParentLink(t)
  {
    if !IsRoot(t) {
      g.AddEdge(t.parent, StartNode(t.id), BoldAttrs);
    } else {
      assert g.body + [] == g.body;
    }
  }

  /** The bold back edge from the exit node, when the link has one. */
  method AddBackEdge(g: Digraph, t: TraceRec, rootId: nat)
    modifies g
    ensures g.body == old(g.body) + BackLink(t, rootId)
  {
    var loop := BackTarget(t, rootId);
    if loop.Some? {
      g.AddEdge(EndNode(t), loop.value, BoldAttrs);
    } else {
      assert g.body + [] == g.body;
    }
  }

  /** `_render_png` up to `graph.render`: the statements of the whole bush. */
  method GraphOf(bush: TraceBush) returns (body: seq<Stmt>)
    ensures body == BushGraph(bush.traces, bush.rootId)
  {
    var g := new Digraph();
    var ts := bush.traces;
    for i := 0 to |ts|
      invariant g.body == BushGraph(ts[..i], bush.rootId)
    {
      AddToGraph(g, bush.rootId, ts[i]);
      BushGraphSnoc(ts, i, bush.rootId);
    }
    assert ts[..|ts|] == ts;
    body := g.body;
  }

  // ---------------------------------------------------------------------------
  // Facts about the graph of one trace

  /** The statements of `ss` that satisfy `p`, in order. */
  function Keep(ss: seq<Stmt>, p: Stmt -> bool): seq<Stmt> {
    if ss == [] then [] else (if p(ss[0]) then [ss[0]] else []) + Keep(ss[1..], p)
  }

  lemma {:induction false} KeepAppend(a: seq<Stmt>, b: seq<Stmt>, p: Stmt -> bool)
    ensures Keep(a + b, p) == Keep(a, p) + Keep(b, p)
  {
    if a != [] {
      assert (a + b)[1..] == a[1..] + b;
      KeepAppend(a[1..], b, p);
    } else {
      assert a + b == b;
    }
  }

  lemma KeepPair(x: Stmt, y: Stmt, p: Stmt -> bool)
    ensures Keep([x], p) == if p(x) then [x] else []
    ensures Keep([x, y], p) == (if p(x) then [x] else []) + (if p(y) then [y] else [])
  {
    assert [x, y] == [x] + [y];
    KeepAppend([x], [y], p);
  }

  predicate IsBoldEdge(s: Stmt) { s.Edge? && s.attrs == BoldAttrs }

  /** Recognises the implicit-flow edges of a root (or of a side) trace. */
  function FlowOf(isRoot: bool): Stmt -> bool { (s: Stmt) => s.Edge? && s.attrs == FlowAttrs(isRoot) }

  predicate IsMarked(s: Stmt) { Attr("color", MarkedTraceColor) in s.attrs }

  /** The body nodes `"<id>/<exit>"` for `exits`. */
  function ExitNodes(id: nat, exits: seq<nat>): (r: seq<string>)
    ensures |r| == |exits|
  {
    if exits == [] then [] else [ExitNode(id, exits[0])] + ExitNodes(id, exits[1..])
  }

  lemma {:induction false} ExitNodesSnoc(id: nat, exits: seq<nat>, e: nat)
    ensures ExitNodes(id, exits + [e]) == ExitNodes(id, exits) + [ExitNode(id, e)]
  {
    if exits != [] {
      assert (exits + [e])[1..] == exits[1..] + [e];
      ExitNodesSnoc(id, exits[1..], e);
    }
  }

  /** The implicit-flow path through the nodes `ns`, edge by edge. */
  function Path(ns: seq<string>, isRoot: bool): seq<Stmt> {
    if |ns| < 2 then [] else [Flow(ns[0], ns[1], isRoot)] + Path(ns[1..], isRoot)
  }

  lemma {:induction false} PathSnoc(ns: seq<string>, n: string, isRoot: bool)
    requires ns != []
    ensures Path(ns + [n], isRoot) == Path(ns, isRoot) + [Flow(ns[|ns| - 1], n, isRoot)]
  {
    if |ns| >= 2 {
      assert (ns + [n])[1..] == ns[1..] + [n];
      PathSnoc(ns[1..], n, isRoot);
    }
  }

  /** The entry node followed by the body nodes ends at the chain's last node. */
  lemma ChainNodesEnd(id: nat, exits: seq<nat>, start: string)
    ensures ([start] + ExitNodes(id, exits))[|exits|] == ChainEnd(id, exits, start)
  {
    if exits != [] {
      var init := exits[..|exits| - 1];
      SplitLast(exits);
      ExitNodesSnoc(id, init, exits[|exits| - 1]);
    }
  }

  lemma ExitStepKeeps(id: nat, prev: string, e: nat, isRoot: bool)
    ensures Keep(ExitStep(id, prev, e, isRoot), IsBoldEdge) == []
    ensures Keep(ExitStep(id, prev, e, isRoot), FlowOf(isRoot)) == [Flow(prev, ExitNode(id, e), isRoot)]
    ensures |Keep(ExitStep(id, prev, e, isRoot), IsMarked)| == if isRoot then 2 else 0
  {
    var f, n := Flow(prev, ExitNode(id, e), isRoot), Node(ExitNode(id, e), MarkedExitAttrs);
    KeepPair(f, n, IsBoldEdge);
    KeepPair(f, n, FlowOf(isRoot));
    KeepPair(f, n, IsMarked);
    assert FlowAttrs(isRoot) != BoldAttrs by {
      if !isRoot { assert FlowAttrs(isRoot)[0].value[0] != BoldAttrs[0].value[0]; }
    }
    assert IsMarked(f) <==> isRoot by {
      if !isRoot { assert FlowAttrs(isRoot)[0].name[0] != 'c'; }
    }
    assert IsMarked(n) by { assert n.attrs[1] == Attr("color", MarkedTraceColor); }
  }

  lemma {:induction false} ChainKeeps(id: nat, exits: seq<nat>, start: string, isRoot: bool)
    ensures Keep(Chain(id, exits, start, isRoot), IsBoldEdge) == []
    ensures Keep(Chain(id, exits, start, isRoot), FlowOf(isRoot)) == Path([start] + ExitNodes(id, exits), isRoot)
    ensures |Keep(Chain(id, exits, start, isRoot), IsMarked)| == if isRoot then 2 * |exits| else 0
    decreases |exits|
  {
    if exits != [] {
      var init, e := exits[..|exits| - 1], exits[|exits| - 1];
      var prev := ChainEnd(id, init, start);
      var c, step := Chain(id, init, start, isRoot), ExitStep(id, prev, e, isRoot);
      assert Chain(id, exits, start, isRoot) == c + step;
      ChainKeeps(id, init, start, isRoot);
      ExitStepKeeps(id, prev, e, isRoot);
      assert Keep(c + step, IsBoldEdge) == [] by {
        KeepAppend(c, step, IsBoldEdge);
        AppendEmpty<Stmt>([]);
      }
      assert |Keep(c + step, IsMarked)| == if isRoot then 2 * |exits| else 0 by {
        KeepAppend(c, step, IsMarked);
      }
      var ns := [start] + ExitNodes(id, init);
      assert Keep(c + step, FlowOf(isRoot)) == Path(ns, isRoot) + [Flow(prev, ExitNode(id, e), isRoot)] by {
        KeepAppend(c, step, FlowOf(isRoot));
      }
      assert [start] + ExitNodes(id, exits) == ns + [ExitNode(id, e)] by {
        SplitLast(exits);
        ExitNodesSnoc(id, init, e);
        AppendAssoc([start], ExitNodes(id, init), [ExitNode(id, e)]);
      }
      assert Path(ns + [ExitNode(id, e)], isRoot) == Path(ns, isRoot) + [Flow(prev, ExitNode(id, e), isRoot)] by {
        ChainNodesEnd(id, init, start);
        PathSnoc(ns, ExitNode(id, e), isRoot);
      }
    }
  }

  /** `_add_to_graph`'s bold edge from the parent's side exit, for a side trace. */
  function ParentLink(t: TraceRec): seq<Stmt> {
    if IsRoot(t) then [] else [Edge(t.parent, StartNode(t.id), BoldAttrs)]
  }

  /** `_add_to_graph`'s bold back edge, if the trace has one. */
  function BackLink(t: TraceRec, rootId: nat): seq<Stmt> {
    match BackTarget(t, rootId) case Some(b) => [Edge(EndNode(t), b, BoldAttrs)] case None => []
  }

  lemma KeepGraph(t: TraceRec, rootId: nat, exits: seq<nat>, p: Stmt -> bool)
    ensures Keep(GraphWith(t, rootId, exits), p)
         == Keep(Boundary(StartNode(t.id), IsRoot(t)), p) + Keep(ParentLink(t), p)
            + Keep(Chain(t.id, exits, StartNode(t.id), IsRoot(t)), p)
            + Keep(Boundary(EndNode(t), IsRoot(t)), p)
            + Keep([Flow(ChainEnd(t.id, exits, StartNode(t.id)), EndNode(t), IsRoot(t))], p)
            + Keep(BackLink(t, rootId), p)
  {
    var start, r := StartNode(t.id), IsRoot(t);
    var a, b := Boundary(start, r), ParentLink(t);
    var c := Chain(t.id, exits, start, r);
    var d := Boundary(EndNode(t), r);
    var e := [Flow(ChainEnd(t.id, exits, start), EndNode(t), r)];
    var f := BackLink(t, rootId);
    assert GraphWith(t, rootId, exits) == a + b + c + d + e + f;
    KeepAppend(a + b + c + d + e, f, p);
    KeepAppend(a + b + c + d, e, p);
    KeepAppend(a + b + c, d, p);
    KeepAppend(a + b, c, p);
    KeepAppend(a, b, p);
  }

  lemma BoundaryKeeps(node: string, isRoot: bool)
    ensures Keep(Boundary(node, isRoot), IsBoldEdge) == []
    ensures Keep(Boundary(node, isRoot), FlowOf(isRoot)) == []
    ensures Keep(Boundary(node, isRoot), IsMarked) == if isRoot then [Node(node, MarkAttrs)] else []
  {
    var x, y := Node(node, BoxAttrs), Node(node, MarkAttrs);
    KeepPair(x, y, IsBoldEdge);
    KeepPair(x, y, FlowOf(isRoot));
    KeepPair(x, y, IsMarked);
    assert !IsMarked(x) by {
      assert BoxAttrs[0].name[0] != 'c' && BoxAttrs[1].name[0] != 'c';
    }
  }

  lemma FlowKeeps(a: string, b: string, isRoot: bool)
    ensures Keep([Flow(a, b, isRoot)], IsBoldEdge) == []
    ensures Keep([Flow(a, b, isRoot)], FlowOf(isRoot)) == [Flow(a, b, isRoot)]
    ensures Keep([Flow(a, b, isRoot)], IsMarked) == if isRoot then [Flow(a, b, isRoot)] else []
  {
    ExitStepKeeps(0, a, 0, isRoot);
    var f := Flow(a, b, isRoot);
    KeepPair(f, f, IsBoldEdge);
    KeepPair(f, f, FlowOf(isRoot));
    KeepPair(f, f, IsMarked);
    assert FlowAttrs(isRoot) != BoldAttrs by {
      if !isRoot { assert FlowAttrs(isRoot)[0].value[0] != BoldAttrs[0].value[0]; }
    }
    assert IsMarked(f) <==> isRoot by {
      if !isRoot { assert FlowAttrs(isRoot)[0].name[0] != 'c'; }
    }
  }

  lemma LinkKeeps(t: TraceRec, rootId: nat)
    ensures Keep(ParentLink(t), IsBoldEdge) == ParentLink(t)
    ensures Keep(BackLink(t, rootId), IsBoldEdge) == BackLink(t, rootId)
    ensures Keep(ParentLink(t), FlowOf(IsRoot(t))) == [] && Keep(BackLink(t, rootId), FlowOf(IsRoot(t))) == []
    ensures Keep(ParentLink(t), IsMarked) == [] && Keep(BackLink(t, rootId), IsMarked) == []
  {
    assert FlowAttrs(IsRoot(t)) != BoldAttrs by {
      if !IsRoot(t) { assert FlowAttrs(false)[0].value[0] != BoldAttrs[0].value[0]; }
    }
    assert Attr("color", MarkedTraceColor) !in BoldAttrs;
  }

  /** The bold edges of a trace: the one from the parent's side exit for a side
      trace (none for a root), and at most one back edge: to the trace's own
      entry for a loop, to the bush's root entry for a link to the root. */
  lemma BoldEdgesOfTrace(t: TraceRec, rootId: nat)
    ensures Keep(TraceGraph(t, rootId), IsBoldEdge)
         == (if IsRoot(t) then [] else [Edge(t.parent, StartNode(t.id), BoldAttrs)])
            + (if t.linkType == "loop" then [Edge(EndNode(t), StartNode(t.id), BoldAttrs)]
               else if IsNumeral(t.linkType) && DigitsValue(t.linkType) == rootId
               then [Edge(EndNode(t), StartNode(rootId), BoldAttrs)]
               else [])
  {
    BoldEdgesWith(t, rootId, SortedExits(t));
  }

  lemma BoldEdgesWith(t: TraceRec, rootId: nat, exits: seq<nat>)
    ensures Keep(GraphWith(t, rootId, exits), IsBoldEdge) == ParentLink(t) + BackLink(t, rootId)
  {
    var start, r, p := StartNode(t.id), IsRoot(t), IsBoldEdge;
    KeepGraph(t, rootId, exits, p);
    var a := Keep(Boundary(start, r), p);
    var b := Keep(ParentLink(t), p);
    var c := Keep(Chain(t.id, exits, start, r), p);
    var d := Keep(Boundary(EndNode(t), r), p);
    var e := Keep([Flow(ChainEnd(t.id, exits, start), EndNode(t), r)], p);
    var f := Keep(BackLink(t, rootId), p);
    assert a == [] && d == [] by {
      BoundaryKeeps(start, r);
      BoundaryKeeps(EndNode(t), r);
    }
    assert c == [] by {
      ChainKeeps(t.id, exits, start, r);
    }
    assert e == [] by {
      FlowKeeps(ChainEnd(t.id, exits, start), EndNode(t), r);
    }
    assert b == ParentLink(t) && f == BackLink(t, rootId) by {
      LinkKeeps(t, rootId);
    }
    AppendEmpty<Stmt>([]);
    AppendEmpty(b);
  }

  /** The implicit-flow edges of a trace form one path: from the entry node
      through one node per side exit, in ascending order of exit number and
      each exit once, to the exit node. */
  lemma FlowPathOfTrace(t: TraceRec, rootId: nat)
    ensures Keep(TraceGraph(t, rootId), FlowOf(IsRoot(t)))
         == Path([StartNode(t.id)] + ExitNodes(t.id, SortedExits(t)) + [EndNode(t)], IsRoot(t))
    ensures SortedBy(SortedExits(t), NatLe)
    ensures forall x :: x in t.sideExits <==> x in SortedExits(t)
    ensures forall i, j :: 0 <= i < j < |SortedExits(t)| ==> SortedExits(t)[i] != SortedExits(t)[j]
  {
    FlowPathWith(t, rootId, SortedExits(t));
    NatLeTotal();
    SortSetFacts(t.sideExits.Keys, NatLe);
  }

  lemma FlowPathWith(t: TraceRec, rootId: nat, exits: seq<nat>)
    ensures Keep(GraphWith(t, rootId, exits), FlowOf(IsRoot(t)))
         == Path([StartNode(t.id)] + ExitNodes(t.id, exits) + [EndNode(t)], IsRoot(t))
  {
    var start, r := StartNode(t.id), IsRoot(t);
    var ns := [start] + ExitNodes(t.id, exits);
    FlowPartsWith(t, rootId, exits);
    ChainKeeps(t.id, exits, start, r);
    ChainNodesEnd(t.id, exits, start);
    PathSnoc(ns, EndNode(t), r);
  }

  /** Only the chain and the edge into the exit node are implicit-flow edges. */
  lemma FlowPartsWith(t: TraceRec, rootId: nat, exits: seq<nat>)
    ensures Keep(GraphWith(t, rootId, exits), FlowOf(IsRoot(t)))
         == Keep(Chain(t.id, exits, StartNode(t.id), IsRoot(t)), FlowOf(IsRoot(t)))
            + [Flow(ChainEnd(t.id, exits, StartNode(t.id)), EndNode(t), IsRoot(t))]
  {
    var start, r := StartNode(t.id), IsRoot(t);
    var p := FlowOf(r);
    KeepGraph(t, rootId, exits, p);
    var last := ChainEnd(t.id, exits, start);
    assert Keep(Boundary(start, r), p) == [] && Keep(Boundary(EndNode(t), r), p) == [] by {
      BoundaryKeeps(start, r);
      BoundaryKeeps(EndNode(t), r);
    }
    assert Keep([Flow(last, EndNode(t), r)], p) == [Flow(last, EndNode(t), r)] by {
      FlowKeeps(last, EndNode(t), r);
    }
    assert Keep(ParentLink(t), p) == [] && Keep(BackLink(t, rootId), p) == [] by {
      LinkKeeps(t, rootId);
    }
    var c := Keep(Chain(t.id, exits, start, r), p);
    var e := [Flow(last, EndNode(t), r)];
    AppendEmpty<Stmt>([]);
    AppendEmpty(c);
    AppendEmpty(c + e);
  }

  /** How many statements of a trace's graph carry the root colour: none for a
      side trace; for a root, 3 + 2n with n side exits (its two boundary nodes,
      its n exit nodes and its n + 1 implicit edges). */
  lemma MarkedOfTrace(t: TraceRec, rootId: nat)
    ensures |Keep(TraceGraph(t, rootId), IsMarked)|
         == if IsRoot(t) then 3 + 2 * |t.sideExits| else 0
  {
    MarkedWith(t, rootId, SortedExits(t));
    NatLeTotal();
  }

  lemma MarkedWith(t: TraceRec, rootId: nat, exits: seq<nat>)
    ensures |Keep(GraphWith(t, rootId, exits), IsMarked)| == if IsRoot(t) then 3 + 2 * |exits| else 0
  {
    var start, r, p := StartNode(t.id), IsRoot(t), IsMarked;
    KeepGraph(t, rootId, exits, p);
    var a := Keep(Boundary(start, r), p);
    var b := Keep(ParentLink(t), p);
    var c := Keep(Chain(t.id, exits, start, r), p);
    var d := Keep(Boundary(EndNode(t), r), p);
    var e := Keep([Flow(ChainEnd(t.id, exits, start), EndNode(t), r)], p);
    var f := Keep(BackLink(t, rootId), p);
    assert |a| == |d| == (if r then 1 else 0) by {
      BoundaryKeeps(start, r);
      BoundaryKeeps(EndNode(t), r);
    }
    assert |c| == if r then 2 * |exits| else 0 by {
      ChainKeeps(t.id, exits, start, r);
    }
    assert |e| == if r then 1 else 0 by {
      FlowKeeps(ChainEnd(t.id, exits, start), EndNode(t), r);
    }
    assert b == [] && f == [] by {
      LinkKeeps(t, rootId);
    }
  }

  /** The first statement is the bold box of the entry node `"START <id>"`; the
      second colours it exactly when the trace is a root. */
  lemma EntryOfTrace(t: TraceRec, rootId: nat)
    ensures |TraceGraph(t, rootId)| >= 2
    ensures TraceGraph(t, rootId)[0] == Node(StartNode(t.id), BoxAttrs)
    ensures IsRoot(t) <==> TraceGraph(t, rootId)[1] == Node(StartNode(t.id), MarkAttrs)
  {
    EntryWith(t, rootId, SortedExits(t));
  }

  lemma EntryWith(t: TraceRec, rootId: nat, exits: seq<nat>)
    ensures |GraphWith(t, rootId, exits)| >= 2
    ensures GraphWith(t, rootId, exits)[0] == Node(StartNode(t.id), BoxAttrs)
    ensures IsRoot(t) <==> GraphWith(t, rootId, exits)[1] == Node(StartNode(t.id), MarkAttrs)
  {
    var r, start := IsRoot(t), StartNode(t.id);
    var c := Chain(t.id, exits, start, r);
    if !r && exits != [] {
      ChainFirst(t.id, exits, start, r);
    }
  }

  lemma {:induction false} ChainFirst(id: nat, exits: seq<nat>, start: string, isRoot: bool)
    requires exits != []
    ensures |Chain(id, exits, start, isRoot)| > 0
    ensures Chain(id, exits, start, isRoot)[0].Edge?
    decreases |exits|
  {
    if |exits| > 1 {
      ChainFirst(id, exits[..|exits| - 1], start, isRoot);
    }
  }

  /** The exit node of a trace says where it goes: numeric links become `goto`,
      the three named link kinds get their own words, anything else is shown
      as it is. */
  lemma EndLabelCases(linkType: string)
    ensures IsNumeral(linkType) ==> EndLabel(linkType) == "goto " + linkType
    ensures linkType == "loop" ==> EndLabel(linkType) == "loop"
    ensures linkType == "return" ==> EndLabel(linkType) == "return to VM"
    ensures linkType == "interpreter" ==> EndLabel(linkType) == "enforce VM"
    ensures !IsNumeral(linkType) && linkType !in {"loop", "return", "interpreter"}
            ==> EndLabel(linkType) == linkType
  {
    if IsNumeral(linkType) {
      assert linkType[0] != 'l' && linkType[0] != 'r' && linkType[0] != 'i';
    }
  }

  // ---------------------------------------------------------------------------
  // Text rendering

  function Prefix(id: nat): string { "---- TRACE " + NatToString(id) + " " }

  /** `"---- TRACE {} start {}{}{}:{}\n"`, with a space after a non-empty parent. */
  function StartHeader(t: TraceRec): string {
    Prefix(t.id) + "start " + t.parent + (if t.parent != "" then " " else "")
    + t.file + ":" + NatToString(t.line) + "\n"
  }

  function IRHeader(t: TraceRec): string { Prefix(t.id) + "IR\n" }

  function McodeHeader(t: TraceRec): string { Prefix(t.id) + "mcode " + NatToString(t.sizeMcode) + "\n" }

  function StopHeader(t: TraceRec): string { Prefix(t.id) + "stop -> " + t.linkType + "\n" }

  /** The lines of a trace as the dump shows them, closing blank line included. */
  function TraceLines(t: TraceRec): seq<string> {
    [StartHeader(t)] + t.bc + [IRHeader(t)] + t.ir + [McodeHeader(t)] + t.mc + [StopHeader(t)] + ["\n"]
  }

  function BushLines(ts: seq<TraceRec>): seq<string> {
    if ts == [] then [] else BushLines(ts[..|ts| - 1]) + TraceLines(ts[|ts| - 1])
  }

  /** What `_print_trace` writes, one `out.write` call at a time. */
  function TraceWrites(t: TraceRec): seq<string> {
    [StartHeader(t)] + [Concat(t.bc)] + [IRHeader(t)] + [Concat(t.ir)]
    + [McodeHeader(t)] + [Concat(t.mc)] + [StopHeader(t)] + ["\n"]
  }

  function BushWrites(ts: seq<TraceRec>): seq<string> {
    if ts == [] then [] else BushWrites(ts[..|ts| - 1]) + TraceWrites(ts[|ts| - 1])
  }

  /** `_print_trace`. */
  method PrintTrace(out: TextOut, t: TraceRec)
    modifies out
    ensures out.writes == old(out.writes) + TraceWrites(t)
  {
    ghost var w0 := out.writes;
    out.Write(StartHeader(t));
    out.Write(Concat(t.bc));
    out.Write(IRHeader(t));
    out.Write(Concat(t.ir));
    out.Write(McodeHeader(t));
    out.Write(Concat(t.mc));
    out.Write(StopHeader(t));
    out.Write("\n");
    assert out.writes == w0 + TraceWrites(t);
  }

  lemma ConcatOne(x: string)
    ensures Concat([x]) == x
  {
    assert [x][1..] == [];
  }

  lemma WritesStep(ls: seq<string>, ws: seq<string>, part: seq<string>)
    requires Concat(ls) == Concat(ws)
    ensures Concat(ls + part) == Concat(ws + [Concat(part)])
  {
    ConcatAppend(ls, part);
    ConcatAppend(ws, [Concat(part)]);
    ConcatOne(Concat(part));
  }

  /** The text `_print_trace` writes is the trace's lines, one after another. */
  lemma PrintedText(t: TraceRec)
    ensures Concat(TraceWrites(t)) == Concat(TraceLines(t))
  {
    var s, i, m, p, n := StartHeader(t), IRHeader(t), McodeHeader(t), StopHeader(t), "\n";
    ConcatOne(s);
    WritesStep([s], [s], t.bc);
    WritesStep([s] + t.bc, [s] + [Concat(t.bc)], [i]);
    ConcatOne(i);
    WritesStep([s] + t.bc + [i], [s] + [Concat(t.bc)] + [i], t.ir);
    WritesStep([s] + t.bc + [i] + t.ir, [s] + [Concat(t.bc)] + [i] + [Concat(t.ir)], [m]);
    ConcatOne(m);
    WritesStep([s] + t.bc + [i] + t.ir + [m], [s] + [Concat(t.bc)] + [i] + [Concat(t.ir)] + [m], t.mc);
    WritesStep([s] + t.bc + [i] + t.ir + [m] + t.mc,
               [s] + [Concat(t.bc)] + [i] + [Concat(t.ir)] + [m] + [Concat(t.mc)], [p]);
    ConcatOne(p);
    WritesStep([s] + t.bc + [i] + t.ir + [m] + t.mc + [p],
               [s] + [Concat(t.bc)] + [i] + [Concat(t.ir)] + [m] + [Concat(t.mc)] + [p], [n]);
    ConcatOne(n);
  }

  /** The text of all the writes for a bush is the bush's lines. */
  lemma {:induction false} BushText(ts: seq<TraceRec>)
    ensures Concat(BushWrites(ts)) == Concat(BushLines(ts))
  {
    if ts != [] {
      var init, t := ts[..|ts| - 1], ts[|ts| - 1];
      BushText(init);
      ConcatAppend(BushWrites(init), TraceWrites(t));
      ConcatAppend(BushLines(init), TraceLines(t));
      PrintedText(t);
    }
  }

  /** `_render_txt` up to closing the file: the text of the whole bush. */
  method TextOf(bush: TraceBush) returns (text: string)
    ensures text == Concat(BushLines(bush.traces))
  {
    var out := new TextOut();
    var ts := bush.traces;
    for i := 0 to |ts|
      invariant out.writes == BushWrites(ts[..i])
    {
      PrintTrace(out, ts[i]);
      assert ts[..i + 1][..i] == ts[..i];
      assert ts[..i + 1][i] == ts[i];
    }
    assert ts[..|ts|] == ts;
    BushText(ts);
    text := Concat(out.writes);
  }

  /** The result of `render` for each format it knows. */
  datatype Rendering = Txt(text: string) | Png(graph: seq<Stmt>)

  /** `render`: "txt" writes text, "png" a graph, any other format raises. */
  method Render(fmt: string, bush: TraceBush) returns (r: Result<Rendering, string>)
    ensures fmt == "txt" ==> r == Ok(Txt(Concat(BushLines(bush.traces))))
    ensures fmt == "png" ==> r == Ok(Png(BushGraph(bush.traces, bush.rootId)))
    ensures fmt != "txt" && fmt != "png" ==> r == Err("Unknown format")
  {
    if fmt == "txt" {
      var text := TextOf(bush);
      r := Ok(Txt(text));
    } else if fmt == "png" {
      var g := GraphOf(bush);
      r := Ok(Png(g));
    } else {
      r := Err("Unknown format");
    }
  }
}
