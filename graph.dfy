/** The dataflow graph the importer reads: nodes, edges (with the control
    slot -1), and the placeholder substitution that seeds declared inputs. */
module TfGraph {
  import opened Errors
  import opened TfTypes

  /** The node class the graph assigns from a node's op (Node::IsSwitch(), IsMerge(), ...). */
  datatype NodeClass =
    | SourceNode | SinkNode
    | Switch | Merge | Enter | Exit | NextIteration | LoopCond | ControlTrigger
    | ArgNode | RetvalNode | IfNode | WhileNode
    | OtherNode

  /** A graph node: id, name, op type string, class, output count, attributes
      (in the attribute map's iteration order) and requested device. */
  datatype Node = Node(id: nat, name: string, op: string, kind: NodeClass, numOutputs: nat,
                       attrs: seq<(string, AttrValue)>, device: string)
  {
    /** False only for the _SOURCE and _SINK pseudo-nodes. */
    predicate IsOp() { kind != SourceNode && kind != SinkNode }
    predicate IsSource() { kind == SourceNode }
    predicate IsArg() { kind == ArgNode }
  }

  /** Graph::kControlSlot. */
  const ControlSlot: int := -1

  /** An edge (src, src_output) -> (dst, dst_input); control edges use the control slot. */
  datatype Edge = Edge(src: nat, srcOutput: int, dst: nat, dstInput: int) {
    predicate IsControlEdge() { srcOutput == ControlSlot }
  }

  /** A graph: nodes by id, edges in the graph's iteration order, and the next free node id. */
  datatype Graph = Graph(nodes: map<nat, Node>, edges: seq<Edge>, nextId: nat) {
    /** Every node is filed under its own id, ids are below nextId, edges join existing nodes. */
    predicate Valid() {
      && (forall id | id in nodes :: nodes[id].id == id && id < nextId)
      && (forall i | 0 <= i < |edges| :: edges[i].src in nodes && edges[i].dst in nodes)
    }
  }

  type ValidGraph = g: Graph | g.Valid() witness Graph(map[], [], 0)

  /** The edges leaving node n, in order (Node::out_edges()). */
  function From(es: seq<Edge>, n: nat): seq<Edge>
    decreases |es|
  {
    if |es| == 0 then []
    else (if es[0].src == n then [es[0]] else []) + From(es[1..], n)
  }

  /** The edges not leaving node n, in order. */
  function NotFrom(es: seq<Edge>, n: nat): seq<Edge>
    decreases |es|
  {
    if |es| == 0 then []
    else (if es[0].src != n then [es[0]] else []) + NotFrom(es[1..], n)
  }

  /** The edges entering node n, in order (Node::in_edges()). */
  function Into(es: seq<Edge>, n: nat): seq<Edge>
    decreases |es|
  {
    if |es| == 0 then []
    else (if es[0].dst == n then [es[0]] else []) + Into(es[1..], n)
  }

  /** The edges not entering node n, in order. */
  function NotInto(es: seq<Edge>, n: nat): seq<Edge>
    decreases |es|
  {
    if |es| == 0 then []
    else (if es[0].dst != n then [es[0]] else []) + NotInto(es[1..], n)
  }

  /** Membership in the four filters. */
  lemma {:induction false} FilterMembership(es: seq<Edge>, n: nat)
    ensures forall e :: e in From(es, n) <==> e in es && e.src == n
    ensures forall e :: e in NotFrom(es, n) <==> e in es && e.src != n
    ensures forall e :: e in Into(es, n) <==> e in es && e.dst == n
    ensures forall e :: e in NotInto(es, n) <==> e in es && e.dst != n
    decreases |es|
  {
    if |es| > 0 {
      FilterMembership(es[1..], n);
      assert es == [es[0]] + es[1..];
    }
  }

  /** Membership in the filters, one edge at a time. */
  lemma {:induction false} MemberFilters(es: seq<Edge>, n: nat, e: Edge)
    ensures e in From(es, n) <==> e in es && e.src == n
    ensures e in NotFrom(es, n) <==> e in es && e.src != n
    ensures e in NotInto(es, n) <==> e in es && e.dst != n
    decreases |es|
  {
    if |es| > 0 {
      MemberFilters(es[1..], n, e);
      assert es == [es[0]] + es[1..];
    }
  }

  lemma {:induction false} FromAppend(a: seq<Edge>, b: seq<Edge>, n: nat)
    ensures From(a + b, n) == From(a, n) + From(b, n)
    ensures NotFrom(a + b, n) == NotFrom(a, n) + NotFrom(b, n)
    decreases |a|
  {
    if |a| > 0 {
      assert (a + b)[1..] == a[1..] + b;
      FromAppend(a[1..], b, n);
    } else {
      assert a + b == b;
    }
  }

  /** A sequence without edges leaving n is its own NotFrom. */
  lemma {:induction false} NotFromNoOut(es: seq<Edge>, n: nat)
    requires From(es, n) == []
    ensures NotFrom(es, n) == es
    decreases |es|
  {
    if |es| > 0 {
      assert es[0] !in From(es, n);
      NotFromNoOut(es[1..], n);
    }
  }

  /** The index of the first edge leaving n. */
  function FirstFrom(es: seq<Edge>, n: nat): (i: nat)
    requires From(es, n) != []
    ensures i < |es| && es[i].src == n && From(es[..i], n) == []
    decreases |es|
  {
    if es[0].src == n then 0
    else
      assert From(es, n) == From(es[1..], n);
      var j := FirstFrom(es[1..], n);
      assert es[..j + 1] == [es[0]] + es[1..][..j];
      FromAppend([es[0]], es[1..][..j], n);
      j + 1
  }

  /** The edge an out-edge of the replaced node becomes: it now leaves `p`,
      from port 0 for a data edge and from the control slot for a control edge. */
  function Rewire(e: Edge, p: nat): (r: Edge)
    ensures r.src == p && r.dst == e.dst && r.dstInput == e.dstInput
    ensures r.IsControlEdge() <==> e.IsControlEdge()
    ensures !r.IsControlEdge() ==> r.srcOutput == 0
  {
    Edge(p, if e.srcOutput == ControlSlot then ControlSlot else 0, e.dst, e.dstInput)
  }

  function RewireAll(es: seq<Edge>, p: nat): (r: seq<Edge>)
    ensures |r| == |es| && forall i :: 0 <= i < |es| ==> r[i] == Rewire(es[i], p)
    decreases |es|
  {
    if |es| == 0 then [] else [Rewire(es[0], p)] + RewireAll(es[1..], p)
  }

  /** The graph with one of its nodes replaced by a node under the same id. */
  function WithNode(g: ValidGraph, n: Node): ValidGraph
    requires n.id in g.nodes
  {
    g.(nodes := g.nodes[n.id := n])
  }

  /** The Placeholder node NodeBuilder adds for a declared input: same name, one
      output, `shape` and `dtype` attributes, and the graph's next id. */
  function PlaceholderFor(g: Graph, input: Node, shape: ShapeProto, dtype: DataType): Node {
    Node(g.nextId, input.name, "Placeholder", OtherNode, 1,
         [("shape", ShapeVal(shape)), ("dtype", TypeVal(dtype))], "")
  }

  /** One turn of the rewiring loop: the first out-edge of n is removed and its
      rewired copy appended. */
  lemma MoveFirstOutEdge(edges: seq<Edge>, n: nat, p: nat, i: nat)
    requires p != n
    requires From(edges, n) != [] && i == FirstFrom(edges, n)
    ensures From(edges, n)[0] == edges[i]
    ensures From(edges[..i] + edges[i + 1..] + [Rewire(edges[i], p)], n) == From(edges, n)[1..]
    ensures NotFrom(edges[..i] + edges[i + 1..] + [Rewire(edges[i], p)], n)
         == NotFrom(edges, n) + [Rewire(edges[i], p)]
  {
    FilterAtFirst(edges, n, i);
    FilterAfterMove(edges[..i], edges[i + 1..], Rewire(edges[i], p), n);
    assert ([edges[i]] + From(edges[i + 1..], n))[1..] == From(edges[i + 1..], n);
  }

  /** The filters of a sequence whose first edge leaving n is at i. */
  lemma FilterAtFirst(edges: seq<Edge>, n: nat, i: nat)
    requires i < |edges| && edges[i].src == n && From(edges[..i], n) == []
    ensures From(edges, n) == [edges[i]] + From(edges[i + 1..], n)
    ensures NotFrom(edges, n) == edges[..i] + NotFrom(edges[i + 1..], n)
  {
    var pre, tail := edges[..i], edges[i..];
    assert edges == pre + tail;
    assert tail[0] == edges[i] && tail[1..] == edges[i + 1..];
    FromAppend(pre, tail, n);
    NotFromNoOut(pre, n);
  }

  /** The filters after the first edge leaving n was taken out of `pre + [e] + rest`
      and an edge not leaving n was appended. */
  lemma FilterAfterMove(pre: seq<Edge>, rest: seq<Edge>, r: Edge, n: nat)
    requires From(pre, n) == [] && r.src != n
    ensures From(pre + rest + [r], n) == From(rest, n)
    ensures NotFrom(pre + rest + [r], n) == pre + NotFrom(rest, n) + [r]
  {
    FromAppend(pre + rest, [r], n);
    FromAppend(pre, rest, n);
    NotFromNoOut(pre, n);
    SingleFilters(r, n);
  }

  /** The filters on a single edge. */
  lemma SingleFilters(e: Edge, n: nat)
    ensures From([e], n) == (if e.src == n then [e] else [])
    ensures NotFrom([e], n) == (if e.src != n then [e] else [])
  {
    assert [e][1..] == [];
  }

  /** The rewiring loop of ReplaceWithPlaceholderNode: while n has an out-edge,
      the first one is replaced by the same edge leaving p. */
  method MoveOutEdges(es: seq<Edge>, n: nat, p: nat) returns (edges: seq<Edge>)
    requires p != n
    ensures edges == NotFrom(es, n) + RewireAll(From(es, n), p)
  {
    edges := es;
    ghost var outs := From(es, n);
    ghost var k := 0;
    while From(edges, n) != []
      invariant 0 <= k <= |outs|
      invariant From(edges, n) == outs[k..]
      invariant NotFrom(edges, n) == NotFrom(es, n) + RewireAll(outs[..k], p)
      decreases |From(edges, n)|
    {
      var i := FirstFrom(edges, n);
      MoveFirstOutEdge(edges, n, p, i);
      assert outs[..k + 1] == outs[..k] + [edges[i]];
      edges := edges[..i] + edges[i + 1..] + [Rewire(edges[i], p)];
      k := k + 1;
    }
    NotFromNoOut(edges, n);
    assert outs[..k] == outs;
  }

  /** An edge that survives the substitution joins nodes that are still there. */
  lemma ReplacedEdgeEndpoints(g: ValidGraph, n: nat, p: Node, e: Edge)
    requires n in g.nodes && p.id == g.nextId
    requires e in NotInto(NotFrom(g.edges, n) + RewireAll(From(g.edges, n), p.id), n)
    ensures e.src in (g.nodes - {n})[p.id := p] && e.dst in (g.nodes - {n})[p.id := p]
  {
    var kept, moved := NotFrom(g.edges, n), RewireAll(From(g.edges, n), p.id);
    MemberFilters(kept + moved, n, e);
    assert e in kept || e in moved;
    var src, dst := e.src, e.dst;
    if e in moved {
      MovedEdgeEnds(g, n, p.id, e);
      assert src == p.id;
    } else {
      KeptEdgeEnds(g, n, e);
      assert src in g.nodes && src != n;
    }
    assert dst in g.nodes && dst != n;
  }

  /** A rewired out-edge of n leaves p and enters a node of the graph. */
  lemma MovedEdgeEnds(g: ValidGraph, n: nat, p: nat, e: Edge)
    requires e in RewireAll(From(g.edges, n), p)
    ensures e.src == p && e.dst in g.nodes
  {
    var outs := From(g.edges, n);
    var moved := RewireAll(outs, p);
    var j :| 0 <= j < |moved| && moved[j] == e;
    var o := outs[j];
    MemberFilters(g.edges, n, o);
    var k :| 0 <= k < |g.edges| && g.edges[k] == o;
  }

  /** An edge not leaving n joins two nodes of the graph, the first not n. */
  lemma KeptEdgeEnds(g: ValidGraph, n: nat, e: Edge)
    requires e in NotFrom(g.edges, n)
    ensures e.src in g.nodes && e.src != n && e.dst in g.nodes
  {
    MemberFilters(g.edges, n, e);
    var k :| 0 <= k < |g.edges| && g.edges[k] == e;
  }

  /** The graph after the substitution is again valid. */
  lemma ReplacedGraphValid(g: ValidGraph, n: nat, p: Node, es: seq<Edge>)
    requires n in g.nodes && p.id == g.nextId
    requires es == NotInto(NotFrom(g.edges, n) + RewireAll(From(g.edges, n), p.id), n)
    ensures Graph((g.nodes - {n})[p.id := p], es, g.nextId + 1).Valid()
  {
    var remaining := (g.nodes - {n})[p.id := p];
    forall id | id in remaining
      ensures remaining[id].id == id && id < g.nextId + 1
    {
      if id != p.id { assert id in g.nodes; }
    }
    forall i | 0 <= i < |es|
      ensures es[i].src in remaining && es[i].dst in remaining
    {
      ReplacedEdgeEndpoints(g, n, p, es[i]);
    }
  }

  /** ReplaceWithPlaceholderNode: adds the placeholder, moves every out-edge of
      `input` over to it, then removes `input` together with its remaining (in-)edges. */
  method ReplaceWithPlaceholderNode(g: ValidGraph, shape: ShapeProto, dtype: DataType, input: Node)
    returns (g': ValidGraph, p: Node)
    requires input.id in g.nodes
    ensures p == PlaceholderFor(g, input, shape, dtype)
    ensures g'.nodes == (g.nodes - {input.id})[p.id := p]
    ensures g'.nextId == g.nextId + 1
    ensures g'.edges == NotInto(NotFrom(g.edges, input.id) + RewireAll(From(g.edges, input.id), p.id), input.id)
  {
    p := PlaceholderFor(g, input, shape, dtype);
    var moved := MoveOutEdges(g.edges, input.id, p.id);
    var kept := NotInto(moved, input.id);
    ReplacedGraphValid(g, input.id, p, kept);
    g' := Graph((g.nodes - {input.id})[p.id := p], kept, g.nextId + 1);
  }

  /** After the substitution nothing refers to the replaced node, every
      out-edge it had (other than a self-loop) now leaves the placeholder, and
      every data edge leaving the placeholder comes from port 0. */
  lemma PlaceholderTakesOverOutEdges(g: Graph, n: nat, p: nat, es: seq<Edge>)
    requires p != n
    requires es == NotInto(NotFrom(g.edges, n) + RewireAll(From(g.edges, n), p), n)
    ensures forall e :: e in es ==> e.src != n && e.dst != n
    ensures forall e :: e in g.edges && e.src == n && e.dst != n ==> Rewire(e, p) in es
    ensures forall e :: e in g.edges && e.src != n && e.dst != n ==> e in es
    ensures forall e :: e in es && e.src == p && !e.IsControlEdge() ==> e.srcOutput == 0 || e in g.edges
  {
    FilterMembership(g.edges, n);
    FilterMembership(NotFrom(g.edges, n) + RewireAll(From(g.edges, n), p), n);
    MovedEdgesLeaveP(g, n, p);
    RewiredEdgesKept(g, n, p, es);
  }

  /** A rewired edge leaves the placeholder, from port 0 when it carries data. */
  lemma MovedEdgesLeaveP(g: Graph, n: nat, p: nat)
    ensures forall e :: e in RewireAll(From(g.edges, n), p) ==>
      e.src == p && (!e.IsControlEdge() ==> e.srcOutput == 0)
  {
    var moved := RewireAll(From(g.edges, n), p);
    forall e | e in moved
      ensures e.src == p && (!e.IsControlEdge() ==> e.srcOutput == 0)
    {
      var i :| 0 <= i < |moved| && moved[i] == e;
    }
  }

  /** Every out-edge of n that is not a self-loop survives rewired. */
  lemma RewiredEdgesKept(g: Graph, n: nat, p: nat, es: seq<Edge>)
    requires p != n
    requires es == NotInto(NotFrom(g.edges, n) + RewireAll(From(g.edges, n), p), n)
    ensures forall e :: e in g.edges && e.src == n && e.dst != n ==> Rewire(e, p) in es
  {
    var outs := From(g.edges, n);
    var moved := RewireAll(outs, p);
    FilterMembership(g.edges, n);
    FilterMembership(NotFrom(g.edges, n) + moved, n);
    forall e | e in g.edges && e.src == n && e.dst != n
      ensures Rewire(e, p) in es
    {
      var i :| 0 <= i < |outs| && outs[i] == e;
      assert moved[i] == Rewire(e, p);
      assert Rewire(e, p) in NotFrom(g.edges, n) + moved;
    }
  }
}
