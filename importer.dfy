/** The graph importer (ImporterBase): it clones the graph without its back
    edges, seeds the shape refiner with the declared inputs and refines shapes
    to a bounded fixpoint, converts every node into an operation of the graph
    body, restores the back edges, and wires the function's arguments and
    results. Library functions the graph calls are converted on demand by
    child importers that share the module and its name table. */
module Importer {
  import opened Errors
  import opened TfTypes
  import opened TfGraph
  import opened Ir
  import opened Shapes
  import opened AttrConvert
  import opened EdgeOrder
  import opened BackEdges
  import opened NodeConvert
  import opened ImportConfig
  import opened BodyEdits

  /** The module being built, shared by an importer and every child importer:
      the functions by symbol name and the table from library function names
      to their symbol names. */
  class Module {
    var functions: map<string, Func>
    var names: NameTable

    constructor()
      ensures functions == map[] && names == map[]
    {
      functions := map[];
      names := map[];
    }
  }

  const PlaceholderOp := "Placeholder"
  const LegacyFedInputOp := "LegacyFedInput"
  const ArgOp := "_Arg"
  const RetOp := "_Retval"
  const DeviceRetOp := "_DeviceRetval"
  const ReadVariableOp := "ReadVariableOp"
  const OutputShapesAttr := "_output_shapes"
  const MultiOutputInputMsg := "Input arrays can only have op with single output. Node op:"

  /** The ops a declared input may already have: it then keeps its node and
      only gets the declared shape and dtype attributes. */
  predicate PlaceholderLike(op: string) {
    op == PlaceholderOp || op == LegacyFedInputOp || op == ArgOp
  }

  /** The node with the declared shape and dtype set as attributes (Node::AddAttr). */
  function WithInputAttrs(n: Node, info: ArrayInfo): Node {
    n.(attrs := Assign(Assign(n.attrs, "shape", ShapeVal(info.shape)), "dtype", TypeVal(info.dtype)))
  }

  /** A placeholder-like node carrying the declared shape and dtype. */
  predicate CarriesInput(n: Node, info: ArrayInfo) {
    && PlaceholderLike(n.op)
    && Lookup(n.attrs, "shape") == Some(ShapeVal(info.shape))
    && Lookup(n.attrs, "dtype") == Some(TypeVal(info.dtype))
  }

  /** What seeding does to the graph for one node `id` of g: nothing for a node
      that is not a declared input; the declared attributes for a
      placeholder-like input; and for any other input, which must have a
      single output, a Placeholder in its stead under the next id. `nid` is
      the node that is then added to the refiner. */
  predicate SeededNode(g: ValidGraph, id: nat, inputs: seq<(string, ArrayInfo)>, g': ValidGraph, nid: nat)
    requires id in g.nodes
  {
    var n := g.nodes[id];
    match Lookup(inputs, n.name)
    case None => g' == g && nid == id
    case Some(info) =>
      if PlaceholderLike(n.op) then
        nid == id && g' == g.(nodes := g.nodes[id := WithInputAttrs(n, info)])
      else
        && n.numOutputs <= 1 && nid == g.nextId && g'.nextId == g.nextId + 1
        && g'.nodes == (g.nodes - {id})[nid := PlaceholderFor(g, n, info.shape, info.dtype)]
  }

  /** The shape an `_Arg` node's `shape` attribute holds (a default, scalar,
      shape when the attribute holds something else). */
  function ShapeOf(v: AttrValue): ShapeProto {
    if v.ShapeVal? then v.shape else DimsProto([])
  }

  /** The seeding loop's invariant after visiting `visited`: every visited or
      newly added node has a context, and every such node named by a declared
      input is placeholder-like and carries the declared shape and dtype. */
  ghost predicate Seeded(g: Graph, inputs: seq<(string, ArrayInfo)>, visited: set<nat>, from: nat, ctxs: Contexts) {
    forall id | id in g.nodes && (id in visited || id >= from) ::
      && id in ctxs
      && (Lookup(inputs, g.nodes[id].name).Some? ==> CarriesInput(g.nodes[id], Lookup(inputs, g.nodes[id].name).value))
  }

  /** Every visited declared input of the original graph that was not
      placeholder-like had a single output and is gone. */
  ghost predicate ReplacedInputs(g0: Graph, g: Graph, inputs: seq<(string, ArrayInfo)>, visited: set<nat>) {
    forall id | id in visited && id in g0.nodes && Lookup(inputs, g0.nodes[id].name).Some? && !PlaceholderLike(g0.nodes[id].op) ::
      g0.nodes[id].numOutputs <= 1 && id !in g.nodes
  }

  /** Nodes not visited yet are as they were. */
  ghost predicate Untouched(g0: Graph, g: Graph, visited: set<nat>) {
    forall id | id in g0.nodes && id !in visited :: id in g.nodes && g.nodes[id] == g0.nodes[id]
  }

  /** One seeded node keeps the seeding loop's invariants. */
  lemma SeedStep(g0: ValidGraph, g: ValidGraph, g': ValidGraph, inputs: seq<(string, ArrayInfo)>, visited: set<nat>,
                 id: nat, nid: nat, ctxs: Contexts, ctxs': Contexts)
    requires g.nextId >= g0.nextId && id in g.nodes
    requires Seeded(g, inputs, visited, g0.nextId, ctxs) && ReplacedInputs(g0, g, inputs, visited) && Untouched(g0, g, visited)
    requires SeededNode(g, id, inputs, g', nid) && ctxs'.Keys == ctxs.Keys + {nid}
    ensures g'.nextId >= g0.nextId
    ensures Seeded(g', inputs, visited + {id}, g0.nextId, ctxs')
    ensures ReplacedInputs(g0, g', inputs, visited + {id})
    ensures Untouched(g0, g', visited + {id})
  {
    var n := g.nodes[id];
    var l := Lookup(inputs, n.name);
    if l.None? {
      SeedStepSkipped(g0, g, inputs, visited, id, ctxs, ctxs');
    } else if PlaceholderLike(n.op) {
      SeedStepInPlace(g0, g, g', inputs, visited, id, l.value, ctxs, ctxs');
    } else {
      SeedStepReplaced(g0, g, g', inputs, visited, id, l.value, ctxs, ctxs');
    }
  }

  /** A node that is not a declared input: the graph stays as it is. */
  lemma SeedStepSkipped(g0: ValidGraph, g: ValidGraph, inputs: seq<(string, ArrayInfo)>, visited: set<nat>,
                        id: nat, ctxs: Contexts, ctxs': Contexts)
    requires id in g.nodes && Lookup(inputs, g.nodes[id].name).None?
    requires Seeded(g, inputs, visited, g0.nextId, ctxs) && ReplacedInputs(g0, g, inputs, visited) && Untouched(g0, g, visited)
    requires ctxs'.Keys == ctxs.Keys + {id}
    ensures Seeded(g, inputs, visited + {id}, g0.nextId, ctxs')
    ensures ReplacedInputs(g0, g, inputs, visited + {id})
    ensures Untouched(g0, g, visited + {id})
  {
  }

  /** A placeholder-like declared input: the node gets the declared attributes in place. */
  lemma SeedStepInPlace(g0: ValidGraph, g: ValidGraph, g': ValidGraph, inputs: seq<(string, ArrayInfo)>, visited: set<nat>,
                        id: nat, info: ArrayInfo, ctxs: Contexts, ctxs': Contexts)
    requires id in g.nodes && Lookup(inputs, g.nodes[id].name) == Some(info)
    requires PlaceholderLike(g.nodes[id].op)
    requires g'.nextId == g.nextId && g'.nodes == g.nodes[id := WithInputAttrs(g.nodes[id], info)]
    requires Seeded(g, inputs, visited, g0.nextId, ctxs) && ReplacedInputs(g0, g, inputs, visited) && Untouched(g0, g, visited)
    requires ctxs'.Keys == ctxs.Keys + {id}
    ensures Seeded(g', inputs, visited + {id}, g0.nextId, ctxs')
    ensures ReplacedInputs(g0, g', inputs, visited + {id})
    ensures Untouched(g0, g', visited + {id})
  {
    var m := WithInputAttrs(g.nodes[id], info);
    assert Lookup(m.attrs, "shape") == Some(ShapeVal(info.shape));
    assert CarriesInput(m, info);
  }

  /** Any other declared input: a Placeholder under the next id takes its place. */
  lemma SeedStepReplaced(g0: ValidGraph, g: ValidGraph, g': ValidGraph, inputs: seq<(string, ArrayInfo)>, visited: set<nat>,
                         id: nat, info: ArrayInfo, ctxs: Contexts, ctxs': Contexts)
    requires g.nextId >= g0.nextId && id in g.nodes && Lookup(inputs, g.nodes[id].name) == Some(info)
    requires g.nodes[id].numOutputs <= 1 && g'.nextId == g.nextId + 1
    requires g'.nodes == (g.nodes - {id})[g.nextId := PlaceholderFor(g, g.nodes[id], info.shape, info.dtype)]
    requires Seeded(g, inputs, visited, g0.nextId, ctxs) && ReplacedInputs(g0, g, inputs, visited) && Untouched(g0, g, visited)
    requires ctxs'.Keys == ctxs.Keys + {g.nextId}
    ensures Seeded(g', inputs, visited + {id}, g0.nextId, ctxs')
    ensures ReplacedInputs(g0, g', inputs, visited + {id})
    ensures Untouched(g0, g', visited + {id})
  {
    ReplacedKeepsSeeded(g0, g, g', inputs, visited, id, info, ctxs, ctxs');
    forall x | x in visited + {id} && x in g0.nodes && Lookup(inputs, g0.nodes[x].name).Some? && !PlaceholderLike(g0.nodes[x].op)
      ensures g0.nodes[x].numOutputs <= 1 && x !in g'.nodes
    {
      assert x < g0.nextId;
      if x == id && id !in visited {
        assert g.nodes[id] == g0.nodes[id];
      }
    }
    forall x | x in g0.nodes && x !in visited + {id}
      ensures x in g'.nodes && g'.nodes[x] == g0.nodes[x]
    {
      assert x < g0.nextId;
    }
  }

  /** The replacing Placeholder has a context and carries the declared input;
      every other node keeps what it had. */
  lemma ReplacedKeepsSeeded(g0: ValidGraph, g: ValidGraph, g': ValidGraph, inputs: seq<(string, ArrayInfo)>, visited: set<nat>,
                         id: nat, info: ArrayInfo, ctxs: Contexts, ctxs': Contexts)
    requires g.nextId >= g0.nextId && id in g.nodes && Lookup(inputs, g.nodes[id].name) == Some(info)
    requires g.nodes[id].numOutputs <= 1 && g'.nextId == g.nextId + 1
    requires g'.nodes == (g.nodes - {id})[g.nextId := PlaceholderFor(g, g.nodes[id], info.shape, info.dtype)]
    requires Seeded(g, inputs, visited, g0.nextId, ctxs)
    requires ctxs'.Keys == ctxs.Keys + {g.nextId}
    ensures Seeded(g', inputs, visited + {id}, g0.nextId, ctxs')
  {
    var p := PlaceholderFor(g, g.nodes[id], info.shape, info.dtype);
    assert Lookup(p.attrs, "shape") == Some(ShapeVal(info.shape));
    assert Lookup(p.attrs, "dtype") == Some(TypeVal(info.dtype));
    assert CarriesInput(p, info);
    forall x | x in g'.nodes && (x in visited + {id} || x >= g0.nextId)
      ensures x in ctxs'
      ensures Lookup(inputs, g'.nodes[x].name).Some? ==> CarriesInput(g'.nodes[x], Lookup(inputs, g'.nodes[x].name).value)
    {
      if x != g.nextId {
        assert x in g.nodes && x != id && g'.nodes[x] == g.nodes[x];
      }
    }
  }

  /** Outputs 0 to k-1 of node id's context hold the handles of the first k shapes. */
  predicate ShapesSet(ctxs: Contexts, id: nat, shapes: seq<ShapeProto>, k: nat, makeShape: ShapeProto -> Result<ShapeHandle>)
    requires k <= |shapes|
  {
    forall j :: 0 <= j < k ==>
      && makeShape(shapes[j]).Success? && id in ctxs
      && j < |ctxs[id].outputs| && ctxs[id].outputs[j] == makeShape(shapes[j]).value
  }

  /** The ids of a node order, as a set. */
  function Visited(ids: seq<nat>): (r: set<nat>)
    ensures forall i :: 0 <= i < |ids| ==> ids[i] in r
    ensures forall id :: id in r ==> exists i :: 0 <= i < |ids| && ids[i] == id
    decreases |ids|
  {
    if |ids| == 0 then {} else Visited(ids[..|ids| - 1]) + {ids[|ids| - 1]}
  }

  /** One more id of a node order visited. */
  lemma VisitedSnoc(ids: seq<nat>, k: nat)
    requires k < |ids|
    ensures Visited(ids[..k + 1]) == Visited(ids[..k]) + {ids[k]}
  {
    assert ids[..k + 1][..k] == ids[..k];
  }

  /** The nodes of the given ids, in order; None when one is missing. */
  function NodesOf(g: Graph, ids: seq<nat>): (r: Option<seq<Node>>)
    ensures r.Some? <==> forall i :: 0 <= i < |ids| ==> ids[i] in g.nodes
    ensures r.Some? ==> |r.value| == |ids| && forall i :: 0 <= i < |ids| ==> r.value[i] == g.nodes[ids[i]]
  {
    if forall i :: 0 <= i < |ids| ==> ids[i] in g.nodes then Some(seq(|ids|, i requires 0 <= i < |ids| => g.nodes[ids[i]]))
    else None
  }

  /** The graph after seeding: source and sink edges fixed up, then pruned to
      what reaches the declared inputs and outputs when pruning is on and
      there is any. */
  function PreparedGraph(env: Env, seeded: ValidGraph, pruneStart: Option<set<string>>): ValidGraph {
    var fixed := env.fixupSourceAndSinkEdges(seeded);
    if pruneStart.Some? && pruneStart.value != {} then env.pruneForReverseReachability(fixed, pruneStart.value) else fixed
  }

  /** The type of a function argument: output 0 of its _Arg node. */
  function ArgType(g: Graph, ctxs: Contexts, id: nat, codec: DataTypeCodec): Result<TensorType> {
    if id !in g.nodes then Failure(Internal, "argument node is not in the graph")
    else InferOutputType(ctxs, g.nodes[id], 0, codec)
  }

  /** The type of a function result: input 0 of its _Retval node. */
  function RetType(g: Graph, ctxs: Contexts, id: nat, codec: DataTypeCodec): Result<TensorType> {
    if id !in g.nodes then Failure(Internal, "return node is not in the graph")
    else InferInputType(ctxs, g.nodes[id], 0, codec)
  }

  lemma NoUsesWithout(ops: map<nat, Op>, v: Value, x: nat)
    requires NoUses(ops, v)
    ensures NoUses(ops - {x}, v)
  {
  }

  /** A library function's own attributes, converted in iteration order and
      named by their mangled names. */
  function DefAttrs(attrs: seq<(string, AttrValue)>, names: NameTable, codec: TensorCodec,
                    mangle: string -> string): (r: Result<seq<NamedAttr>>)
    ensures r.Success? ==> |r.value| == |attrs| && forall k :: 0 <= k < |attrs| ==>
      AttrSpec(attrs[k].1, names, codec).Success? &&
      r.value[k] == NamedAttr(mangle(attrs[k].0), AttrSpec(attrs[k].1, names, codec).value)
    decreases |attrs|
  {
    if |attrs| == 0 then Success([])
    else
      var init :- DefAttrs(attrs[..|attrs| - 1], names, codec, mangle);
      var last := attrs[|attrs| - 1];
      var a :- AttrSpec(last.1, names, codec);
      Success(init + [NamedAttr(mangle(last.0), a)])
  }

  lemma {:induction false} DefAttrsStable(attrs: seq<(string, AttrValue)>, t: NameTable, t': NameTable,
                                          codec: TensorCodec, mangle: string -> string)
    requires Extends(t, t') && DefAttrs(attrs, t, codec, mangle).Success?
    ensures DefAttrs(attrs, t', codec, mangle) == DefAttrs(attrs, t, codec, mangle)
    decreases |attrs|
  {
    if |attrs| > 0 {
      DefAttrsStable(attrs[..|attrs| - 1], t, t', codec, mangle);
      AttrSpecStable(attrs[|attrs| - 1].1, t, t', codec);
    }
  }

  /** The attribute list a converted library function gets: its own
      attributes, the stateful flag when its signature is stateful, and the
      symbol of its gradient function when it has one. */
  function LibFunctionAttrs(lib: Library, name: string, fdef: FunctionDef, names: NameTable, codec: TensorCodec,
                            mangle: string -> string): (r: Result<seq<NamedAttr>>)
    ensures r.Success? ==> |r.value| == |fdef.attrs| + (if fdef.isStateful then 1 else 0) + (if FindGradient(lib, name) != "" then 1 else 0)
    ensures r.Success? ==> (NamedAttr(StatefulAttrName, UnitAttr) in r.value[|fdef.attrs|..] <==> fdef.isStateful)
    ensures r.Success? && FindGradient(lib, name) != "" ==>
      FindGradient(lib, name) in names && r.value[|r.value| - 1] == NamedAttr(GradientAttrName, SymbolRefAttr(names[FindGradient(lib, name)]))
    ensures r.Success? ==> DefAttrs(fdef.attrs, names, codec, mangle) == Success(r.value[..|fdef.attrs|])
  {
    var own :- DefAttrs(fdef.attrs, names, codec, mangle);
    var stateful := if fdef.isStateful then [NamedAttr(StatefulAttrName, UnitAttr)] else [];
    var grad := FindGradient(lib, name);
    if grad == "" then
      AppendSplits(own, stateful);
      Success(own + stateful)
    else if grad !in names then Failure(Internal, "gradient function '" + grad + "' has no IR name")
    else
      var g := NamedAttr(GradientAttrName, SymbolRefAttr(names[grad]));
      AppendSplits(own, stateful + [g]);
      assert own + stateful + [g] == own + (stateful + [g]);
      Success(own + stateful + [g])
  }

  /** An appended list splits back into its two parts. */
  lemma AppendSplits<T>(xs: seq<T>, ys: seq<T>)
    ensures (xs + ys)[..|xs|] == xs && (xs + ys)[|xs|..] == ys
  {
  }

  /** The attribute list is stable under table growth. */
  lemma LibFunctionAttrsStable(lib: Library, name: string, fdef: FunctionDef, t: NameTable, t': NameTable,
                               codec: TensorCodec, mangle: string -> string)
    requires Extends(t, t') && LibFunctionAttrs(lib, name, fdef, t, codec, mangle).Success?
    ensures LibFunctionAttrs(lib, name, fdef, t', codec, mangle) == LibFunctionAttrs(lib, name, fdef, t, codec, mangle)
  {
    DefAttrsStable(fdef.attrs, t, t', codec, mangle);
  }

  /** NodeSpec from its parts: the inferred types and gathered operands, and
      the converted attributes. */
  lemma NodeSpecOf(n: Node, typeName: string, g: Graph, backOut: map<nat, int>, ctxs: Contexts,
                   nv: map<nat, nat>, ops: map<nat, Op>, names: NameTable, tensors: TensorCodec, dtypes: DataTypeCodec,
                   inputs: (seq<Type>, (seq<Value>, seq<Value>)), attrs: seq<NamedAttr>)
    requires NodeInputs(n, g, backOut, ctxs, nv, ops, dtypes) == Success(inputs)
    requires NodeAttrs(n, typeName, names, tensors) == Success(attrs)
    ensures NodeSpec(n, typeName, g, backOut, ctxs, nv, ops, names, tensors, dtypes)
      == Success((OpState(OpNameFor(n, typeName, n.id in backOut), inputs.1.0, inputs.0, attrs), inputs.1.1))
  {
  }

  /** The node's operation is the one `spec` describes, created by
      createOperation on the body (ops0, block0, next0) and recorded as the
      node's value in nv. */
  predicate Recorded(spec: Result<(OpState, seq<Value>)>, n: Node,
                     ops0: map<nat, Op>, block0: seq<nat>, next0: nat, nv0: map<nat, nat>,
                     ops: map<nat, Op>, block: seq<nat>, next: nat, nv: map<nat, nat>)
    requires forall id :: id in ops0 ==> id < next0
  {
    && spec.Success?
    && var c := CreateOperation(n, spec.value.0, spec.value.1, ops0, block0, next0);
    && c.Success? && ops == c.value.ops && block == c.value.block && next == c.value.next
    && nv == nv0[n.id := c.value.value]
  }

  /** Values that use only existing results still do once operations are added. */
  lemma UsesInGrow(ops: map<nat, Op>, ops': map<nat, Op>, vs: seq<Value>)
    requires UsesIn(ops, vs) && forall id | id in ops :: id in ops' && ops'[id] == ops[id]
    ensures UsesIn(ops', vs)
  {
  }

  /** The operand loop yields only results of operations that exist, and
      indices within their results. */
  lemma {:induction false} GatherUses(es: seq<Edge>, nodes: map<nat, Node>, nv: map<nat, nat>, ops: map<nat, Op>, total: nat)
    requires Gather(es, nodes, nv, ops, total).Success?
    ensures UsesIn(ops, Gather(es, nodes, nv, ops, total).value.0) && UsesIn(ops, Gather(es, nodes, nv, ops, total).value.1)
    decreases |es|
  {
    if |es| > 0 {
      GatherUses(es[..|es| - 1], nodes, nv, ops, total);
    }
  }

  /** createOperation on a well-formed body, with operands that use only
      existing results, leaves a well-formed body. */
  lemma CreateKeepsWellFormed(n: Node, st: OpState, controls: seq<Value>, ops: map<nat, Op>, block: seq<nat>, next: nat)
    requires forall id :: id in ops ==> id < next
    requires WellFormed(ops) && UsesIn(ops, st.operands) && UsesIn(ops, controls)
    requires CreateOperation(n, st, controls, ops, block, next).Success?
    ensures WellFormed(CreateOperation(n, st, controls, ops, block, next).value.ops)
  {
    var ops' := CreateOperation(n, st, controls, ops, block, next).value.ops;
    UsesInGrow(ops, ops', st.operands);
    UsesInGrow(ops, ops', controls);
    UsesInGrow(ops, ops', st.operands + controls);
    forall id | id in ops' ensures OpUsesIn(ops', ops'[id]) {
      if id in ops {
        UsesInGrow(ops, ops', ops[id].operands);
        if ops[id].region.IslandRegion? {
          UsesInGrow(ops, ops', ops[id].region.inner.operands);
        }
      }
    }
  }

  /** NodeSpec's operands and control operands use only results of
      operations already in the body. */
  lemma NodeSpecUses(n: Node, typeName: string, g: Graph, backOut: map<nat, int>, ctxs: Contexts,
                     nv: map<nat, nat>, ops: map<nat, Op>, names: NameTable, tensors: TensorCodec, dtypes: DataTypeCodec)
    requires NodeSpec(n, typeName, g, backOut, ctxs, nv, ops, names, tensors, dtypes).Success?
    ensures UsesIn(ops, NodeSpec(n, typeName, g, backOut, ctxs, nv, ops, names, tensors, dtypes).value.0.operands)
    ensures UsesIn(ops, NodeSpec(n, typeName, g, backOut, ctxs, nv, ops, names, tensors, dtypes).value.1)
  {
    var es := StableSort(Into(g.edges, n.id));
    GatherUses(es, g.nodes, nv, ops, |es|);
  }

  /** A recorded operation keeps the operations already there, keeps the
      body well formed when its operands use only existing results, and
      keeps the node values below the next operation id. */
  lemma RecordedGrows(spec: Result<(OpState, seq<Value>)>, n: Node,
                      ops0: map<nat, Op>, block0: seq<nat>, next0: nat, nv0: map<nat, nat>,
                      ops: map<nat, Op>, block: seq<nat>, next: nat, nv: map<nat, nat>)
    requires forall id :: id in ops0 ==> id < next0
    requires Recorded(spec, n, ops0, block0, next0, nv0, ops, block, next, nv)
    ensures forall id | id in ops0 :: id in ops && ops[id] == ops0[id]
    ensures WellFormed(ops0) && UsesIn(ops0, spec.value.0.operands) && UsesIn(ops0, spec.value.1) ==> WellFormed(ops)
    ensures ValuesBelow(nv0, Body(ops0, block0, next0)) ==> ValuesBelow(nv, Body(ops, block, next))
  {
    if WellFormed(ops0) && UsesIn(ops0, spec.value.0.operands) && UsesIn(ops0, spec.value.1) {
      CreateKeepsWellFormed(n, spec.value.0, spec.value.1, ops0, block0, next0);
    }
  }

  /** ConvertNode's operation keeps the body well formed, and the node
      values below the next operation id; the operations already there stay. */
  lemma RecordedKeepsBody(n: Node, typeName: string, g: Graph, backOut: map<nat, int>, ctxs: Contexts,
                          nv0: map<nat, nat>, ops0: map<nat, Op>, block0: seq<nat>, next0: nat,
                          names: NameTable, tensors: TensorCodec, dtypes: DataTypeCodec,
                          ops: map<nat, Op>, block: seq<nat>, next: nat, nv: map<nat, nat>)
    requires forall id :: id in ops0 ==> id < next0
    requires Recorded(NodeSpec(n, typeName, g, backOut, ctxs, nv0, ops0, names, tensors, dtypes),
                      n, ops0, block0, next0, nv0, ops, block, next, nv)
    ensures forall id | id in ops0 :: id in ops && ops[id] == ops0[id]
    ensures WellFormed(ops0) ==> WellFormed(ops)
    ensures ValuesBelow(nv0, Body(ops0, block0, next0)) ==> ValuesBelow(nv, Body(ops, block, next))
  {
    NodeSpecUses(n, typeName, g, backOut, ctxs, nv0, ops0, names, tensors, dtypes);
    RecordedGrows(NodeSpec(n, typeName, g, backOut, ctxs, nv0, ops0, names, tensors, dtypes),
                  n, ops0, block0, next0, nv0, ops, block, next, nv);
  }

  /** The message for a function the graph calls that the library lacks. */
  function MissingFunctionMsg(name: string): string {
    "Failed to find function '" + name + "'. The imported TensorFlow GraphDef is ill-formed."
  }

  /** The library functions that have no symbol name yet. Converting a
      library function names it before anything else, so this count, then the
      place in the call cycle, bounds the on-demand conversion. */
  ghost function PendingCount(defs: set<string>, names: NameTable): nat
    decreases defs
  {
    if defs == {} then 0
    else
      var x := Pick(defs);
      PendingCount(defs - {x}, names) + (if x in names then 0 else 1)
  }

  ghost function Pick(s: set<string>): string
    requires s != {}
  {
    var x :| x in s; x
  }

  /** The count is the number of library functions without a name. */
  lemma {:induction false} PendingCountIsSize(defs: set<string>, names: NameTable)
    ensures PendingCount(defs, names) == |defs - names.Keys|
    decreases defs
  {
    if defs != {} {
      var x := Pick(defs);
      PendingCountIsSize(defs - {x}, names);
      SizeStep(defs, names.Keys, x);
    }
  }

  lemma SizeStep(defs: set<string>, keys: set<string>, x: string)
    requires x in defs
    ensures |defs - keys| == |(defs - {x}) - keys| + (if x in keys then 0 else 1)
  {
    if x in keys {
      assert defs - keys == (defs - {x}) - keys;
    } else {
      assert defs - keys == ((defs - {x}) - keys) + {x};
    }
  }

  /** A growing name table leaves no more functions without a name. */
  lemma PendingMonotone(defs: set<string>, t: NameTable, t': NameTable)
    requires Extends(t, t')
    ensures PendingCount(defs, t') <= PendingCount(defs, t)
  {
    PendingCountIsSize(defs, t);
    PendingCountIsSize(defs, t');
    SubsetSize(defs - t'.Keys, defs - t.Keys);
  }

  lemma {:induction false} SubsetSize(a: set<string>, b: set<string>)
    requires a <= b
    ensures |a| <= |b|
    decreases a
  {
    if a != {} {
      var x :| x in a;
      SubsetSize(a - {x}, b - {x});
    }
  }

  /** Naming one more library function leaves one fewer without a name. */
  lemma PendingShrinks(defs: set<string>, t: NameTable, x: string, v: string, t': NameTable)
    requires x in defs && x !in t && Extends(t[x := v], t')
    ensures PendingCount(defs, t') < PendingCount(defs, t)
  {
    PendingMonotone(defs, t[x := v], t');
    PendingNamingOne(defs, t, x, v);
  }

  lemma PendingNamingOne(defs: set<string>, t: NameTable, x: string, v: string)
    requires x in defs && x !in t
    ensures PendingCount(defs, t[x := v]) + 1 == PendingCount(defs, t)
  {
    PendingCountIsSize(defs, t);
    PendingCountIsSize(defs, t[x := v]);
    NamingOne(defs, t, x, v);
  }

  lemma NamingOne(defs: set<string>, t: NameTable, x: string, v: string)
    requires x in defs && x !in t
    ensures |defs - t[x := v].Keys| + 1 == |defs - t.Keys|
  {
    var rest := defs - t[x := v].Keys;
    assert x !in rest;
    assert defs - t.Keys == rest + {x};
  }

  /** Every node of `ids` is in the graph, and every operation node among
      them has a value. */
  predicate Converted(ids: seq<nat>, g: Graph, nv: map<nat, nat>) {
    forall j :: 0 <= j < |ids| ==> ids[j] in g.nodes && (g.nodes[ids[j]].IsOp() ==> ids[j] in nv)
  }

  lemma ConvertedStep(ids: seq<nat>, k: nat, g: Graph, nv: map<nat, nat>, nv': map<nat, nat>)
    requires k < |ids| && Converted(ids[..k], g, nv) && nv.Keys <= nv'.Keys
    requires ids[k] in g.nodes && (g.nodes[ids[k]].IsOp() ==> ids[k] in nv')
    ensures Converted(ids[..k + 1], g, nv')
  {
  }

  /** The inputs of a function body as GetArgsAndRetsFromFunctionBody gives
      them: output 0 of each node. */
  function OutputsZero(ids: seq<nat>): (r: seq<OutputTensor>)
    ensures |r| == |ids| && forall i :: 0 <= i < |ids| ==> r[i] == OutputTensor(ids[i], 0)
  {
    seq(|ids|, i requires 0 <= i < |ids| => OutputTensor(ids[i], 0))
  }

  /** The value fetched for the return node `rn`, against the operations
      before (ops0) and after (ops) the return loop: a _Retval or
      _DeviceRetval island yields the single operand of the operation it wraps
      and is erased; any other node yields its result at the given index. */
  predicate RetFetched(g: Graph, nv: map<nat, nat>, ops0: map<nat, Op>, ops: map<nat, Op>, rn: OutputTensor, v: Value) {
    var id := rn.node;
    && id in g.nodes && id in nv && nv[id] in ops0
    && var op := ops0[nv[id]];
    && (g.nodes[id].op == RetOp || g.nodes[id].op == DeviceRetOp ==>
          && op.region.IslandRegion? && |op.region.inner.operands| == 1
          && v == op.region.inner.operands[0] && nv[id] !in ops)
    && (g.nodes[id].op != RetOp && g.nodes[id].op != DeviceRetOp ==>
          0 <= rn.index < |op.types| && v == OpResult(nv[id], rn.index))
  }

  /** A _Retval or _DeviceRetval node whose island wraps an operation with
      other than one operand. */
  predicate MultiOperandRet(g: Graph, nv: map<nat, nat>, ops0: map<nat, Op>, rn: OutputTensor) {
    var id := rn.node;
    && id in g.nodes && (g.nodes[id].op == RetOp || g.nodes[id].op == DeviceRetOp)
    && id in nv && nv[id] in ops0 && ops0[nv[id]].region.IslandRegion?
    && |ops0[nv[id]].region.inner.operands| != 1
  }

  /** The first k return nodes fetched. */
  predicate RetsFetched(g: Graph, nv: map<nat, nat>, ops0: map<nat, Op>, ops: map<nat, Op>,
                        retNodes: seq<OutputTensor>, fetch: seq<Value>, k: nat) {
    k <= |retNodes| && |fetch| == k && forall j :: 0 <= j < k ==> RetFetched(g, nv, ops0, ops, retNodes[j], fetch[j])
  }

  /** Fetching one more return node while operations are only erased. */
  lemma RetsFetchedStep(g: Graph, nv: map<nat, nat>, ops0: map<nat, Op>, ops: map<nat, Op>, ops': map<nat, Op>,
                        retNodes: seq<OutputTensor>, fetch: seq<Value>, k: nat, v: Value)
    requires RetsFetched(g, nv, ops0, ops, retNodes, fetch, k) && k < |retNodes|
    requires ops'.Keys <= ops.Keys && RetFetched(g, nv, ops0, ops', retNodes[k], v)
    ensures RetsFetched(g, nv, ops0, ops', retNodes, fetch + [v], k + 1)
  {
    forall j | 0 <= j < k + 1 ensures RetFetched(g, nv, ops0, ops', retNodes[j], (fetch + [v])[j]) {
      if j < k {
        assert RetFetched(g, nv, ops0, ops, retNodes[j], fetch[j]);
      }
    }
  }

  /** The values ConvertFunctionArgAndRets fetched, from the wired body w to
      the final operations ops: the return nodes' values (RetsFetched), then,
      for each control return node, the last result of its operation. */
  predicate Fetched(g: Graph, nv: map<nat, nat>, w: Body, ops: map<nat, Op>,
                    retNodes: seq<OutputTensor>, controlRetNodes: seq<nat>, fetch: seq<Value>) {
    && |fetch| == |retNodes| + |controlRetNodes|
    && RetsFetched(g, nv, w.ops, ops, retNodes, fetch[..|retNodes|], |retNodes|)
    && forall j | 0 <= j < |controlRetNodes| ::
         && controlRetNodes[j] in nv && nv[controlRetNodes[j]] in ops && |ops[nv[controlRetNodes[j]]].types| > 0
         && fetch[|retNodes| + j] == OpResult(nv[controlRetNodes[j]], |ops[nv[controlRetNodes[j]]].types| - 1)
  }

  /** An importer for one function graph. */
  class Importer {
    const library: Library
    const specs: Specs
    const irModule: Module
    const env: Env
    /** The graph being imported, without its back edges. */
    var graph: ValidGraph
    /** The node ids in reverse post order. */
    var orderedNodes: seq<nat>
    /** For a node that is the source of a back edge, the output that edge left from. */
    var backEdgeNodeOutput: map<nat, int>
    /** For a node that is the destination of a back edge, that edge. */
    var backEdgeDstInputs: map<nat, Edge>
    var refiner: ShapeRefiner
    /** The operation each converted node became. */
    var nodeValues: map<nat, nat>
    /** The graph body: operations by id, in block order. */
    var ops: map<nat, Op>
    var block: seq<nat>
    var nextOpId: nat

    /** Operation ids are allocated upwards. */
    ghost predicate Valid()
      reads this
    {
      forall id | id in ops :: id < nextOpId
    }


    constructor(library: Library, specs: Specs, irModule: Module, env: Env)
      ensures this.library == library && this.specs == specs && this.irModule == irModule && this.env == env
      ensures orderedNodes == [] && backEdgeNodeOutput == map[] && backEdgeDstInputs == map[]
      ensures nodeValues == map[] && ops == map[] && block == [] && nextOpId == 0
      ensures fresh(refiner) && refiner.contexts == map[] && Valid()
    {
      this.library := library;
      this.specs := specs;
      this.irModule := irModule;
      this.env := env;
      graph := Graph(map[], [], 0);
      orderedNodes := [];
      backEdgeNodeOutput := map[];
      backEdgeDstInputs := map[];
      refiner := new ShapeRefiner(env.addNode, env.updateNode);
      nodeValues := map[];
      ops := map[];
      block := [];
      nextOpId := 0;
    }

    /** RemoveBackedges: the graph is cloned without its back edges; every
        removed edge is recorded (a source leaving by two different outputs is
        an error), and the nodes are put in reverse post order. */
    method RemoveBackedges(g: Graph) returns (s: Status)
      modifies this`graph, this`backEdgeNodeOutput, this`backEdgeDstInputs, this`orderedNodes
      ensures var c := env.cloneAndRemoveBackEdges(g);
        c.Failure? ==> s == Error(c.code, c.msg)
      ensures var c := env.cloneAndRemoveBackEdges(g);
        c.Success? ==>
          var rec := Record(c.value.1, 0, old(backEdgeNodeOutput), old(backEdgeDstInputs));
          && graph == c.value.0
          && (rec.Failure? ==> s == Error(FailedPrecondition, ConflictMsg))
          && (rec.Success? ==> s == Ok && backEdgeNodeOutput == rec.value.0 && backEdgeDstInputs == rec.value.1
                                && orderedNodes == env.reversePostOrder(graph))
    {
      var c := env.cloneAndRemoveBackEdges(g);
      if c.Failure? {
        return Error(c.code, c.msg);
      }
      graph := c.value.0;
      var removed := c.value.1;
      ghost var goal := Record(removed, 0, backEdgeNodeOutput, backEdgeDstInputs);
      var k := 0;
      while k < |removed|
        invariant 0 <= k <= |removed|
        invariant graph == c.value.0
        invariant goal == Record(removed, k, backEdgeNodeOutput, backEdgeDstInputs)
      {
        var e := removed[k];
        if e.src in backEdgeNodeOutput && backEdgeNodeOutput[e.src] != e.srcOutput {
          return Error(FailedPrecondition, ConflictMsg);
        }
        backEdgeNodeOutput := backEdgeNodeOutput[e.src := e.srcOutput];
        backEdgeDstInputs := backEdgeDstInputs[e.dst := e];
        k := k + 1;
      }
      orderedNodes := env.reversePostOrder(graph);
      return Ok;
    }

    /** The `_output_shapes` loop: output i of the node's context gets shape i. */
    method SetOutputShapes(id: nat, shapes: seq<ShapeProto>) returns (s: Status)
      modifies refiner
      ensures s == Ok ==> refiner.contexts.Keys == old(refiner.contexts).Keys
      ensures s == Ok ==> forall k | k in old(refiner.contexts) && k != id :: refiner.contexts[k] == old(refiner.contexts)[k]
      ensures s == Ok ==> ShapesSet(refiner.contexts, id, shapes, |shapes|, env.makeShape)
    {
      var i := 0;
      while i < |shapes|
        invariant 0 <= i <= |shapes|
        invariant refiner.contexts.Keys == old(refiner.contexts).Keys
        invariant forall k | k in old(refiner.contexts) && k != id :: refiner.contexts[k] == old(refiner.contexts)[k]
        invariant i > 0 ==> id in refiner.contexts
        invariant id in refiner.contexts ==> |refiner.contexts[id].outputs| == |old(refiner.contexts)[id].outputs|
        invariant ShapesSet(refiner.contexts, id, shapes, i, env.makeShape)
      {
        var h := env.makeShape(shapes[i]);
        if h.Failure? {
          return Error(h.code, h.msg);
        }
        s := refiner.SetOutput(id, i, h.value);
        if s.Error? {
          return;
        }
        i := i + 1;
      }
      return Ok;
    }

    /** The shapes a node's attributes pin down once it is in the refiner:
        every `_output_shapes` entry of a ReadVariableOp, and output 0 of an
        `_Arg` (its `shape` attribute, else the unknown shape). */
    method AnnotateShapes(n: Node) returns (s: Status)
      modifies refiner
      ensures s == Ok ==> refiner.contexts.Keys == old(refiner.contexts).Keys
      ensures s == Ok ==> forall k | k in old(refiner.contexts) && k != n.id :: refiner.contexts[k] == old(refiner.contexts)[k]
      ensures n.op != ReadVariableOp && n.op != ArgOp ==> s == Ok && refiner.contexts == old(refiner.contexts)
      ensures s == Ok && n.op == ReadVariableOp && Lookup(n.attrs, OutputShapesAttr).Some? ==>
        var shapes := ListOf(Lookup(n.attrs, OutputShapesAttr).value).shapes;
        ShapesSet(refiner.contexts, n.id, shapes, |shapes|, env.makeShape)
      ensures s == Ok && n.op == ArgOp ==>
        && n.id in refiner.contexts && |refiner.contexts[n.id].outputs| > 0
        && (Lookup(n.attrs, "shape").None? ==> refiner.contexts[n.id].outputs[0] == env.unknownShape)
        && (Lookup(n.attrs, "shape").Some? ==>
              var h := env.makeShape(ShapeOf(Lookup(n.attrs, "shape").value));
              h.Success? && refiner.contexts[n.id].outputs[0] == h.value)
    {
      s := Ok;
      if n.op == ReadVariableOp {
        var a := Lookup(n.attrs, OutputShapesAttr);
        if a.Some? {
          s := SetOutputShapes(n.id, ListOf(a.value).shapes);
        }
      } else if n.op == ArgOp {
        var a := Lookup(n.attrs, "shape");
        if a.Some? {
          var h := env.makeShape(ShapeOf(a.value));
          if h.Failure? {
            return Error(h.code, h.msg);
          }
          s := refiner.SetOutput(n.id, 0, h.value);
        } else {
          s := refiner.SetOutput(n.id, 0, env.unknownShape);
        }
      }
    }

    /** The graph side of one turn of the seeding loop: a declared input gets
        its declared shape and dtype, in place when it is placeholder-like,
        otherwise by a Placeholder in its stead (refused when the input has
        several outputs). `n` is the node that goes on to the refiner. */
    method SeedInput(id: nat) returns (s: Status, n: Node)
      modifies this`graph
      ensures s == Ok ==> id in old(graph).nodes && SeededNode(old(graph), id, specs.inputs, graph, n.id)
      ensures s == Ok ==> n.id in graph.nodes && graph.nodes[n.id] == n
      ensures s.Error? && id in old(graph).nodes && Lookup(specs.inputs, old(graph).nodes[id].name).Some?
              && !PlaceholderLike(old(graph).nodes[id].op) && old(graph).nodes[id].numOutputs > 1 ==>
        s == Error(FailedPrecondition, MultiOutputInputMsg + old(graph).nodes[id].op)
      ensures id !in old(graph).nodes ==> s.Error? && s.code == Internal
    {
      if id !in graph.nodes {
        return Error(Internal, "ordered node is not in the graph"), Node(id, "", "", SourceNode, 0, [], "");
      }
      n := graph.nodes[id];
      var l := Lookup(specs.inputs, n.name);
      if l.Some? {
        var info := l.value;
        if !PlaceholderLike(n.op) {
          if n.numOutputs > 1 {
            return Error(FailedPrecondition, MultiOutputInputMsg + n.op), n;
          }
          graph, n := ReplaceWithPlaceholderNode(graph, info.shape, info.dtype, n);
        } else {
          n := WithInputAttrs(n, info);
          graph := WithNode(graph, n);
        }
      }
      return Ok, n;
    }

    /** One turn of the seeding loop: the graph side (SeedInput), then the
        node is added to the refiner and its attribute-given shapes are set. */
    method SeedNode(id: nat) returns (s: Status, nid: nat)
      modifies this`graph, refiner
      ensures s == Ok ==> id in old(graph).nodes && SeededNode(old(graph), id, specs.inputs, graph, nid)
      ensures s == Ok ==> refiner.contexts.Keys == old(refiner.contexts).Keys + {nid}
      ensures s == Ok ==> nid in graph.nodes && refiner.addNode(old(refiner.contexts), graph.nodes[nid]).Success?
      ensures s.Error? && id in old(graph).nodes && Lookup(specs.inputs, old(graph).nodes[id].name).Some?
              && !PlaceholderLike(old(graph).nodes[id].op) && old(graph).nodes[id].numOutputs > 1 ==>
        s == Error(FailedPrecondition, MultiOutputInputMsg + old(graph).nodes[id].op)
      ensures id !in old(graph).nodes ==> s.Error? && s.code == Internal
    {
      var n;
      s, n := SeedInput(id);
      nid := n.id;
      if s.Error? {
        return;
      }
      s := refiner.AddNode(n);
      if s.Error? {
        return;
      }
      s := AnnotateShapes(n);
    }

    /** The first loop of AddNodesToShapeRefiner, over the nodes in order. */
    method SeedShapeRefiner() returns (s: Status)
      modifies this`graph, refiner
      ensures s == Ok ==> graph.nextId >= old(graph).nextId
      ensures s == Ok ==> Seeded(graph, specs.inputs, Visited(orderedNodes), old(graph).nextId, refiner.contexts)
      ensures s == Ok ==> ReplacedInputs(old(graph), graph, specs.inputs, Visited(orderedNodes))
      ensures s == Ok ==> Untouched(old(graph), graph, Visited(orderedNodes))
    {
      var k := 0;
      ghost var visited: set<nat> := {};
      while k < |orderedNodes|
        invariant 0 <= k <= |orderedNodes| && visited == Visited(orderedNodes[..k])
        invariant graph.nextId >= old(graph).nextId
        invariant Seeded(graph, specs.inputs, visited, old(graph).nextId, refiner.contexts)
        invariant ReplacedInputs(old(graph), graph, specs.inputs, visited)
        invariant Untouched(old(graph), graph, visited)
      {
        ghost var g, ctxs := graph, refiner.contexts;
        var nid;
        s, nid := SeedNode(orderedNodes[k]);
        if s.Error? {
          return;
        }
        SeedStep(old(graph), g, graph, specs.inputs, visited, orderedNodes[k], nid, ctxs, refiner.contexts);
        VisitedSnoc(orderedNodes, k);
        visited := visited + {orderedNodes[k]};
        k := k + 1;
      }
      assert orderedNodes[..k] == orderedNodes;
      return Ok;
    }

    /** AddNodesToShapeRefiner: a fresh refiner is seeded node by node, the
        graph is fixed up and optionally pruned, the nodes are put in reverse
        post order again, and shapes are refined to the bounded fixpoint. */
    method AddNodesToShapeRefiner() returns (s: Status, ghost seeded: ValidGraph, ghost seededCtxs: Contexts,
                                             ghost pruneStart: Option<set<string>>)
      modifies this`refiner, this`graph, this`orderedNodes
      ensures fresh(refiner) && refiner.addNode == env.addNode && refiner.updateNode == env.updateNode
      ensures s == Ok ==> var visited := Visited(old(orderedNodes));
        && Seeded(seeded, specs.inputs, visited, old(graph).nextId, seededCtxs)
        && ReplacedInputs(old(graph), seeded, specs.inputs, visited)
        && Untouched(old(graph), seeded, visited)
      ensures s == Ok ==> (pruneStart.Some? <==> specs.pruneUnusedNodes)
      ensures s == Ok && pruneStart.Some? ==>
        var names := InputNames(specs.inputs) + specs.outputArrays;
        && pruneStart.value == (set i | 0 <= i < |names| :: names[i])
        && forall i :: 0 <= i < |names| ==> HasNodeNamed(env.fixupSourceAndSinkEdges(seeded), names[i])
      ensures s == Ok ==> graph == PreparedGraph(env, seeded, pruneStart) && orderedNodes == env.reversePostOrder(graph)
      ensures s == Ok ==> NodesOf(graph, orderedNodes).Some?
      ensures s == Ok ==> var f := Fixpoint(seededCtxs, NodesOf(graph, orderedNodes).value, 0, true, env.updateNode);
        f.Success? && refiner.contexts == f.value.0
    {
      refiner := new ShapeRefiner(env.addNode, env.updateNode);
      pruneStart := None;
      s := SeedShapeRefiner();
      seeded, seededCtxs := graph, refiner.contexts;
      if s.Error? {
        return;
      }
      graph := env.fixupSourceAndSinkEdges(graph);
      if specs.pruneUnusedNodes {
        var start := GetInputOutputNodes(graph, specs);
        if start.Failure? {
          return Error(start.code, start.msg), seeded, seededCtxs, pruneStart;
        }
        pruneStart := Some(start.value);
        if start.value != {} {
          graph := env.pruneForReverseReachability(graph, start.value);
        }
      }
      orderedNodes := env.reversePostOrder(graph);
      var order := NodesOf(graph, orderedNodes);
      if order.None? {
        return Error(Internal, "ordered node is not in the graph"), seeded, seededCtxs, pruneStart;
      }
      var rounds;
      s, rounds := RefineToFixpoint(refiner, order.value);
    }

    /** PrepareConvert: RemoveBackedges, then AddNodesToShapeRefiner. */
    method PrepareConvert(g: Graph) returns (s: Status)
      modifies this`graph, this`backEdgeNodeOutput, this`backEdgeDstInputs, this`orderedNodes, this`refiner
      ensures s == Ok ==>
        var c := env.cloneAndRemoveBackEdges(g);
        && c.Success?
        && var rec := Record(c.value.1, 0, old(backEdgeNodeOutput), old(backEdgeDstInputs));
        && rec.Success? && backEdgeNodeOutput == rec.value.0 && backEdgeDstInputs == rec.value.1
      ensures s == Ok ==> fresh(refiner) && refiner.updateNode == env.updateNode
      ensures s == Ok ==> NodesOf(graph, orderedNodes).Some? && orderedNodes == env.reversePostOrder(graph)
    {
      s := RemoveBackedges(g);
      if s.Error? {
        return;
      }
      ghost var seeded, ctxs, start;
      s, seeded, ctxs, start := AddNodesToShapeRefiner();
    }

    /** InferLibFunctionType: argument types are output 0 of the _Arg nodes,
        result types input 0 of the _Retval nodes, both as the refiner inferred
        them; the first failure is returned. */
    method InferLibFunctionType(body: FunctionBody) returns (r: Result<FuncType>)
      ensures r.Success? <==>
        && (forall i :: 0 <= i < |body.argNodes| ==> ArgType(graph, refiner.contexts, body.argNodes[i], env.convertDataType).Success?)
        && (forall i :: 0 <= i < |body.retNodes| ==> RetType(graph, refiner.contexts, body.retNodes[i], env.convertDataType).Success?)
      ensures r.Success? ==> |r.value.inputs| == |body.argNodes| && forall i :: 0 <= i < |body.argNodes| ==>
        r.value.inputs[i] == TensorTy(ArgType(graph, refiner.contexts, body.argNodes[i], env.convertDataType).value)
      ensures r.Success? ==> |r.value.results| == |body.retNodes| && forall i :: 0 <= i < |body.retNodes| ==>
        r.value.results[i] == TensorTy(RetType(graph, refiner.contexts, body.retNodes[i], env.convertDataType).value)
    {
      var argTypes :- LibArgTypes(body.argNodes);
      var retTypes :- LibRetTypes(body.retNodes);
      return Success(FuncType(argTypes, retTypes));
    }

    /** The loop of InferLibFunctionType over the argument nodes. */
    method LibArgTypes(argNodes: seq<nat>) returns (r: Result<seq<Type>>)
      ensures r.Success? <==> forall i :: 0 <= i < |argNodes| ==> ArgType(graph, refiner.contexts, argNodes[i], env.convertDataType).Success?
      ensures r.Success? ==> |r.value| == |argNodes| && forall i :: 0 <= i < |argNodes| ==>
        r.value[i] == TensorTy(ArgType(graph, refiner.contexts, argNodes[i], env.convertDataType).value)
    {
      var argTypes: seq<Type> := [];
      var i := 0;
      while i < |argNodes|
        invariant 0 <= i <= |argNodes| && |argTypes| == i
        invariant forall j :: 0 <= j < i ==> ArgType(graph, refiner.contexts, argNodes[j], env.convertDataType).Success?
        invariant forall j :: 0 <= j < i ==>
          argTypes[j] == TensorTy(ArgType(graph, refiner.contexts, argNodes[j], env.convertDataType).value)
      {
        var t := ArgType(graph, refiner.contexts, argNodes[i], env.convertDataType);
        if t.Failure? {
          return Failure(t.code, t.msg);
        }
        argTypes := argTypes + [TensorTy(t.value)];
        i := i + 1;
      }
      return Success(argTypes);
    }

    /** The loop of InferLibFunctionType over the result nodes. */
    method LibRetTypes(retNodes: seq<nat>) returns (r: Result<seq<Type>>)
      ensures r.Success? <==> forall i :: 0 <= i < |retNodes| ==> RetType(graph, refiner.contexts, retNodes[i], env.convertDataType).Success?
      ensures r.Success? ==> |r.value| == |retNodes| && forall i :: 0 <= i < |retNodes| ==>
        r.value[i] == TensorTy(RetType(graph, refiner.contexts, retNodes[i], env.convertDataType).value)
    {
      var retTypes: seq<Type> := [];
      var i := 0;
      while i < |retNodes|
        invariant 0 <= i <= |retNodes| && |retTypes| == i
        invariant forall j :: 0 <= j < i ==> RetType(graph, refiner.contexts, retNodes[j], env.convertDataType).Success?
        invariant forall j :: 0 <= j < i ==>
          retTypes[j] == TensorTy(RetType(graph, refiner.contexts, retNodes[j], env.convertDataType).value)
      {
        var t := RetType(graph, refiner.contexts, retNodes[i], env.convertDataType);
        if t.Failure? {
          return Failure(t.code, t.msg);
        }
        retTypes := retTypes + [TensorTy(t.value)];
        i := i + 1;
      }
      return Success(retTypes);
    }

    /** The loop of AddBackedge over the old destination's results: every
        use of result i of `from` becomes a use of result i of `to`. */
    method RedirectUses(from: nat, to: nat, count: nat)
      requires from != to
      modifies this`ops
      ensures ops == RedirectAll(old(ops), from, to, count)
    {
      ghost var ops0 := ops;
      RedirectNone(ops0, from, to);
      var i := 0;
      while i < count
        invariant 0 <= i <= count
        invariant ops == RedirectAll(ops0, from, to, i)
      {
        RedirectStep(ops0, from, to, i);
        ops := ReplaceAllUses(ops, OpResult(from, i), OpResult(to, i));
        i := i + 1;
      }
    }

    /** AddBackedge: the destination is rebuilt, in front of the old one, with
        the NextIteration source's result 0 spliced in at `dstInput`; every use
        of a result of the old destination moves to the same result of the new
        one, and the old destination is erased. */
    method AddBackedge(sinkId: nat, dstId: nat, dstInput: int) returns (s: Status)
      requires Valid()
      modifies this`ops, this`block, this`nextOpId
      ensures Valid()
      ensures s.Error? ==> s.code == Internal && ops == old(ops) && block == old(block) && nextOpId == old(nextOpId)
      ensures s == Ok <==>
        && sinkId in old(ops) && |old(ops)[sinkId].operands| > 0 && old(ops)[sinkId].operands[0].OpResult?
        && dstId in old(ops) && 0 <= dstInput <= |old(ops)[dstId].operands|
      ensures s == Ok ==>
        var d, newId := old(ops)[dstId], old(nextOpId);
        var src := old(ops)[sinkId].operands[0].op;
        && nextOpId == newId + 1
        && ops == RedirectAll(old(ops)[newId := Rebuilt(d, dstInput, src)], dstId, newId, |d.types|) - {dstId}
        && block == Erase(InsertBefore(old(block), dstId, newId), dstId)
      ensures s == Ok ==> forall i :: 0 <= i < |old(ops)[dstId].types| ==> NoUses(ops, OpResult(dstId, i))
      ensures s == BackedgeCheck(old(ops), sinkId, dstId, dstInput)
      ensures s == Ok ==> Body(ops, block, nextOpId) == Restored(old(Body(ops, block, nextOpId)), sinkId, dstId, dstInput)
    {
      if sinkId !in ops {
        return Error(Internal, "back edge source has no operation");
      }
      var sink := ops[sinkId];
      if |sink.operands| == 0 || !sink.operands[0].OpResult? {
        return Error(Internal, "NextIteration sink has no token operand");
      }
      var src := sink.operands[0].op;
      if dstId !in ops {
        return Error(Internal, "back edge destination has no operation");
      }
      var d := ops[dstId];
      if !(0 <= dstInput <= |d.operands|) {
        return Error(Internal, "back edge input out of range of the destination's operands");
      }
      var operands := SpliceOperand(d.operands, dstInput, OpResult(src, 0));
      ReplaceOperation(dstId, Op(d.name, operands, d.types, d.attrs, NoRegion));
      return Ok;
    }

    /** The second half of AddBackedge: the new operation is inserted in
        front of the old one, takes over the uses of its results, and the old
        one is erased. */
    method ReplaceOperation(oldId: nat, op: Op)
      requires Valid() && oldId in ops
      modifies this`ops, this`block, this`nextOpId
      ensures Valid()
      ensures var newId := old(nextOpId);
        && nextOpId == newId + 1
        && ops == RedirectAll(old(ops)[newId := op], oldId, newId, |op.types|) - {oldId}
        && block == Erase(InsertBefore(old(block), oldId, newId), oldId)
      ensures forall i :: 0 <= i < |op.types| ==> NoUses(ops, OpResult(oldId, i))
    {
      var newId := nextOpId;
      ops := ops[newId := op];
      block := InsertBefore(block, oldId, newId);
      nextOpId := nextOpId + 1;
      ghost var ops1 := ops;
      RedirectUses(oldId, newId, |op.types|);
      forall j | 0 <= j < |op.types| ensures NoUses(ops - {oldId}, OpResult(oldId, j)) {
        RedirectRemovesUses(ops1, oldId, newId, |op.types|, j);
        NoUsesWithout(ops, OpResult(oldId, j), oldId);
      }
      ops := ops - {oldId};
      block := Erase(block, oldId);
    }

    /** AddBackedges: every recorded back edge must run from a NextIteration
        to a Merge, and is restored between their operations. The recorded
        destinations are visited in an order the model does not fix; `order`
        is the one taken, and the body afterwards is RestoreAll over it. */
    method AddBackedges() returns (s: Status, ghost order: seq<nat>)
      requires Valid()
      modifies this`ops, this`block, this`nextOpId
      ensures Valid()
      ensures forall d | d in order :: d in backEdgeDstInputs
      ensures forall i, j | 0 <= i < j < |order| :: order[i] != order[j]
      ensures s == Ok ==> forall d | d in backEdgeDstInputs :: d in order
      ensures s == RestoreAll(graph, nodeValues, backEdgeDstInputs, old(Body(ops, block, nextOpId)), order).ToStatus()
      ensures s == Ok ==> Body(ops, block, nextOpId) == RestoreAll(graph, nodeValues, backEdgeDstInputs, old(Body(ops, block, nextOpId)), order).value
      ensures s == Ok ==> forall d | d in backEdgeDstInputs :: ValidBackEdge(graph, backEdgeDstInputs[d])
      ensures s.Error? && s.code == FailedPrecondition ==>
        s.msg == InvalidBackedgeMsg && exists d | d in backEdgeDstInputs :: !ValidBackEdge(graph, backEdgeDstInputs[d])
    {
      ghost var b0 := Body(ops, block, nextOpId);
      var remaining := backEdgeDstInputs.Keys;
      order := [];
      while remaining != {}
        invariant Valid()
        invariant remaining <= backEdgeDstInputs.Keys
        invariant forall d | d in order :: d in backEdgeDstInputs && d !in remaining
        invariant forall d | d in backEdgeDstInputs && d !in remaining :: d in order
        invariant forall i, j | 0 <= i < j < |order| :: order[i] != order[j]
        invariant RestoreAll(graph, nodeValues, backEdgeDstInputs, b0, order) == Success(Body(ops, block, nextOpId))
        decreases remaining
      {
        var d :| d in remaining;
        RestoreAllSnoc(graph, nodeValues, backEdgeDstInputs, b0, order, d);
        s := AddRecordedBackedge(d);
        order := order + [d];
        if s.Error? {
          RestoreAllChecked(graph, nodeValues, backEdgeDstInputs, b0, order);
          return;
        }
        remaining := remaining - {d};
      }
      RestoreAllChecked(graph, nodeValues, backEdgeDstInputs, b0, order);
      return Ok, order;
    }

    /** One turn of the loop of AddBackedges: the back edge recorded for
        destination d is checked and then added. */
    method AddRecordedBackedge(d: nat) returns (s: Status)
      requires Valid() && d in backEdgeDstInputs
      modifies this`ops, this`block, this`nextOpId
      ensures Valid()
      ensures s == RestoreOne(graph, nodeValues, backEdgeDstInputs[d], old(Body(ops, block, nextOpId))).ToStatus()
      ensures s == Ok ==> Body(ops, block, nextOpId) == RestoreOne(graph, nodeValues, backEdgeDstInputs[d], old(Body(ops, block, nextOpId))).value
      ensures s.Error? ==> ops == old(ops) && block == old(block) && nextOpId == old(nextOpId)
      ensures s == Ok ==> ValidBackEdge(graph, backEdgeDstInputs[d])
      ensures s.Error? && s.code == FailedPrecondition ==>
        s.msg == InvalidBackedgeMsg && !ValidBackEdge(graph, backEdgeDstInputs[d])
    {
      var e := backEdgeDstInputs[d];
      if !ValidBackEdge(graph, e) {
        return Error(FailedPrecondition, InvalidBackedgeMsg);
      }
      if e.src !in nodeValues || e.dst !in nodeValues {
        return Error(Internal, "back edge node was not converted");
      }
      s := AddBackedge(nodeValues[e.src], nodeValues[e.dst], e.dstInput);
    }

    /** One argument of ConvertFunctionArgAndRets. The island of an _Arg node
        is replaced by block argument i (its result 0 everywhere) and erased;
        the operation an island wraps for any other input node is replaced by
        its `.input` operation, whose result `index` the island then yields
        in place of every result of the old one. */
    method WireArgument(i: nat, a: OutputTensor) returns (s: Status)
      requires Valid()
      modifies this`ops, this`block
      ensures Valid()
      ensures s == Ok <==> WireReady(graph, nodeValues, a, old(Body(ops, block, nextOpId)))
      ensures s.Error? ==> s.code == Internal && ops == old(ops) && block == old(block)
      ensures s == Ok ==> WireTurn(graph, nodeValues, i, a, old(Body(ops, block, nextOpId)), Body(ops, block, nextOpId))
      ensures s == Ok && graph.nodes[a.node].IsArg() ==> NoUses(ops, OpResult(nodeValues[a.node], 0))
    {
      if a.node !in graph.nodes || a.node !in nodeValues {
        return Error(Internal, "argument node was not converted");
      }
      var x := nodeValues[a.node];
      if x !in ops || !ops[x].region.IslandRegion? {
        return Error(Internal, "argument node is not an island");
      }
      var isl := ops[x];
      if graph.nodes[a.node].IsArg() {
        ReplaceAllUsesRemovesUses(ops, OpResult(x, 0), BlockArg(i));
        ops := ReplaceAllUses(ops, OpResult(x, 0), BlockArg(i));
        NoUsesWithout(ops, OpResult(x, 0), x);
        ops := ops - {x};
        block := Erase(block, x);
        return Ok;
      }
      var inner := isl.region.inner;
      if !(0 <= a.index < |inner.types|) {
        return Error(Internal, "argument index out of range of the input operation's results");
      }
      ops := ops[x := Rewired(isl, i, a.index)];
      return Ok;
    }

    /** The argument loop of ConvertFunctionArgAndRets: one argument per type
        of the signature, each a turn of WireArgument; bodies records the body
        before the loop and after each turn. On failure the turns before the
        failing one are recorded, and the failing one had no argument node or
        an argument node WireArgument refuses. Afterwards no island of an _Arg
        node is left and nothing uses its result 0. */
    method ConvertArgs(argTypes: seq<Type>, argNodes: seq<OutputTensor>) returns (s: Status, ghost bodies: seq<Body>)
      requires Valid()
      modifies this`ops, this`block
      ensures Valid() && |bodies| > 0 && bodies[0] == old(Body(ops, block, nextOpId))
      ensures s == Ok ==>
        && WireTrace(graph, nodeValues, argNodes, bodies, |argTypes|) && |bodies| == |argTypes| + 1
        && bodies[|argTypes|] == Body(ops, block, nextOpId)
      ensures s.Error? ==>
        && s.code == Internal
        && var k := |bodies| - 1;
        && k < |argTypes| && WireTrace(graph, nodeValues, argNodes, bodies, k)
        && (k == |argNodes| || !WireReady(graph, nodeValues, argNodes[k], bodies[k]))
      ensures s == Ok ==> forall j :: 0 <= j < |argTypes| ==>
        && argNodes[j].node in graph.nodes && argNodes[j].node in nodeValues
        && (graph.nodes[argNodes[j].node].IsArg() ==>
              nodeValues[argNodes[j].node] !in ops && NoUses(ops, OpResult(nodeValues[argNodes[j].node], 0)))
    {
      bodies := [Body(ops, block, nextOpId)];
      var i := 0;
      while i < |argTypes|
        invariant 0 <= i <= |argTypes| && Valid()
        invariant |bodies| == i + 1 && bodies[0] == old(Body(ops, block, nextOpId)) && bodies[i] == Body(ops, block, nextOpId)
        invariant WireTrace(graph, nodeValues, argNodes, bodies, i)
        invariant forall j :: 0 <= j < i ==>
          && argNodes[j].node in graph.nodes && argNodes[j].node in nodeValues
          && (graph.nodes[argNodes[j].node].IsArg() ==>
                nodeValues[argNodes[j].node] !in ops && NoUses(ops, OpResult(nodeValues[argNodes[j].node], 0)))
      {
        if i >= |argNodes| {
          s := Error(Internal, "fewer argument nodes than argument types");
          return;
        }
        ghost var before := ops;
        s := WireArgument(i, argNodes[i]);
        if s.Error? {
          return;
        }
        forall j | 0 <= j < i && graph.nodes[argNodes[j].node].IsArg()
          ensures nodeValues[argNodes[j].node] !in ops && NoUses(ops, OpResult(nodeValues[argNodes[j].node], 0))
        {
          var v := OpResult(nodeValues[argNodes[j].node], 0);
          var x := nodeValues[argNodes[i].node];
          if graph.nodes[argNodes[i].node].IsArg() {
            ReplaceKeepsNoUses(before, v, OpResult(x, 0), BlockArg(i));
            NoUsesWithout(ReplaceAllUses(before, OpResult(x, 0), BlockArg(i)), v, x);
          } else {
            InputStepKeepsNoUses(before, x, i, YieldOnly(argNodes[i].index, |before[x].region.results|), v);
          }
        }
        WireTraceSnoc(graph, nodeValues, argNodes, bodies, i, Body(ops, block, nextOpId));
        bodies := bodies + [Body(ops, block, nextOpId)];
        i := i + 1;
      }
      s := Ok;
    }

    /** The return loop of ConvertFunctionArgAndRets. A _Retval or
        _DeviceRetval node returns the single operand of the operation its
        island wraps (more operands are Unimplemented) and its island is
        erased; any other node returns its result at the given index. */
    method ConvertRets(retNodes: seq<OutputTensor>) returns (r: Result<seq<Value>>)
      requires Valid()
      modifies this`ops, this`block
      ensures Valid()
      ensures forall x | x in ops :: x in old(ops) && ops[x] == old(ops)[x]
      ensures r.Success? ==> RetsFetched(graph, nodeValues, old(ops), ops, retNodes, r.value, |retNodes|)
      ensures r.Failure? && r.code == Unimplemented ==>
        exists j :: 0 <= j < |retNodes| && MultiOperandRet(graph, nodeValues, old(ops), retNodes[j])
    {
      var fetch: seq<Value> := [];
      var k := 0;
      while k < |retNodes|
        invariant 0 <= k <= |retNodes| && Valid()
        invariant forall x | x in ops :: x in old(ops) && ops[x] == old(ops)[x]
        invariant RetsFetched(graph, nodeValues, old(ops), ops, retNodes, fetch, k)
      {
        ghost var before := ops;
        var v := FetchReturn(retNodes[k]);
        if v.Failure? {
          assert v.code == Unimplemented ==> MultiOperandRet(graph, nodeValues, old(ops), retNodes[k]);
          return Failure(v.code, v.msg);
        }
        RetsFetchedStep(graph, nodeValues, old(ops), before, ops, retNodes, fetch, k, v.value);
        fetch := fetch + [v.value];
        k := k + 1;
      }
      return Success(fetch);
    }

    /** One return node of ConvertRets. */
    method FetchReturn(rn: OutputTensor) returns (r: Result<Value>)
      requires Valid()
      modifies this`ops, this`block
      ensures Valid()
      ensures forall x | x in ops :: x in old(ops) && ops[x] == old(ops)[x]
      ensures r.Success? ==> RetFetched(graph, nodeValues, old(ops), ops, rn, r.value)
      ensures r.Failure? && r.code == Unimplemented ==> MultiOperandRet(graph, nodeValues, old(ops), rn)
    {
      var id := rn.node;
      if id !in graph.nodes || id !in nodeValues || nodeValues[id] !in ops {
        return Failure(Internal, "return node was not converted");
      }
      var x := nodeValues[id];
      var op := ops[x];
      var kind := graph.nodes[id].op;
      if kind == RetOp || kind == DeviceRetOp {
        if !op.region.IslandRegion? {
          return Failure(Internal, "return node is not an island");
        }
        if |op.region.inner.operands| != 1 {
          return Failure(Unimplemented, "Return node with multiple inputs.");
        }
        ops := ops - {x};
        block := Erase(block, x);
        return Success(op.region.inner.operands[0]);
      }
      if !(0 <= rn.index < |op.types|) {
        return Failure(Internal, "return index out of range of the operation's results");
      }
      return Success(OpResult(x, rn.index));
    }

    /** The control returns of ConvertFunctionArgAndRets: the last result (the
        control result) of each node's operation. */
    method ControlRets(controlRetNodes: seq<nat>) returns (r: Result<seq<Value>>)
      ensures r.Failure? ==> r.code == Internal
      ensures r.Success? <==> forall j :: 0 <= j < |controlRetNodes| ==>
        controlRetNodes[j] in nodeValues && nodeValues[controlRetNodes[j]] in ops && |ops[nodeValues[controlRetNodes[j]]].types| > 0
      ensures r.Success? ==> |r.value| == |controlRetNodes| && forall j :: 0 <= j < |controlRetNodes| ==>
        var x := nodeValues[controlRetNodes[j]];
        r.value[j] == OpResult(x, |ops[x].types| - 1)
    {
      var fetch: seq<Value> := [];
      var k := 0;
      while k < |controlRetNodes|
        invariant 0 <= k <= |controlRetNodes| && |fetch| == k
        invariant forall j :: 0 <= j < k ==>
          controlRetNodes[j] in nodeValues && nodeValues[controlRetNodes[j]] in ops && |ops[nodeValues[controlRetNodes[j]]].types| > 0
        invariant forall j :: 0 <= j < k ==>
          var x := nodeValues[controlRetNodes[j]];
          fetch[j] == OpResult(x, |ops[x].types| - 1)
      {
        var id := controlRetNodes[k];
        if id !in nodeValues || nodeValues[id] !in ops || |ops[nodeValues[id]].types| == 0 {
          return Failure(Internal, "control return node has no operation with a control result");
        }
        var x := nodeValues[id];
        fetch := fetch + [OpResult(x, |ops[x].types| - 1)];
        k := k + 1;
      }
      return Success(fetch);
    }

    /** ConvertFunctionArgAndRets: the arguments are wired (ConvertArgs, whose
        trace of bodies is returned), then the values the graph body fetches
        are its returns followed by its control returns. */
    method ConvertFunctionArgAndRets(argTypes: seq<Type>, argNodes: seq<OutputTensor>, retNodes: seq<OutputTensor>,
                                     controlRetNodes: seq<nat>) returns (r: Result<seq<Value>>, ghost bodies: seq<Body>)
      requires Valid()
      modifies this`ops, this`block
      ensures Valid() && |bodies| > 0 && bodies[0] == old(Body(ops, block, nextOpId))
      ensures r.Success? ==>
        && WireTrace(graph, nodeValues, argNodes, bodies, |argTypes|) && |bodies| == |argTypes| + 1
        && var w := bodies[|argTypes|];
        && (forall x | x in ops :: x in w.ops && ops[x] == w.ops[x])
        && Fetched(graph, nodeValues, w, ops, retNodes, controlRetNodes, r.value)
      ensures r.Failure? && r.code == Unimplemented ==>
        && WireTrace(graph, nodeValues, argNodes, bodies, |argTypes|) && |bodies| == |argTypes| + 1
        && exists j :: 0 <= j < |retNodes| && MultiOperandRet(graph, nodeValues, bodies[|argTypes|].ops, retNodes[j])
    {
      var s;
      s, bodies := ConvertArgs(argTypes, argNodes);
      if s.Error? {
        return Failure(s.code, s.msg), bodies;
      }
      var rets := ConvertRets(retNodes);
      if rets.Failure? {
        return Failure(rets.code, rets.msg), bodies;
      }
      var controls := ControlRets(controlRetNodes);
      if controls.Failure? {
        return Failure(controls.code, controls.msg), bodies;
      }
      r := Success(rets.value + controls.value);
      assert r.value[..|retNodes|] == rets.value;
    }

    /** ConvertLibFunction: a function that already has a symbol name has been
        (or is being) converted, and nothing is done. Otherwise its symbol name
        is recorded first, so that a recursive reference stops there; then the
        definition is looked up, its attributes are converted, the stateful
        flag and the gradient function's symbol are added, and a child importer
        sharing the module and the name table converts its body. */
    method ConvertLibFunction(name: string) returns (s: Status)
      modifies irModule
      decreases PendingCount(library.defs.Keys, irModule.names), 0
      ensures Extends(old(irModule.names), irModule.names)
      ensures old(irModule.functions).Keys <= irModule.functions.Keys
      ensures name in old(irModule.names) ==>
        s == Ok && unchanged(irModule)
      ensures name !in old(irModule.names) ==>
        name in irModule.names && irModule.names[name] == env.uniqueFunctionName(name)
      ensures name !in old(irModule.names) && name !in library.defs ==>
        && s == Error(FailedPrecondition, MissingFunctionMsg(name))
        && irModule.names == old(irModule.names)[name := env.uniqueFunctionName(name)]
        && unchanged(irModule`functions)
      ensures s == Ok ==> name in irModule.names
      ensures s == Ok && name !in old(irModule.names) ==>
        && name in library.defs
        && var symbol := irModule.names[name];
        && symbol in irModule.functions
        && irModule.functions[symbol].name == symbol
        && LibFunctionAttrs(library, name, library.defs[name], irModule.names, env.convertTensor, env.mangleAttributeName)
           == Success(irModule.functions[symbol].attrs)
    {
      if name in irModule.names {
        return Ok;
      }
      var symbol := env.uniqueFunctionName(name);
      irModule.names := irModule.names[name := symbol];
      if name !in library.defs {
        assert irModule.names.Keys - {name} <= old(irModule.names).Keys;
        assert library.defs.Keys - irModule.names.Keys == library.defs.Keys - old(irModule.names).Keys;
        return Error(FailedPrecondition, MissingFunctionMsg(name));
      }
      var fdef := library.defs[name];
      var body := env.functionBody(fdef);
      if body.Failure? {
        return Error(body.code, body.msg);
      }
      PendingShrinks(library.defs.Keys, old(irModule.names), name, symbol, irModule.names);
      var attrs := ConvertLibFunctionAttrs(name, fdef);
      if attrs.Failure? {
        return Error(attrs.code, attrs.msg);
      }
      ghost var t := irModule.names;
      PendingShrinks(library.defs.Keys, old(irModule.names), name, symbol, irModule.names);
      s := ConvertFunctionBody(symbol, fdef, body.value, attrs.value);
      if s == Ok {
        LibFunctionAttrsStable(library, name, fdef, t, irModule.names, env.convertTensor, env.mangleAttributeName);
      }
    }

    /** The loop of ConvertLibFunction over the function's own attributes:
        each value converted, each name mangled. */
    method ConvertDefAttrs(defAttrs: seq<(string, AttrValue)>) returns (r: Result<seq<NamedAttr>>)
      modifies irModule
      decreases PendingCount(library.defs.Keys, irModule.names), 3
      ensures Extends(old(irModule.names), irModule.names)
      ensures old(irModule.functions).Keys <= irModule.functions.Keys
      ensures r.Success? ==> r == DefAttrs(defAttrs, irModule.names, env.convertTensor, env.mangleAttributeName)
    {
      var codec := env.convertTensor;
      var mangle := env.mangleAttributeName;
      var attrs: seq<NamedAttr> := [];
      var k := 0;
      while k < |defAttrs|
        invariant 0 <= k <= |defAttrs|
        invariant Extends(old(irModule.names), irModule.names)
        invariant old(irModule.functions).Keys <= irModule.functions.Keys
        invariant DefAttrs(defAttrs[..k], irModule.names, codec, mangle) == Success(attrs)
      {
        assert defAttrs[..k + 1][..k] == defAttrs[..k];
        ghost var t := irModule.names;
        PendingMonotone(library.defs.Keys, old(irModule.names), irModule.names);
        var a := ConvertAttributeValue(defAttrs[k].1);
        if a.Failure? {
          return Failure(a.code, a.msg);
        }
        DefAttrsStable(defAttrs[..k], t, irModule.names, codec, mangle);
        attrs := attrs + [NamedAttr(mangle(defAttrs[k].0), a.value)];
        k := k + 1;
      }
      assert defAttrs[..k] == defAttrs;
      return Success(attrs);
    }

    /** The attributes ConvertLibFunction gives a library function: its own,
        the stateful flag, and the symbol of its gradient, which is converted
        first. */
    method ConvertLibFunctionAttrs(name: string, fdef: FunctionDef) returns (r: Result<seq<NamedAttr>>)
      modifies irModule
      decreases PendingCount(library.defs.Keys, irModule.names), 4
      ensures Extends(old(irModule.names), irModule.names)
      ensures old(irModule.functions).Keys <= irModule.functions.Keys
      ensures r.Success? ==> r == LibFunctionAttrs(library, name, fdef, irModule.names, env.convertTensor, env.mangleAttributeName)
    {
      var codec := env.convertTensor;
      var mangle := env.mangleAttributeName;
      var own := ConvertDefAttrs(fdef.attrs);
      if own.Failure? {
        return Failure(own.code, own.msg);
      }
      var attrs := own.value;
      var stateful := if fdef.isStateful then [NamedAttr(StatefulAttrName, UnitAttr)] else [];
      var grad := FindGradient(library, name);
      if grad == "" {
        return Success(attrs + stateful);
      }
      ghost var t := irModule.names;
      PendingMonotone(library.defs.Keys, old(irModule.names), irModule.names);
      var s := ConvertLibFunction(grad);
      if s.Error? {
        return Failure(s.code, s.msg);
      }
      DefAttrsStable(fdef.attrs, t, irModule.names, codec, mangle);
      var gradSymbol := irModule.names[grad];
      if gradSymbol !in irModule.functions {
        return Failure(Internal, "gradient function '" + gradSymbol + "' is not in the module yet");
      }
      return Success(attrs + stateful + [NamedAttr(GradientAttrName, SymbolRefAttr(gradSymbol))]);
    }

    /** The body conversion of ConvertLibFunction: a child importer that
        shares the module and the name table, configured with the declared
        input shapes, prepares the body graph, infers the function type and
        converts the body under the function's symbol. */
    method ConvertFunctionBody(symbol: string, fdef: FunctionDef, body: FunctionBody, attrs: seq<NamedAttr>) returns (s: Status)
      modifies irModule
      decreases PendingCount(library.defs.Keys, irModule.names), 12
      ensures Extends(old(irModule.names), irModule.names)
      ensures old(irModule.functions).Keys <= irModule.functions.Keys
      ensures s == Ok ==>
        && symbol in irModule.functions && irModule.functions[symbol].name == symbol
        && irModule.functions[symbol].attrs == attrs
    {
      var childSpecs := SeedInputShapes(fdef);
      if childSpecs.Failure? {
        return Error(childSpecs.code, childSpecs.msg);
      }
      var child := new Importer(library, childSpecs.value, irModule, env);
      s := child.PrepareConvert(body.graph);
      if s.Error? {
        return;
      }
      var ft := child.InferLibFunctionType(body);
      if ft.Failure? {
        return Error(ft.code, ft.msg);
      }
      ghost var built, order, bodies;
      s, built, order, bodies := child.Convert(symbol, ft.value, OutputsZero(body.argNodes), OutputsZero(body.retNodes),
                                 body.controlRetNodes, attrs);
    }

    /** ConvertFunctionCallName: the function is converted on demand and
        referred to by its symbol, which must already be in the module. */
    method ConvertFunctionCallName(name: string) returns (r: Result<Attr>)
      modifies irModule
      decreases PendingCount(library.defs.Keys, irModule.names), 1
      ensures Extends(old(irModule.names), irModule.names)
      ensures old(irModule.functions).Keys <= irModule.functions.Keys
      ensures r.Success? ==>
        && name in irModule.names && irModule.names[name] in irModule.functions
        && r.value == SymbolRefAttr(irModule.names[name])
      ensures name !in library.defs && name !in old(irModule.names) ==> r.Failure? && r.code == FailedPrecondition
    {
      var s := ConvertLibFunction(name);
      if s.Error? {
        return Failure(s.code, s.msg);
      }
      var symbol := irModule.names[name];
      if symbol !in irModule.functions {
        return Failure(Internal, "function '" + symbol + "' is not in the module yet");
      }
      return Success(SymbolRefAttr(symbol));
    }

    /** ConvertAttributeValue: the attribute AttrSpec gives under the table as
        it stands afterwards; only the functions of a list are converted on
        demand, each before its nested attributes are refused. */
    method ConvertAttributeValue(v: AttrValue) returns (r: Result<Attr>)
      modifies irModule
      decreases PendingCount(library.defs.Keys, irModule.names), 2
      ensures Extends(old(irModule.names), irModule.names)
      ensures old(irModule.functions).Keys <= irModule.functions.Keys
      ensures !v.ListVal? ==>
        && unchanged(irModule) && r == AttrSpec(v, irModule.names, env.convertTensor)
      ensures r.Success? ==> r == AttrSpec(v, irModule.names, env.convertTensor)
    {
      var codec := env.convertTensor;
      if !v.ListVal? {
        return AttrSpec(v, irModule.names, codec);
      }
      var scalars := ScalarListAttrs(v.list, codec);
      if scalars.Failure? {
        return Failure(scalars.code, scalars.msg);
      }
      var funcs: seq<Attr> := [];
      var k := 0;
      while k < |v.list.funcs|
        invariant 0 <= k <= |v.list.funcs|
        invariant Extends(old(irModule.names), irModule.names)
        invariant old(irModule.functions).Keys <= irModule.functions.Keys
        invariant ListedFuncAttrs(v.list.funcs[..k], irModule.names) == Success(funcs)
      {
        assert v.list.funcs[..k + 1][..k] == v.list.funcs[..k];
        var f := v.list.funcs[k];
        ghost var t := irModule.names;
        PendingMonotone(library.defs.Keys, old(irModule.names), irModule.names);
        var symbol := ConvertFunctionCallName(f.name);
        if symbol.Failure? {
          return Failure(symbol.code, symbol.msg);
        }
        if |f.attrs| != 0 {
          return Failure(Unimplemented, "func attributes with non-zero attr.size()");
        }
        ListedFuncAttrsStable(v.list.funcs[..k], t, irModule.names);
        funcs := funcs + [symbol.value];
        k := k + 1;
      }
      assert v.list.funcs[..k] == v.list.funcs;
      return Success(ArrayAttr(scalars.value + funcs));
    }

    /** ConvertFunctionCallAttribute: the entry `base` with the function's
        symbol, then one entry `base.key` per nested attribute. */
    method ConvertFunctionCallAttribute(base: string, f: NameAttrList) returns (r: Result<seq<NamedAttr>>)
      modifies irModule
      decreases PendingCount(library.defs.Keys, irModule.names), 5
      ensures Extends(old(irModule.names), irModule.names)
      ensures old(irModule.functions).Keys <= irModule.functions.Keys
      ensures r.Success? ==> r == FuncAttrEntries(base, f, irModule.names, env.convertTensor)
    {
      var codec := env.convertTensor;
      var symbol := ConvertFunctionCallName(f.name);
      if symbol.Failure? {
        return Failure(symbol.code, symbol.msg);
      }
      var rest: seq<NamedAttr> := [];
      var k := 0;
      while k < |f.attrs|
        invariant 0 <= k <= |f.attrs|
        invariant Extends(old(irModule.names), irModule.names)
        invariant old(irModule.functions).Keys <= irModule.functions.Keys
        invariant f.name in irModule.names && symbol.value == SymbolRefAttr(irModule.names[f.name])
        invariant NestedEntries(base, f.attrs[..k], irModule.names, codec) == Success(rest)
      {
        assert f.attrs[..k + 1][..k] == f.attrs[..k];
        ghost var t := irModule.names;
        PendingMonotone(library.defs.Keys, old(irModule.names), irModule.names);
        var a := ConvertAttributeValue(f.attrs[k].1);
        if a.Failure? {
          return Failure(a.code, a.msg);
        }
        NestedEntriesStable(base, f.attrs[..k], t, irModule.names, codec);
        rest := rest + [NamedAttr(NestedName(base, f.attrs[k].0), a.value)];
        k := k + 1;
      }
      assert f.attrs[..k] == f.attrs;
      return Success([NamedAttr(base, symbol.value)] + rest);
    }

    /** ConvertNode's attribute loop over the non-function attributes, in
        iteration order; function attributes are set aside. */
    method ConvertPlainAttrs(attrs: seq<(string, AttrValue)>) returns (r: Result<seq<NamedAttr>>)
      modifies irModule
      decreases PendingCount(library.defs.Keys, irModule.names), 6
      ensures Extends(old(irModule.names), irModule.names)
      ensures old(irModule.functions).Keys <= irModule.functions.Keys
      ensures r.Success? ==> r == PlainAttrs(attrs, irModule.names, env.convertTensor)
    {
      var codec := env.convertTensor;
      var plain: seq<NamedAttr> := [];
      var k := 0;
      while k < |attrs|
        invariant 0 <= k <= |attrs|
        invariant Extends(old(irModule.names), irModule.names)
        invariant old(irModule.functions).Keys <= irModule.functions.Keys
        invariant PlainAttrs(attrs[..k], irModule.names, codec) == Success(plain)
      {
        var entry := attrs[k];
        if !entry.1.FuncVal? {
          ghost var t := irModule.names;
          PendingMonotone(library.defs.Keys, old(irModule.names), irModule.names);
          var a := ConvertAttributeValue(entry.1);
          if a.Failure? {
            return Failure(a.code, a.msg);
          }
          PlainAttrsExtend(attrs, k, t, irModule.names, codec, plain, a.value);
          plain := plain + [NamedAttr(entry.0, a.value)];
        } else {
          PlainAttrsSkip(attrs, k, irModule.names, codec, plain);
        }
        k := k + 1;
      }
      assert attrs[..k] == attrs;
      return Success(plain);
    }

    /** ConvertNode's loop over the function attributes, sorted by name, each
        expanded by ConvertFunctionCallAttribute. */
    method ConvertFuncAttrs(sorted: seq<(string, AttrValue)>) returns (r: Result<seq<NamedAttr>>)
      modifies irModule
      decreases PendingCount(library.defs.Keys, irModule.names), 6
      ensures Extends(old(irModule.names), irModule.names)
      ensures old(irModule.functions).Keys <= irModule.functions.Keys
      ensures r.Success? ==> r == FuncEntries(sorted, irModule.names, env.convertTensor)
    {
      var codec := env.convertTensor;
      var entries: seq<NamedAttr> := [];
      var k := 0;
      while k < |sorted|
        invariant 0 <= k <= |sorted|
        invariant Extends(old(irModule.names), irModule.names)
        invariant old(irModule.functions).Keys <= irModule.functions.Keys
        invariant FuncEntries(sorted[..k], irModule.names, codec) == Success(entries)
      {
        assert sorted[..k + 1][..k] == sorted[..k];
        var f := sorted[k];
        if !f.1.FuncVal? {
          return Failure(Internal, "not a function attribute");
        }
        ghost var t := irModule.names;
        PendingMonotone(library.defs.Keys, old(irModule.names), irModule.names);
        var e := ConvertFunctionCallAttribute(f.0, f.1.func);
        if e.Failure? {
          return Failure(e.code, e.msg);
        }
        FuncEntriesStable(sorted[..k], t, irModule.names, codec);
        entries := entries + e.value;
        k := k + 1;
      }
      assert sorted[..k] == sorted;
      return Success(entries);
    }

    /** ConvertNode's attributes: the non-function attributes in iteration
        order, then the function attributes sorted by name and expanded, then
        name and device, and is_stateless for If and While. */
    method ConvertNodeAttributes(n: Node, typeName: string) returns (r: Result<seq<NamedAttr>>)
      modifies irModule
      decreases PendingCount(library.defs.Keys, irModule.names), 7
      ensures Extends(old(irModule.names), irModule.names)
      ensures old(irModule.functions).Keys <= irModule.functions.Keys
      ensures r.Success? ==> r == NodeAttrs(n, typeName, irModule.names, env.convertTensor)
    {
      var plain := ConvertPlainAttrs(n.attrs);
      if plain.Failure? {
        return Failure(plain.code, plain.msg);
      }
      ghost var t := irModule.names;
      PendingMonotone(library.defs.Keys, old(irModule.names), irModule.names);
      var entries := ConvertFuncAttrs(SortByName(FuncAttrs(n.attrs)));
      if entries.Failure? {
        return Failure(entries.code, entries.msg);
      }
      PlainAttrsStable(n.attrs, t, irModule.names, env.convertTensor);
      var stateless := [];
      if n.kind == IfNode {
        stateless := [NamedAttr("is_stateless", BoolAttr(typeName == "StatelessIf"))];
      } else if n.kind == WhileNode {
        stateless := [NamedAttr("is_stateless", BoolAttr(typeName == "StatelessWhile"))];
      }
      var tail := [NamedAttr("name", StrAttr(n.name)), NamedAttr("device", StrAttr(n.device))] + stateless;
      return Success(plain.value + entries.value + tail);
    }

    /** ConvertNode's result types: every output but the recorded back-edge
        one, as the shape refiner inferred it. */
    method ResultTypes(n: Node) returns (r: Result<seq<Type>>)
      ensures var skip := if n.id in backEdgeNodeOutput then Some(backEdgeNodeOutput[n.id]) else None;
        r.Success? <==> InferTypes(KeptOutputs(n.numOutputs, skip), refiner.contexts, n, env.convertDataType).Success?
      ensures var skip := if n.id in backEdgeNodeOutput then Some(backEdgeNodeOutput[n.id]) else None;
        r.Success? ==> r == InferTypes(KeptOutputs(n.numOutputs, skip), refiner.contexts, n, env.convertDataType)
    {
      var skip := if n.id in backEdgeNodeOutput then Some(backEdgeNodeOutput[n.id]) else None;
      var ctxs := refiner.contexts;
      var dtypes := env.convertDataType;
      var infer := (i: nat) => InferOutputType(ctxs, n, i, dtypes);
      r := CollectResultTypes(n.numOutputs, skip, infer);
      var kept := KeptOutputs(n.numOutputs, skip);
      ghost var spec := InferTypes(kept, ctxs, n, dtypes);
      if r.Success? {
        assert spec.Success? by {
          forall k | 0 <= k < |kept| ensures InferOutputType(ctxs, n, kept[k], dtypes).Success? {
            assert kept[k] in kept;
            assert infer(kept[k]).Success?;
          }
        }
        assert spec.value == r.value by {
          forall k | 0 <= k < |kept| ensures spec.value[k] == r.value[k] {
            assert infer(kept[k]) == InferOutputType(ctxs, n, kept[k], dtypes);
          }
        }
      }
    }

    /** The operands of ConvertNode: the incoming edges, control edges last
        and data edges by input slot, resolved to the values of their
        converted sources. */
    method NodeOperands(n: Node) returns (r: Result<(seq<Value>, seq<Value>)>)
      ensures var es := StableSort(Into(graph.edges, n.id)); r == Gather(es, graph.nodes, nodeValues, ops, |es|)
    {
      var es := StableSort(Into(graph.edges, n.id));
      r := ResolveOperands(es, graph.nodes, nodeValues, ops);
    }

    /** ConvertNode's first steps: the result types, then the operands; the
        first failure is returned. */
    method OperationInputs(n: Node) returns (r: Result<(seq<Type>, (seq<Value>, seq<Value>))>)
      ensures r.Success? <==> NodeInputs(n, graph, backEdgeNodeOutput, refiner.contexts, nodeValues, ops, env.convertDataType).Success?
      ensures r.Success? ==> r == NodeInputs(n, graph, backEdgeNodeOutput, refiner.contexts, nodeValues, ops, env.convertDataType)
    {
      var types := ResultTypes(n);
      if types.Failure? {
        return Failure(types.code, types.msg);
      }
      var operands := NodeOperands(n);
      if operands.Failure? {
        return Failure(operands.code, operands.msg);
      }
      return Success((types.value, operands.value));
    }

    /** createOperation, and the node's value recorded. */
    method AddOperation(n: Node, st: OpState, controls: seq<Value>) returns (s: Status)
      requires Valid()
      modifies this`nodeValues, this`ops, this`block, this`nextOpId
      ensures Valid()
      ensures s.Error? ==> nodeValues == old(nodeValues) && ops == old(ops) && block == old(block) && nextOpId == old(nextOpId)
      ensures s.Error? ==> var c := CreateOperation(n, st, controls, old(ops), old(block), old(nextOpId));
        c.Failure? && s == Error(c.code, c.msg)
      ensures s == Ok ==> n.id in nodeValues
      ensures s == Ok ==>
        Recorded(Success((st, controls)), n, old(ops), old(block), old(nextOpId), old(nodeValues), ops, block, nextOpId, nodeValues)
    {
      var c := CreateOperation(n, st, controls, ops, block, nextOpId);
      if c.Failure? {
        return Error(c.code, c.msg);
      }
      ops, block, nextOpId := c.value.ops, c.value.block, c.value.next;
      nodeValues := nodeValues[n.id := c.value.value];
      return Ok;
    }

    /** ConvertNode once the type name is known: the result types, the
        operands, the attributes (which may convert library functions), and
        the operation NodeSpec describes, created and recorded as the node's
        value. */
    method ConvertOperation(n: Node, typeName: string) returns (s: Status)
      requires Valid()
      modifies this`nodeValues, this`ops, this`block, this`nextOpId, irModule
      decreases PendingCount(library.defs.Keys, irModule.names), 8
      ensures Valid()
      ensures Extends(old(irModule.names), irModule.names)
      ensures old(irModule.functions).Keys <= irModule.functions.Keys
      ensures s.Error? ==> nodeValues == old(nodeValues) && ops == old(ops) && block == old(block) && nextOpId == old(nextOpId)
      ensures old(nodeValues).Keys <= nodeValues.Keys && (s == Ok ==> n.id in nodeValues)
      ensures s == Ok ==>
        Recorded(NodeSpec(n, typeName, graph, backEdgeNodeOutput, refiner.contexts, old(nodeValues), old(ops),
                          irModule.names, env.convertTensor, env.convertDataType),
                 n, old(ops), old(block), old(nextOpId), old(nodeValues), ops, block, nextOpId, nodeValues)
    {
      var inputs := OperationInputs(n);
      if inputs.Failure? {
        return Error(inputs.code, inputs.msg);
      }
      var attrs := ConvertNodeAttributes(n, typeName);
      if attrs.Failure? {
        return Error(attrs.code, attrs.msg);
      }
      NodeSpecOf(n, typeName, graph, backEdgeNodeOutput, refiner.contexts, nodeValues, ops, irModule.names,
                 env.convertTensor, env.convertDataType, inputs.value, attrs.value);
      var st := OpState(OpNameFor(n, typeName, n.id in backEdgeNodeOutput), inputs.value.1.0, inputs.value.0, attrs.value);
      s := AddSpecifiedOperation(n, typeName, (st, inputs.value.1.1));
    }

    /** The end of ConvertNode: the operation NodeSpec describes is created
        and recorded. */
    method AddSpecifiedOperation(n: Node, typeName: string, spec: (OpState, seq<Value>)) returns (s: Status)
      requires Valid()
      requires NodeSpec(n, typeName, graph, backEdgeNodeOutput, refiner.contexts, nodeValues, ops,
                        irModule.names, env.convertTensor, env.convertDataType) == Success(spec)
      modifies this`nodeValues, this`ops, this`block, this`nextOpId
      ensures Valid()
      ensures s.Error? ==> nodeValues == old(nodeValues) && ops == old(ops) && block == old(block) && nextOpId == old(nextOpId)
      ensures old(nodeValues).Keys <= nodeValues.Keys && (s == Ok ==> n.id in nodeValues)
      ensures s == Ok ==>
        Recorded(NodeSpec(n, typeName, graph, backEdgeNodeOutput, refiner.contexts, old(nodeValues), old(ops),
                          irModule.names, env.convertTensor, env.convertDataType),
                 n, old(ops), old(block), old(nextOpId), old(nodeValues), ops, block, nextOpId, nodeValues)
    {
      s := AddOperation(n, spec.0, spec.1);
    }

    /** ConvertNode: a pseudo-node (_SOURCE, _SINK) is skipped. For an
        operation node, a library function it calls is converted first and
        lends its symbol name as the type name; then the operation NodeSpec
        describes is created and recorded as the node's value. */
    method ConvertNode(n: Node) returns (s: Status)
      requires Valid()
      modifies this`nodeValues, this`ops, this`block, this`nextOpId, irModule
      decreases PendingCount(library.defs.Keys, irModule.names), 9
      ensures Valid()
      ensures Extends(old(irModule.names), irModule.names)
      ensures old(irModule.functions).Keys <= irModule.functions.Keys
      ensures !n.IsOp() ==>
        && s == Ok && unchanged(irModule)
        && nodeValues == old(nodeValues) && ops == old(ops) && block == old(block) && nextOpId == old(nextOpId)
      ensures s.Error? ==> nodeValues == old(nodeValues) && ops == old(ops) && block == old(block) && nextOpId == old(nextOpId)
      ensures old(nodeValues).Keys <= nodeValues.Keys && (s == Ok && n.IsOp() ==> n.id in nodeValues)
      ensures s == Ok && n.IsOp() ==>
        && (n.op in library.defs ==> n.op in irModule.names)
        && Recorded(NodeSpec(n, TypeNameFor(n.op, n.op in library.defs, irModule.names), graph, backEdgeNodeOutput,
                             refiner.contexts, old(nodeValues), old(ops), irModule.names,
                             env.convertTensor, env.convertDataType),
                    n, old(ops), old(block), old(nextOpId), old(nodeValues), ops, block, nextOpId, nodeValues)
      ensures forall id | id in old(ops) :: id in ops && ops[id] == old(ops)[id]
      ensures WellFormed(old(ops)) ==> WellFormed(ops)
      ensures ValuesBelow(old(nodeValues), old(Body(ops, block, nextOpId))) ==> ValuesBelow(nodeValues, Body(ops, block, nextOpId))
    {
      if !n.IsOp() {
        return Ok;
      }
      var typeName := n.op;
      if n.op in library.defs {
        s := ConvertLibFunction(n.op);
        if s.Error? {
          return;
        }
        typeName := irModule.names[n.op];
      }
      PendingMonotone(library.defs.Keys, old(irModule.names), irModule.names);
      s := ConvertOperation(n, typeName);
      assert s == Ok ==> typeName == TypeNameFor(n.op, n.op in library.defs, irModule.names);
      if s == Ok {
        RecordedKeepsBody(n, typeName, graph, backEdgeNodeOutput, refiner.contexts, old(nodeValues), old(ops),
                          old(block), old(nextOpId), irModule.names, env.convertTensor, env.convertDataType,
                          ops, block, nextOpId, nodeValues);
      }
    }

    /** Convert's node loop: every node is converted, in reverse post order. */
    method ConvertNodes() returns (s: Status)
      requires Valid()
      modifies this`nodeValues, this`ops, this`block, this`nextOpId, irModule
      decreases PendingCount(library.defs.Keys, irModule.names), 10
      ensures Valid()
      ensures Extends(old(irModule.names), irModule.names)
      ensures old(irModule.functions).Keys <= irModule.functions.Keys
      ensures s == Ok ==> Converted(orderedNodes, graph, nodeValues)
      ensures forall id | id in old(ops) :: id in ops && ops[id] == old(ops)[id]
      ensures WellFormed(old(ops)) ==> WellFormed(ops)
      ensures ValuesBelow(old(nodeValues), old(Body(ops, block, nextOpId))) ==> ValuesBelow(nodeValues, Body(ops, block, nextOpId))
    {
      var k := 0;
      while k < |orderedNodes|
        invariant 0 <= k <= |orderedNodes|
        invariant Valid()
        invariant Extends(old(irModule.names), irModule.names)
        invariant old(irModule.functions).Keys <= irModule.functions.Keys
        invariant Converted(orderedNodes[..k], graph, nodeValues)
        invariant forall id | id in old(ops) :: id in ops && ops[id] == old(ops)[id]
        invariant WellFormed(old(ops)) ==> WellFormed(ops)
        invariant ValuesBelow(old(nodeValues), old(Body(ops, block, nextOpId))) ==> ValuesBelow(nodeValues, Body(ops, block, nextOpId))
      {
        var id := orderedNodes[k];
        if id !in graph.nodes {
          return Error(Internal, "ordered node is not in the graph");
        }
        ghost var nv := nodeValues;
        PendingMonotone(library.defs.Keys, old(irModule.names), irModule.names);
        s := ConvertNode(graph.nodes[id]);
        if s.Error? {
          return;
        }
        ConvertedStep(orderedNodes, k, graph, nv, nodeValues);
        k := k + 1;
      }
      assert orderedNodes[..k] == orderedNodes;
      return Ok;
    }

    /** Convert: the function is added to the module with an empty body, every
        node is converted in reverse post order, the back edges are restored,
        and the arguments and results are wired; the finished body replaces
        the empty one. */
    method Convert(funcName: string, ft: FuncType, argNodes: seq<OutputTensor>, retNodes: seq<OutputTensor>,
                   controlRetNodes: seq<nat>, attrs: seq<NamedAttr>)
      returns (s: Status, ghost built: Body, ghost order: seq<nat>, ghost bodies: seq<Body>)
      requires Valid()
      modifies this`nodeValues, this`ops, this`block, this`nextOpId, irModule
      decreases PendingCount(library.defs.Keys, irModule.names), 11
      ensures Valid()
      ensures Extends(old(irModule.names), irModule.names)
      ensures old(irModule.functions).Keys <= irModule.functions.Keys && funcName in irModule.functions
      ensures s == Ok ==> Converted(orderedNodes, graph, nodeValues)
      ensures s == Ok ==>
        && var f := irModule.functions[funcName];
        && f.name == funcName && f.argTypes == ft.inputs && f.resultTypes == ft.results && f.attrs == attrs
        && f.ops == ops && f.block == block
        && WireTrace(graph, nodeValues, argNodes, bodies, |ft.inputs|) && |bodies| == |ft.inputs| + 1
        && Fetched(graph, nodeValues, bodies[|ft.inputs|], f.ops, retNodes, controlRetNodes, f.fetch)
        && (forall x | x in f.ops :: x in bodies[|ft.inputs|].ops && f.ops[x] == bodies[|ft.inputs|].ops[x])
      ensures s == Ok ==>
        && (forall d | d in order :: d in backEdgeDstInputs)
        && (forall d | d in backEdgeDstInputs :: d in order)
        && IdsBelow(built)
        && RestoreAll(graph, nodeValues, backEdgeDstInputs, built, order).Success?
        && bodies[0] == RestoreAll(graph, nodeValues, backEdgeDstInputs, built, order).value
      ensures s == Ok && WellFormed(old(ops)) && ValuesBelow(old(nodeValues), old(Body(ops, block, nextOpId))) ==>
        WellFormed(built.ops) && ValuesBelow(nodeValues, built)
    {
      bodies := [];
      order := [];
      built := Body(ops, block, nextOpId);
      ghost var clean := WellFormed(ops) && ValuesBelow(nodeValues, built);
      irModule.functions := irModule.functions[funcName := Func(funcName, ft.inputs, ft.results, attrs, map[], [], [])];
      s := ConvertNodes();
      if s.Error? {
        return;
      }
      built := Body(ops, block, nextOpId);
      assert clean ==> WellFormed(built.ops) && ValuesBelow(nodeValues, built);
      s, order := AddBackedges();
      if s.Error? {
        return;
      }
      var fetch;
      fetch, bodies := ConvertFunctionArgAndRets(ft.inputs, argNodes, retNodes, controlRetNodes);
      if fetch.Failure? {
        return Error(fetch.code, fetch.msg), built, order, bodies;
      }
      irModule.functions := irModule.functions[funcName := Func(funcName, ft.inputs, ft.results, attrs, ops, block, fetch.value)];
      return Ok, built, order, bodies;
    }
  }
}
