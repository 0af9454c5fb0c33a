/** What ConvertNode builds for one graph node, as functions of the importer's
    state: the result types (every output but the back-edge one), the operands
    resolved from the sorted incoming edges, the attribute list, the operation
    name, and the operations createOperation adds to the graph body. */
module NodeConvert {
  import opened Errors
  import opened TfTypes
  import opened TfGraph
  import opened Ir
  import opened Shapes
  import opened AttrConvert
  import opened EdgeOrder

  /** InferOutputType: output i of the node, from its inference context. */
  function InferOutputType(ctxs: Contexts, n: Node, i: nat, codec: DataTypeCodec): Result<TensorType> {
    if n.id !in ctxs then Failure(Internal, "node has no shape inference context")
    else
      var c := ctxs[n.id];
      if i >= |c.outputs| || i >= |c.outputTypes| || i >= |c.outputHandles| then
        Failure(Internal, "output index out of range of the inference context")
      else ConvertDataTypeAndShape(c.outputTypes[i], c.outputs[i], c.outputHandles[i], codec)
  }

  /** InferInputType: input i of the node, from its inference context. */
  function InferInputType(ctxs: Contexts, n: Node, i: nat, codec: DataTypeCodec): Result<TensorType> {
    if n.id !in ctxs then Failure(Internal, "node has no shape inference context")
    else
      var c := ctxs[n.id];
      if i >= |c.inputs| || i >= |c.inputTypes| || i >= |c.inputHandles| then
        Failure(Internal, "input index out of range of the inference context")
      else ConvertDataTypeAndShape(c.inputTypes[i], c.inputs[i], c.inputHandles[i], codec)
  }

  /** The output indices below i that become results: all but the back-edge output. */
  function KeptOutputs(i: nat, skip: Option<int>): seq<nat>
    decreases i
  {
    if i == 0 then []
    else KeptOutputs(i - 1, skip) + (if skip == Some(i - 1) then [] else [i - 1])
  }

  /** Every output index below i but the back-edge one is kept. */
  lemma {:induction false} KeptOutputsMembers(i: nat, skip: Option<int>)
    ensures forall x: nat :: x in KeptOutputs(i, skip) <==> x < i && skip != Some(x)
    decreases i
  {
    if i > 0 {
      KeptOutputsMembers(i - 1, skip);
    }
  }

  /** The k-th result type is the type of output k below the skipped index and
      of output k + 1 from it on. */
  lemma {:induction false} KeptOutputsIndex(i: nat, skip: Option<int>)
    ensures var r := KeptOutputs(i, skip);
      && |r| == (if skip.Some? && 0 <= skip.value < i then i - 1 else i)
      && (forall k :: 0 <= k < |r| ==> r[k] == if skip.Some? && 0 <= skip.value <= k then k + 1 else k)
    decreases i
  {
    if i > 0 {
      KeptOutputsIndex(i - 1, skip);
    }
  }

  /** Hence the kept outputs ascend. */
  lemma KeptOutputsAscending(i: nat, skip: Option<int>)
    ensures var r := KeptOutputs(i, skip); forall a, b :: 0 <= a < b < |r| ==> r[a] < r[b]
  {
    KeptOutputsIndex(i, skip);
  }

  /** The inferred types of the given outputs, in order; the first failure decides. */
  function InferTypes(idx: seq<nat>, ctxs: Contexts, n: Node, codec: DataTypeCodec): (r: Result<seq<Type>>)
    ensures r.Success? <==> forall k :: 0 <= k < |idx| ==> InferOutputType(ctxs, n, idx[k], codec).Success?
    ensures r.Success? ==> |r.value| == |idx|
    ensures r.Success? ==> forall k :: 0 <= k < |idx| ==>
      r.value[k] == TensorTy(InferOutputType(ctxs, n, idx[k], codec).value)
    decreases |idx|
  {
    if |idx| == 0 then Success([])
    else
      var init :- InferTypes(idx[..|idx| - 1], ctxs, n, codec);
      var t :- InferOutputType(ctxs, n, idx[|idx| - 1], codec);
      Success(init + [TensorTy(t)])
  }

  /** The result types of the operation: one inferred type per output, in
      output order, leaving out the recorded back-edge output. `infer` is
      InferOutputType for the node. */
  method CollectResultTypes(numOutputs: nat, skip: Option<int>, infer: nat -> Result<TensorType>) returns (r: Result<seq<Type>>)
    ensures r.Success? <==> forall x :: x in KeptOutputs(numOutputs, skip) ==> infer(x).Success?
    ensures r.Success? ==> var kept := KeptOutputs(numOutputs, skip);
      |r.value| == |kept| && forall k :: 0 <= k < |kept| ==> r.value[k] == TensorTy(infer(kept[k]).value)
  {
    var types: seq<Type> := [];
    var i: nat := 0;
    ghost var kept: seq<nat> := [];
    while i < numOutputs
      invariant i <= numOutputs && kept == KeptOutputs(i, skip)
      invariant forall x :: x in kept ==> infer(x).Success?
      invariant |types| == |kept|
      invariant forall k :: 0 <= k < |types| ==> types[k] == TensorTy(infer(kept[k]).value)
    {
      if skip != Some(i) {
        var t := infer(i);
        if t.Failure? {
          KeptOutputsMembers(numOutputs, skip);
          assert i in KeptOutputs(numOutputs, skip);
          return Failure(t.code, t.msg);
        }
        types := types + [TensorTy(t.value)];
        kept := kept + [i];
      }
      i := i + 1;
    }
    return Success(types);
  }

  /** What one incoming edge contributes to the operation. */
  datatype Resolved = Skipped | DataOperand(v: Value) | ControlOperand(v: Value)

  const SourceMsg := "The node has other inputs besides the _Source node"
  const OrderMsg := "Graph not traversed in reverse post order; use seen before def!"

  /** One incoming edge: _SOURCE is skipped when it is the only edge and an
      error otherwise, control edges from _Arg are dropped, a predecessor not
      yet converted is an error, a control edge uses the predecessor's last
      result and a data edge its result at the source output. */
  function ResolveEdge(e: Edge, nodes: map<nat, Node>, nv: map<nat, nat>, ops: map<nat, Op>, total: nat): (r: Result<Resolved>)
    ensures e.src in nodes && nodes[e.src].IsSource() ==>
      r == (if total != 1 then Failure(FailedPrecondition, SourceMsg) else Success(Skipped))
    ensures e.src in nodes && !nodes[e.src].IsSource() && nodes[e.src].IsArg() && e.IsControlEdge() ==> r == Success(Skipped)
    ensures r.Success? && r.value.Skipped? ==> e.src in nodes && (nodes[e.src].IsSource() || (nodes[e.src].IsArg() && e.IsControlEdge()))
    ensures e.src in nodes && !nodes[e.src].IsSource() && !(nodes[e.src].IsArg() && e.IsControlEdge()) && e.src !in nv ==>
      r == Failure(FailedPrecondition, OrderMsg)
    ensures r.Success? && r.value.ControlOperand? ==>
      && e.IsControlEdge() && e.src in nv && nv[e.src] in ops && |ops[nv[e.src]].types| > 0
      && r.value.v == OpResult(nv[e.src], |ops[nv[e.src]].types| - 1)
    ensures r.Success? && r.value.DataOperand? ==>
      && !e.IsControlEdge() && e.src in nv && e.srcOutput >= 0
      && r.value.v == OpResult(nv[e.src], e.srcOutput)
  {
    if e.src !in nodes then Failure(Internal, "edge source is not in the graph")
    else
      var src := nodes[e.src];
      if src.IsSource() then
        if total != 1 then Failure(FailedPrecondition, SourceMsg) else Success(Skipped)
      else if src.IsArg() && e.IsControlEdge() then Success(Skipped)
      else if e.src !in nv then Failure(FailedPrecondition, OrderMsg)
      else
        var id := nv[e.src];
        if id !in ops then Failure(Internal, "operation of the predecessor was erased")
        else
          var k := |ops[id].types|;
          if e.IsControlEdge() then
            if k == 0 then Failure(Internal, "operation has no control result")
            else Success(ControlOperand(OpResult(id, k - 1)))
          else if !(0 <= e.srcOutput < k) then Failure(Internal, "result index out of range")
          else Success(DataOperand(OpResult(id, e.srcOutput)))
  }

  /** The operand loop over the sorted edges: data operands and control
      operands, in edge order; the first failing edge decides the error. */
  function Gather(es: seq<Edge>, nodes: map<nat, Node>, nv: map<nat, nat>, ops: map<nat, Op>, total: nat): Result<(seq<Value>, seq<Value>)>
    decreases |es|
  {
    if |es| == 0 then Success(([], []))
    else
      var (data, ctrl) :- Gather(es[..|es| - 1], nodes, nv, ops, total);
      var r :- ResolveEdge(es[|es| - 1], nodes, nv, ops, total);
      match r
      case Skipped => Success((data, ctrl))
      case DataOperand(v) => Success((data + [v], ctrl))
      case ControlOperand(v) => Success((data, ctrl + [v]))
  }

  lemma {:induction false} GatherPrefixFailure(es: seq<Edge>, k: nat, nodes: map<nat, Node>, nv: map<nat, nat>, ops: map<nat, Op>, total: nat)
    requires k <= |es| && Gather(es[..k], nodes, nv, ops, total).Failure?
    ensures Gather(es, nodes, nv, ops, total) == Gather(es[..k], nodes, nv, ops, total)
    decreases |es| - k
  {
    if k < |es| {
      assert es[..k + 1][..k] == es[..k];
      GatherPrefixFailure(es, k + 1, nodes, nv, ops, total);
    } else {
      assert es[..k] == es;
    }
  }

  /** One more edge of the operand loop. */
  lemma GatherStep(es: seq<Edge>, k: nat, nodes: map<nat, Node>, nv: map<nat, nat>, ops: map<nat, Op>, total: nat,
                   data: seq<Value>, ctrl: seq<Value>)
    requires k < |es| && Gather(es[..k], nodes, nv, ops, total) == Success((data, ctrl))
    ensures var r := ResolveEdge(es[k], nodes, nv, ops, total);
      && (r.Failure? ==> Gather(es[..k + 1], nodes, nv, ops, total) == Failure(r.code, r.msg))
      && (r.Success? && r.value.Skipped? ==> Gather(es[..k + 1], nodes, nv, ops, total) == Success((data, ctrl)))
      && (r.Success? && r.value.DataOperand? ==> Gather(es[..k + 1], nodes, nv, ops, total) == Success((data + [r.value.v], ctrl)))
      && (r.Success? && r.value.ControlOperand? ==> Gather(es[..k + 1], nodes, nv, ops, total) == Success((data, ctrl + [r.value.v])))
  {
    var s := es[..k + 1];
    assert s[..|s| - 1] == es[..k] && s[|s| - 1] == es[k];
  }

  /** ConvertNode's operand loop. */
  method ResolveOperands(es: seq<Edge>, nodes: map<nat, Node>, nv: map<nat, nat>, ops: map<nat, Op>) returns (r: Result<(seq<Value>, seq<Value>)>)
    ensures r == Gather(es, nodes, nv, ops, |es|)
  {
    var data: seq<Value> := [];
    var ctrl: seq<Value> := [];
    var k := 0;
    while k < |es|
      invariant 0 <= k <= |es|
      invariant Gather(es[..k], nodes, nv, ops, |es|) == Success((data, ctrl))
    {
      GatherStep(es, k, nodes, nv, ops, |es|, data, ctrl);
      var e := es[k];
      var res := ResolveEdge(e, nodes, nv, ops, |es|);
      if res.Failure? {
        GatherPrefixFailure(es, k + 1, nodes, nv, ops, |es|);
        return Failure(res.code, res.msg);
      }
      if res.value.DataOperand? {
        data := data + [res.value.v];
      } else if res.value.ControlOperand? {
        ctrl := ctrl + [res.value.v];
      }
      k := k + 1;
    }
    assert es[..k] == es;
    return Success((data, ctrl));
  }

  /** The data edges that become operands, in order. */
  function DataEdges(es: seq<Edge>, nodes: map<nat, Node>): seq<Edge>
    decreases |es|
  {
    if |es| == 0 then []
    else
      var e := es[|es| - 1];
      DataEdges(es[..|es| - 1], nodes) + (if e.src in nodes && !nodes[e.src].IsSource() && !e.IsControlEdge() then [e] else [])
  }

  /** The control edges that become control operands, in order. */
  function ControlEdges(es: seq<Edge>, nodes: map<nat, Node>): seq<Edge>
    decreases |es|
  {
    if |es| == 0 then []
    else
      var e := es[|es| - 1];
      ControlEdges(es[..|es| - 1], nodes) +
        (if e.src in nodes && !nodes[e.src].IsSource() && !nodes[e.src].IsArg() && e.IsControlEdge() then [e] else [])
  }

  /** When the operands resolve: no _SOURCE edge unless it is the only edge,
      every predecessor of a kept edge is converted, the data operands are the
      data edges' source results in edge order, and the control operands are
      the last results of the control edges' sources, those from _Arg dropped. */
  lemma GatherMeaning(es: seq<Edge>, nodes: map<nat, Node>, nv: map<nat, nat>, ops: map<nat, Op>, total: nat)
    requires Gather(es, nodes, nv, ops, total).Success?
    ensures forall e :: e in es ==> e.src in nodes
    ensures total != 1 ==> forall e :: e in es ==> !nodes[e.src].IsSource()
    ensures var (data, ctrl) := Gather(es, nodes, nv, ops, total).value;
      var de, ce := DataEdges(es, nodes), ControlEdges(es, nodes);
      && |data| == |de| && |ctrl| == |ce|
      && (forall j :: 0 <= j < |de| ==>
            de[j].src in nv && de[j].srcOutput >= 0 && data[j] == OpResult(nv[de[j].src], de[j].srcOutput))
      && (forall j :: 0 <= j < |ce| ==>
            && ce[j].src in nv && nv[ce[j].src] in ops && |ops[nv[ce[j].src]].types| > 0
            && ctrl[j] == OpResult(nv[ce[j].src], |ops[nv[ce[j].src]].types| - 1))
  {
    GatherSources(es, nodes, nv, ops, total);
    GatherData(es, nodes, nv, ops, total);
    GatherControls(es, nodes, nv, ops, total);
  }

  /** Every edge of a resolved list has a source in the graph, and none is
      _SOURCE unless it is the only edge. */
  lemma {:induction false} GatherSources(es: seq<Edge>, nodes: map<nat, Node>, nv: map<nat, nat>, ops: map<nat, Op>, total: nat)
    requires Gather(es, nodes, nv, ops, total).Success?
    ensures forall e :: e in es ==> e.src in nodes
    ensures total != 1 ==> forall e :: e in es ==> !nodes[e.src].IsSource()
    decreases |es|
  {
    if |es| > 0 {
      var p := es[..|es| - 1];
      var e := es[|es| - 1];
      GatherSources(p, nodes, nv, ops, total);
      assert forall x :: x in es ==> x in p || x == e;
    }
  }

  /** The data operands are the data edges' source results, in edge order. */
  lemma {:induction false} GatherData(es: seq<Edge>, nodes: map<nat, Node>, nv: map<nat, nat>, ops: map<nat, Op>, total: nat)
    requires Gather(es, nodes, nv, ops, total).Success?
    ensures var data := Gather(es, nodes, nv, ops, total).value.0;
      var de := DataEdges(es, nodes);
      && |data| == |de|
      && forall j :: 0 <= j < |de| ==>
           de[j].src in nv && de[j].srcOutput >= 0 && data[j] == OpResult(nv[de[j].src], de[j].srcOutput)
    decreases |es|
  {
    if |es| > 0 {
      GatherData(es[..|es| - 1], nodes, nv, ops, total);
    }
  }

  /** The control operands are the last results of the control edges'
      sources, in edge order. */
  lemma {:induction false} GatherControls(es: seq<Edge>, nodes: map<nat, Node>, nv: map<nat, nat>, ops: map<nat, Op>, total: nat)
    requires Gather(es, nodes, nv, ops, total).Success?
    ensures var ctrl := Gather(es, nodes, nv, ops, total).value.1;
      var ce := ControlEdges(es, nodes);
      && |ctrl| == |ce|
      && forall j :: 0 <= j < |ce| ==>
           && ce[j].src in nv && nv[ce[j].src] in ops && |ops[nv[ce[j].src]].types| > 0
           && ctrl[j] == OpResult(nv[ce[j].src], |ops[nv[ce[j].src]].types| - 1)
    decreases |es|
  {
    if |es| > 0 {
      GatherControls(es[..|es| - 1], nodes, nv, ops, total);
    }
  }

  /** The operation being assembled (OperationState). */
  datatype OpState = OpState(name: string, operands: seq<Value>, types: seq<Type>, attrs: seq<NamedAttr>)

  /** What createOperation leaves behind: the operations and the graph body
      order, the next free id, and the id that becomes the node's value. */
  datatype Created = Created(ops: map<nat, Op>, block: seq<nat>, next: nat, value: nat)

  function ExecutorOpName(n: Node): Option<string> {
    match n.kind
    case Switch => Some(if n.op == "_SwitchN" then SwitchNName else SwitchName)
    case Merge => Some(MergeName)
    case LoopCond => Some(LoopCondName)
    case Enter => Some(EnterName)
    case Exit => Some(ExitName)
    case _ => None
  }

  function YieldAll(k: nat): (r: seq<int>)
    ensures |r| == k && forall j :: 0 <= j < k ==> r[j] == j
  {
    seq(k, j requires 0 <= j < k => j)
  }

  /** createOperation. */
  function CreateOperation(n: Node, st: OpState, controls: seq<Value>, ops: map<nat, Op>, block: seq<nat>, next: nat): (r: Result<Created>)
    requires forall id :: id in ops ==> id < next
    ensures r.Success? ==> r.value.value in r.value.ops && r.value.value !in ops && r.value.value in r.value.block
    ensures r.Success? ==> next <= r.value.value < r.value.next
    ensures r.Success? ==> forall id :: id in ops ==> id in r.value.ops && r.value.ops[id] == ops[id]
    ensures r.Success? ==> forall id :: id in r.value.ops ==> id < r.value.next
    // executor operations: an extra control result, control operands after the data operands
    ensures r.Success? && ExecutorOpName(n).Some? ==>
      r.value.ops[r.value.value] == Op(ExecutorOpName(n).value, st.operands + controls, st.types + [ControlTy], st.attrs, NoRegion)
    // NextIteration: a source at the top of the body and a sink fed by its token
    ensures r.Success? && n.kind == NextIteration ==>
      next in r.value.ops && r.value.value == next + 1 && r.value.block == [next] + block + [next + 1] &&
      var src := r.value.ops[next];
      && src.name == NextIterationSourceName && |src.types| == 3 && src.types[1] == TokenTy && src.types[2] == ControlTy
      && r.value.ops[next + 1] == Op(NextIterationSinkName, [OpResult(next, 1)] + st.operands + controls, [], st.attrs, NoRegion)
    // other operations: an island over the control operands yielding every result of the wrapped operation
    ensures r.Success? && ExecutorOpName(n).None? && n.kind != NextIteration && n.kind != ControlTrigger ==>
      var island := r.value.ops[r.value.value];
      && island.name == IslandName && island.operands == controls && island.types == st.types + [ControlTy]
      && island.region == IslandRegion(Op(st.name, st.operands, st.types, st.attrs, NoRegion), YieldAll(|st.types|))
    ensures r.Failure? ==> n.kind == NextIteration
  {
    var types := st.types + [ControlTy];
    var operands := st.operands + controls;
    if ExecutorOpName(n).Some? then
      Success(Created(ops[next := Op(ExecutorOpName(n).value, operands, types, st.attrs, NoRegion)], block + [next], next + 1, next))
    else if n.kind == NextIteration then
      if |operands| == 0 then Failure(Internal, "NextIteration without operands")
      else
        var t := ValueType(ops, [], operands[0]);
        if t.None? then Failure(Internal, "operand of NextIteration has no type")
        else
          var source := Op(NextIterationSourceName, [], [t.value, TokenTy, ControlTy], st.attrs, NoRegion);
          var sink := Op(NextIterationSinkName, [OpResult(next, 1)] + operands, [], st.attrs, NoRegion);
          Success(Created(ops[next := source][next + 1 := sink], [next] + block + [next + 1], next + 2, next + 1))
    else if n.kind == ControlTrigger then
      Success(Created(ops[next := Op(ControlTriggerName, operands, [ControlTy], st.attrs, NoRegion)], block + [next], next + 1, next))
    else
      var inner := Op(st.name, st.operands, st.types, st.attrs, NoRegion);
      var island := Op(IslandName, controls, types, [], IslandRegion(inner, YieldAll(|st.types|)));
      Success(Created(ops[next := island], block + [next], next + 1, next))
  }

  /** The name the operation state carries: `tf.` and the (translated) type
      name, `.sink` for a back-edge source, and tf.If / tf.While for the If and
      While families. */
  function OpNameFor(n: Node, typeName: string, backEdgeSource: bool): (r: string)
    ensures n.kind == IfNode ==> r == "tf.If"
    ensures n.kind == WhileNode ==> r == "tf.While"
    ensures n.kind != IfNode && n.kind != WhileNode ==>
      && |r| == 3 + |typeName| + (if backEdgeSource then 5 else 0)
      && r[..3] == "tf." && r[3..3 + |typeName|] == typeName
      && (backEdgeSource ==> r[3 + |typeName|..] == ".sink")
  {
    if n.kind == IfNode then "tf.If"
    else if n.kind == WhileNode then "tf.While"
    else "tf." + typeName + (if backEdgeSource then ".sink" else "")
  }

  /** The non-function attributes, converted in iteration order. */
  function PlainAttrs(attrs: seq<(string, AttrValue)>, names: NameTable, codec: TensorCodec): (r: Result<seq<NamedAttr>>)
    ensures r.Success? ==> |r.value| == |attrs| - |FuncAttrs(attrs)|
    decreases |attrs|
  {
    if |attrs| == 0 then Success([])
    else
      var init :- PlainAttrs(attrs[..|attrs| - 1], names, codec);
      var last := attrs[|attrs| - 1];
      if last.1.FuncVal? then Success(init)
      else
        var a :- AttrSpec(last.1, names, codec);
        Success(init + [NamedAttr(last.0, a)])
  }

  /** The expansions of the function attributes, in the given order. */
  function FuncEntries(fs: seq<(string, AttrValue)>, names: NameTable, codec: TensorCodec): Result<seq<NamedAttr>>
    decreases |fs|
  {
    if |fs| == 0 then Success([])
    else
      var init :- FuncEntries(fs[..|fs| - 1], names, codec);
      var f := fs[|fs| - 1];
      var last :- if f.1.FuncVal? then FuncAttrEntries(f.0, f.1.func, names, codec)
                  else Failure(Internal, "not a function attribute");
      Success(init + last)
  }

  /** Converting the non-function attributes fails exactly when one of their
      values does not convert. */
  lemma {:induction false} PlainAttrsSucceeds(attrs: seq<(string, AttrValue)>, names: NameTable, codec: TensorCodec)
    ensures PlainAttrs(attrs, names, codec).Success? <==>
      forall j :: 0 <= j < |PlainOf(attrs)| ==> AttrSpec(PlainOf(attrs)[j].1, names, codec).Success?
    decreases |attrs|
  {
    if |attrs| > 0 {
      var init := attrs[..|attrs| - 1];
      var last := attrs[|attrs| - 1];
      PlainAttrsSucceeds(init, names, codec);
      assert PlainAttrs(init, names, codec).Success? ==> forall j :: 0 <= j < |PlainOf(init)| ==> AttrSpec(PlainOf(init)[j].1, names, codec).Success?;
      var p, pi := PlainOf(attrs), PlainOf(init);
      assert p == pi + (if last.1.FuncVal? then [] else [last]);
      assert forall j :: 0 <= j < |pi| ==> p[j] == pi[j];
      if PlainAttrs(init, names, codec).Failure? {
        var j :| 0 <= j < |pi| && !AttrSpec(pi[j].1, names, codec).Success?;
        assert j < |p| && !AttrSpec(p[j].1, names, codec).Success?;
        assert PlainAttrs(attrs, names, codec).Failure?;
        assert !(forall k :: 0 <= k < |PlainOf(attrs)| ==> AttrSpec(PlainOf(attrs)[k].1, names, codec).Success?);
      } else if !last.1.FuncVal? {
        assert p[|pi|] == last;
        if AttrSpec(last.1, names, codec).Success? {
          assert PlainAttrs(attrs, names, codec).Success?;
          assert forall k :: 0 <= k < |PlainOf(attrs)| ==> AttrSpec(PlainOf(attrs)[k].1, names, codec).Success?;
        } else {
          assert PlainAttrs(attrs, names, codec).Failure?;
          assert !(forall k :: 0 <= k < |PlainOf(attrs)| ==> AttrSpec(PlainOf(attrs)[k].1, names, codec).Success?);
        }
      } else {
        assert p == pi;
        assert PlainAttrs(attrs, names, codec) == PlainAttrs(init, names, codec);
        assert PlainAttrs(init, names, codec).Success?;
        assert forall j :: 0 <= j < |pi| ==> AttrSpec(pi[j].1, names, codec).Success?;
        forall k | 0 <= k < |p| ensures AttrSpec(p[k].1, names, codec).Success? {
          assert p[k] == pi[k];
        }
      }
    }
  }

  /** The converted non-function attributes: entry j is the j-th attribute
      not holding a function, under its own name, with its value converted. */
  lemma {:induction false} PlainAttrsEntries(attrs: seq<(string, AttrValue)>, names: NameTable, codec: TensorCodec)
    requires PlainAttrs(attrs, names, codec).Success?
    ensures var r := PlainAttrs(attrs, names, codec).value;
      |r| == |PlainOf(attrs)| && forall j :: 0 <= j < |r| ==>
        var x := PlainOf(attrs)[j];
        AttrSpec(x.1, names, codec).Success? && r[j] == NamedAttr(x.0, AttrSpec(x.1, names, codec).value)
    decreases |attrs|
  {
    if |attrs| > 0 {
      var init := attrs[..|attrs| - 1];
      var last := attrs[|attrs| - 1];
      PlainAttrsEntries(init, names, codec);
      var p, pi := PlainOf(attrs), PlainOf(init);
      assert p == pi + (if last.1.FuncVal? then [] else [last]);
      assert forall j :: 0 <= j < |pi| ==> p[j] == pi[j];
      if !last.1.FuncVal? {
        assert p[|pi|] == last;
      }
    }
  }

  /** The expansions of two runs of function attributes are the expansions of
      the first followed by those of the second. */
  lemma {:induction false} FuncEntriesAppend(a: seq<(string, AttrValue)>, b: seq<(string, AttrValue)>, names: NameTable, codec: TensorCodec)
    requires FuncEntries(a + b, names, codec).Success?
    ensures FuncEntries(a, names, codec).Success? && FuncEntries(b, names, codec).Success?
    ensures FuncEntries(a + b, names, codec).value == FuncEntries(a, names, codec).value + FuncEntries(b, names, codec).value
    decreases |b|
  {
    if |b| == 0 {
      assert a + b == a;
      assert FuncEntries(b, names, codec).value == [];
    } else {
      var b', f := b[..|b| - 1], b[|b| - 1];
      var ab := a + b;
      assert FuncEntries(a + b', names, codec).Success? && f.1.FuncVal? by {
        assert ab[..|ab| - 1] == a + b' && ab[|ab| - 1] == f;
      }
      FuncEntriesAppend(a, b', names, codec);
      var last := FuncAttrEntries(f.0, f.1.func, names, codec).value;
      var ea, eb' := FuncEntries(a, names, codec).value, FuncEntries(b', names, codec).value;
      assert FuncEntries(ab, names, codec).value == (ea + eb') + last by {
        assert ab[..|ab| - 1] == a + b' && ab[|ab| - 1] == f;
      }
      assert FuncEntries(b, names, codec).value == eb' + last;
      ConcatAssoc(ea, eb', last);
    }
  }

  lemma ConcatAssoc(a: seq<NamedAttr>, b: seq<NamedAttr>, c: seq<NamedAttr>)
    ensures (a + b) + c == a + (b + c)
  {
  }

  /** A single function attribute expands to its own entries. */
  lemma FuncEntriesSingle(f: (string, AttrValue), names: NameTable, codec: TensorCodec)
    requires f.1.FuncVal? && FuncAttrEntries(f.0, f.1.func, names, codec).Success?
    ensures FuncEntries([f], names, codec) == FuncAttrEntries(f.0, f.1.func, names, codec)
  {
    assert [f][..|[f]| - 1] == [] && [f][|[f]| - 1] == f;
    var e := FuncAttrEntries(f.0, f.1.func, names, codec).value;
    assert [] + e == e;
  }

  /** ConvertNode's attribute list: the non-function attributes, then the
      function attributes sorted by name and expanded, then name and device,
      and is_stateless last for the If and While families. */
  function NodeAttrs(n: Node, typeName: string, names: NameTable, codec: TensorCodec): (r: Result<seq<NamedAttr>>)
    ensures r.Success? <==>
      PlainAttrs(n.attrs, names, codec).Success? && FuncEntries(SortByName(FuncAttrs(n.attrs)), names, codec).Success?
    ensures r.Success? ==>
      var plain := PlainAttrs(n.attrs, names, codec).value;
      var funcs := FuncEntries(SortByName(FuncAttrs(n.attrs)), names, codec).value;
      var extra := if n.kind == IfNode || n.kind == WhileNode then 1 else 0;
      && |r.value| == |plain| + |funcs| + 2 + extra
      && r.value[..|plain|] == plain
      && r.value[|plain|..|plain| + |funcs|] == funcs
      && r.value[|plain| + |funcs|] == NamedAttr("name", StrAttr(n.name))
      && r.value[|plain| + |funcs| + 1] == NamedAttr("device", StrAttr(n.device))
    ensures r.Success? ==> var k := |n.attrs| - |FuncAttrs(n.attrs)|;
      var extra := if n.kind == IfNode || n.kind == WhileNode then 1 else 0;
      |r.value| >= k + 2 + extra
    ensures r.Success? && (n.kind == IfNode || n.kind == WhileNode) ==>
      |r.value| >= 1 && r.value[|r.value| - 1] == NamedAttr("is_stateless", BoolAttr(typeName == (if n.kind == IfNode then "StatelessIf" else "StatelessWhile")))
    ensures r.Success? && n.kind != IfNode && n.kind != WhileNode ==>
      |r.value| >= 2 && r.value[|r.value| - 2..] == [NamedAttr("name", StrAttr(n.name)), NamedAttr("device", StrAttr(n.device))]
  {
    var plain :- PlainAttrs(n.attrs, names, codec);
    var funcs :- FuncEntries(SortByName(FuncAttrs(n.attrs)), names, codec);
    Success(Assemble(n, typeName, plain, funcs))
  }

  /** The attribute list of a node: its plain attributes, then its function
      attributes, then its name and device and, for a functional If or While,
      whether it is stateless. */
  function Assemble(n: Node, typeName: string, plain: seq<NamedAttr>, funcs: seq<NamedAttr>): (r: seq<NamedAttr>)
    ensures |r| == |plain| + |funcs| + 2 + (if n.kind == IfNode || n.kind == WhileNode then 1 else 0)
    ensures r[..|plain|] == plain && r[|plain|..|plain| + |funcs|] == funcs
    ensures r[|plain| + |funcs|] == NamedAttr("name", StrAttr(n.name))
    ensures r[|plain| + |funcs| + 1] == NamedAttr("device", StrAttr(n.device))
    ensures n.kind == IfNode || n.kind == WhileNode ==>
      r[|r| - 1] == NamedAttr("is_stateless", BoolAttr(typeName == (if n.kind == IfNode then "StatelessIf" else "StatelessWhile")))
    ensures n.kind != IfNode && n.kind != WhileNode ==>
      r[|r| - 2..] == [NamedAttr("name", StrAttr(n.name)), NamedAttr("device", StrAttr(n.device))]
  {
    var stateless :=
      if n.kind == IfNode then [NamedAttr("is_stateless", BoolAttr(typeName == "StatelessIf"))]
      else if n.kind == WhileNode then [NamedAttr("is_stateless", BoolAttr(typeName == "StatelessWhile"))]
      else [];
    var tail := [NamedAttr("name", StrAttr(n.name)), NamedAttr("device", StrAttr(n.device))] + stateless;
    Runs(plain, funcs, tail);
    plain + funcs + tail
  }

  /** Where the three runs of a concatenation sit. */
  lemma Runs(p: seq<NamedAttr>, f: seq<NamedAttr>, t: seq<NamedAttr>)
    ensures |p + f + t| == |p| + |f| + |t|
    ensures (p + f + t)[..|p|] == p && (p + f + t)[|p|..|p| + |f|] == f
    ensures forall k :: 0 <= k < |t| ==> (p + f + t)[|p| + |f| + k] == t[k]
    ensures (p + f + t)[|p| + |f|..] == t
    ensures |t| > 0 ==> (p + f + t)[|p + f + t| - 1] == t[|t| - 1]
  {
    assert (p + f + t)[|p|..|p| + |f|] == f;
  }

  lemma {:induction false} PlainAttrsStable(attrs: seq<(string, AttrValue)>, t: NameTable, t': NameTable, codec: TensorCodec)
    requires Extends(t, t') && PlainAttrs(attrs, t, codec).Success?
    ensures PlainAttrs(attrs, t', codec) == PlainAttrs(attrs, t, codec)
    decreases |attrs|
  {
    if |attrs| > 0 {
      PlainAttrsStable(attrs[..|attrs| - 1], t, t', codec);
      if !attrs[|attrs| - 1].1.FuncVal? {
        AttrSpecStable(attrs[|attrs| - 1].1, t, t', codec);
      }
    }
  }

  /** One more attribute of the loop over the non-function attributes: a
      function attribute is set aside, any other one is appended with its
      conversion under the (possibly grown) name table. */
  lemma PlainAttrsSkip(attrs: seq<(string, AttrValue)>, k: nat, t: NameTable, codec: TensorCodec, plain: seq<NamedAttr>)
    requires k < |attrs| && attrs[k].1.FuncVal? && PlainAttrs(attrs[..k], t, codec) == Success(plain)
    ensures PlainAttrs(attrs[..k + 1], t, codec) == Success(plain)
  {
    var s := attrs[..k + 1];
    assert s[..|s| - 1] == attrs[..k] && s[|s| - 1] == attrs[k];
  }

  lemma PlainAttrsExtend(attrs: seq<(string, AttrValue)>, k: nat, t: NameTable, t': NameTable, codec: TensorCodec,
                         plain: seq<NamedAttr>, a: Attr)
    requires k < |attrs| && !attrs[k].1.FuncVal? && Extends(t, t')
    requires PlainAttrs(attrs[..k], t, codec) == Success(plain) && AttrSpec(attrs[k].1, t', codec) == Success(a)
    ensures PlainAttrs(attrs[..k + 1], t', codec) == Success(plain + [NamedAttr(attrs[k].0, a)])
  {
    PlainAttrsStable(attrs[..k], t, t', codec);
    var s := attrs[..k + 1];
    assert s[..|s| - 1] == attrs[..k] && s[|s| - 1] == attrs[k];
  }

  lemma {:induction false} FuncEntriesStable(fs: seq<(string, AttrValue)>, t: NameTable, t': NameTable, codec: TensorCodec)
    requires Extends(t, t') && FuncEntries(fs, t, codec).Success?
    ensures FuncEntries(fs, t', codec) == FuncEntries(fs, t, codec)
    decreases |fs|
  {
    if |fs| > 0 {
      FuncEntriesStable(fs[..|fs| - 1], t, t', codec);
      var f := fs[|fs| - 1];
      if f.1.FuncVal? {
        FuncAttrEntriesStable(f.0, f.1.func, t, t', codec);
      }
    }
  }

  /** The name the operation gets from a node type: the IR name of a library
      function, the type itself otherwise. */
  function TypeNameFor(op: string, isFunction: bool, names: NameTable): string {
    if isFunction && op in names then names[op] else op
  }

  /** The result types of a node's operation (every output but the
      back-edge one, as the shape refiner inferred it) and its operands (data,
      then control) from the sorted incoming edges. */
  function NodeInputs(n: Node, g: Graph, backOut: map<nat, int>, ctxs: Contexts,
                      nv: map<nat, nat>, ops: map<nat, Op>, dtypes: DataTypeCodec): Result<(seq<Type>, (seq<Value>, seq<Value>))>
  {
    var skip := if n.id in backOut then Some(backOut[n.id]) else None;
    var types :- InferTypes(KeptOutputs(n.numOutputs, skip), ctxs, n, dtypes);
    var es := StableSort(Into(g.edges, n.id));
    var operands :- Gather(es, g.nodes, nv, ops, |es|);
    Success((types, operands))
  }

  /** What ConvertNode assembles for an operation node, from the importer's
      state: the operation state (name, data operands, result types,
      attributes) and the control operands. */
  function NodeSpec(n: Node, typeName: string, g: Graph, backOut: map<nat, int>, ctxs: Contexts,
                    nv: map<nat, nat>, ops: map<nat, Op>, names: NameTable,
                    tensors: TensorCodec, dtypes: DataTypeCodec): Result<(OpState, seq<Value>)>
  {
    var inputs :- NodeInputs(n, g, backOut, ctxs, nv, ops, dtypes);
    var attrs :- NodeAttrs(n, typeName, names, tensors);
    Success((OpState(OpNameFor(n, typeName, n.id in backOut), inputs.1.0, inputs.0, attrs), inputs.1.1))
  }
}
