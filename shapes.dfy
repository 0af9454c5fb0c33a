/** Shape bookkeeping of the importer: the shape refiner's per-node inference
    contexts, the `same_inferred_shape` equality used to detect convergence,
    the conversion of an inferred shape to an IR tensor type, and the bounded
    refinement loop. The refiner's shape functions are an oracle. */
module Shapes {
  import opened Errors
  import opened TfTypes
  import opened TfGraph
  import opened Ir

  /** A dimension handle; a negative value means the size is unknown. */
  datatype DimHandle = DimHandle(id: nat, value: int)

  /** A shape handle; `dims` is None when the rank is unknown. */
  datatype ShapeHandle = ShapeHandle(id: nat, dims: Option<seq<DimHandle>>)

  datatype ShapeAndType = ShapeAndType(shape: ShapeHandle, dtype: DataType)

  /** What the refiner knows about one node: shapes, dtypes and resource
      handle data of its outputs and inputs. */
  datatype NodeContext = NodeContext(
    outputs: seq<ShapeHandle>, outputTypes: seq<DataType>, outputHandles: seq<Option<seq<ShapeAndType>>>,
    inputs: seq<ShapeHandle>, inputTypes: seq<DataType>, inputHandles: seq<Option<seq<ShapeAndType>>>)

  type Contexts = map<nat, NodeContext>

  /** Shape functions of the refiner: the context of a node computed from the
      contexts of the others (AddNode and UpdateNode). */
  type ShapeFn = (Contexts, Node) -> Result<NodeContext>

  /** ConvertDataType: a codec from a dtype to an IR element type. */
  type DataTypeCodec = DataType -> Result<ElementType>

  const MaxIterationCount: nat := 2
  const UnknownDim: int := -1

  /** Two dimensions disagree only when both sizes are known and differ. */
  predicate SameDim(d0: DimHandle, d1: DimHandle) {
    d0.id == d1.id || !(d0.value >= 0 && d1.value >= 0 && d0.value != d1.value)
  }

  /** The convergence test of the fixpoint loop: the same handle, both ranks
      unknown, or equal ranks with no pair of known, different sizes. */
  predicate SameInferredShape(s0: ShapeHandle, s1: ShapeHandle) {
    if s0.id == s1.id || (s0.dims.None? && s1.dims.None?) then true
    else if s0.dims.None? || s1.dims.None? then false
    else
      var ds0, ds1 := s0.dims.value, s1.dims.value;
      |ds0| == |ds1| && forall i :: 0 <= i < |ds0| ==> SameDim(ds0[i], ds1[i])
  }

  function DimSize(d: DimHandle): int {
    if d.value >= 0 then d.value else UnknownDim
  }

  /** An unknown rank becomes an unranked type; otherwise every dimension keeps
      its known size and an unknown one becomes -1. */
  function ConvertElementTypeAndShape(elem: ElementType, handle: ShapeHandle): (r: TensorType)
    ensures r.elem == elem
    ensures r.Unranked? <==> handle.dims.None?
    ensures r.Ranked? ==> |r.dims| == |handle.dims.value|
    ensures r.Ranked? ==> forall i :: 0 <= i < |r.dims| ==>
      (r.dims[i] == UnknownDim <==> handle.dims.value[i].value < 0) &&
      (handle.dims.value[i].value >= 0 ==> r.dims[i] == handle.dims.value[i].value)
  {
    match handle.dims
    case None => Unranked(elem)
    case Some(ds) => Ranked(seq(|ds|, i requires 0 <= i < |ds| => DimSize(ds[i])), elem)
  }

  /** Two shapes that convert to the same IR type are the same inferred shape. */
  lemma ConvertedEqualImpliesSame(elem: ElementType, s0: ShapeHandle, s1: ShapeHandle)
    requires ConvertElementTypeAndShape(elem, s0) == ConvertElementTypeAndShape(elem, s1)
    ensures SameInferredShape(s0, s1)
  {
    var t0 := ConvertElementTypeAndShape(elem, s0);
    var t1 := ConvertElementTypeAndShape(elem, s1);
    if s0.dims.Some? {
      assert s1.dims.Some?;
      var ds0, ds1 := s0.dims.value, s1.dims.value;
      forall i | 0 <= i < |ds0| ensures SameDim(ds0[i], ds1[i]) {
        assert t0.dims[i] == t1.dims[i];
      }
    }
  }

  /** The converse fails: an unknown size matches any known one. */
  lemma SameInferredShapeIsCoarser()
    ensures var s0 := ShapeHandle(0, Some([DimHandle(0, -1)]));
            var s1 := ShapeHandle(1, Some([DimHandle(1, 5)]));
            SameInferredShape(s0, s1) &&
            ConvertElementTypeAndShape(Elem(1), s0) != ConvertElementTypeAndShape(Elem(1), s1)
  {
    var s0 := ShapeHandle(0, Some([DimHandle(0, -1)]));
    var s1 := ShapeHandle(1, Some([DimHandle(1, 5)]));
    assert ConvertElementTypeAndShape(Elem(1), s0).dims[0] == -1;
  }

  /** ConvertSubtypes: each handle subtype converted with its own dtype. */
  function ConvertSubtypes(subtypes: Option<seq<ShapeAndType>>, codec: DataTypeCodec): (r: Result<seq<TensorType>>)
    ensures subtypes.None? ==> r == Success([])
    ensures r.Success? && subtypes.Some? ==> |r.value| == |subtypes.value|
    ensures r.Success? && subtypes.Some? ==> forall i :: 0 <= i < |r.value| ==>
      codec(subtypes.value[i].dtype).Success? &&
      r.value[i] == ConvertElementTypeAndShape(codec(subtypes.value[i].dtype).value, subtypes.value[i].shape)
    decreases if subtypes.None? then 0 else |subtypes.value|
  {
    match subtypes
    case None => Success([])
    case Some(ss) =>
      if |ss| == 0 then Success([])
      else
        var elem :- codec(ss[0].dtype);
        var rest :- ConvertSubtypes(Some(ss[1..]), codec);
        Success([ConvertElementTypeAndShape(elem, ss[0].shape)] + rest)
  }

  /** ConvertDataTypeAndShape: a variant dtype carries its converted subtypes,
      any other dtype goes through the codec. */
  function ConvertDataTypeAndShape(dtype: DataType, handle: ShapeHandle, subtypes: Option<seq<ShapeAndType>>,
                                   codec: DataTypeCodec): (r: Result<TensorType>)
    ensures r.Success? ==> ConvertSubtypes(subtypes, codec).Success?
    ensures r.Success? && dtype == DT_VARIANT ==>
      r.value == ConvertElementTypeAndShape(Variant(ConvertSubtypes(subtypes, codec).value), handle)
    ensures r.Success? && dtype != DT_VARIANT ==>
      codec(dtype).Success? && r.value == ConvertElementTypeAndShape(codec(dtype).value, handle)
  {
    var subs :- ConvertSubtypes(subtypes, codec);
    var elem :- if dtype == DT_VARIANT then Success(Variant(subs)) else codec(dtype);
    Success(ConvertElementTypeAndShape(elem, handle))
  }

  /** True when some output shape after refinement is not the same inferred
      shape as before. */
  predicate OutputsChanged(now: seq<ShapeHandle>, before: seq<ShapeHandle>)
    requires |now| == |before|
  {
    exists o :: 0 <= o < |now| && !SameInferredShape(now[o], before[o])
  }

  /** One node of a refinement round: UpdateNode on it, and whether any of its
      outputs changed. */
  function Step(ctxs: Contexts, n: Node, update: ShapeFn): (r: Result<(Contexts, bool)>)
    ensures r.Success? ==> r.value.0.Keys == ctxs.Keys
  {
    if n.id !in ctxs then Failure(Internal, "node has no shape inference context")
    else
      var existing := ctxs[n.id].outputs;
      var c :- update(ctxs, n);
      if |c.outputs| != |existing| then Failure(Internal, "shape refinement changed the number of outputs")
      else Success((ctxs[n.id := c], OutputsChanged(c.outputs, existing)))
  }

  /** The rest of a round, from position k of the node order, with the changed
      flag so far. */
  function PassFrom(ctxs: Contexts, order: seq<Node>, k: nat, changed: bool, update: ShapeFn): (r: Result<(Contexts, bool)>)
    requires k <= |order|
    ensures r.Success? ==> r.value.0.Keys == ctxs.Keys
    ensures r.Success? && changed ==> r.value.1
    decreases |order| - k
  {
    if k == |order| then Success((ctxs, changed))
    else
      var (c, ch) :- Step(ctxs, order[k], update);
      PassFrom(c, order, k + 1, changed || ch, update)
  }

  /** The refinement loop from round i: stop once a round changed nothing or
      MaxIterationCount rounds ran; the result is the contexts and the number
      of rounds. */
  function Fixpoint(ctxs: Contexts, order: seq<Node>, i: nat, changed: bool, update: ShapeFn): (r: Result<(Contexts, nat)>)
    requires i <= MaxIterationCount
    ensures r.Success? ==> i <= r.value.1 <= MaxIterationCount
    ensures r.Success? && changed && i < MaxIterationCount ==> i < r.value.1
    ensures r.Success? ==> r.value.0.Keys == ctxs.Keys
    decreases MaxIterationCount - i
  {
    if !(changed && i != MaxIterationCount) then Success((ctxs, i))
    else
      var (c, ch) :- PassFrom(ctxs, order, 0, false, update);
      Fixpoint(c, order, i + 1, ch, update)
  }

  /** The shape functions never fail and keep each node's number of outputs. */
  ghost predicate WellBehaved(update: ShapeFn) {
    forall c: Contexts, n: Node ::
      update(c, n).Success? && (n.id in c ==> |update(c, n).value.outputs| == |c[n.id].outputs|)
  }

  lemma {:induction false} PassFromSucceeds(ctxs: Contexts, order: seq<Node>, k: nat, changed: bool, update: ShapeFn)
    requires k <= |order| && WellBehaved(update)
    requires forall j :: k <= j < |order| ==> order[j].id in ctxs
    ensures PassFrom(ctxs, order, k, changed, update).Success?
    decreases |order| - k
  {
    if k < |order| {
      var s := Step(ctxs, order[k], update);
      assert update(ctxs, order[k]).Success?;
      PassFromSucceeds(s.value.0, order, k + 1, changed || s.value.1, update);
    }
  }

  /** The loop itself never fails: when every ordered node has a context and
      the shape functions succeed, the result is OK after one or two rounds,
      converged or not. */
  lemma {:induction false} FixpointSucceeds(ctxs: Contexts, order: seq<Node>, i: nat, changed: bool, update: ShapeFn)
    requires i <= MaxIterationCount && WellBehaved(update)
    requires forall j :: 0 <= j < |order| ==> order[j].id in ctxs
    ensures Fixpoint(ctxs, order, i, changed, update).Success?
    decreases MaxIterationCount - i
  {
    if changed && i != MaxIterationCount {
      PassFromSucceeds(ctxs, order, 0, false, update);
      var p := PassFrom(ctxs, order, 0, false, update).value;
      FixpointSucceeds(p.0, order, i + 1, p.1, update);
    }
  }

  /** A first round that changes nothing ends the loop after one round. */
  lemma FixpointStopsWhenUnchanged(ctxs: Contexts, order: seq<Node>, update: ShapeFn)
    requires PassFrom(ctxs, order, 0, false, update).Success?
    requires !PassFrom(ctxs, order, 0, false, update).value.1
    ensures Fixpoint(ctxs, order, 0, true, update) == Success((PassFrom(ctxs, order, 0, false, update).value.0, 1))
  {
    var p := PassFrom(ctxs, order, 0, false, update).value;
    assert Fixpoint(p.0, order, 1, false, update) == Success((p.0, 1));
  }

  /** The refiner object: its per-node contexts and its shape functions. */
  class ShapeRefiner {
    var contexts: Contexts
    const addNode: ShapeFn
    const updateNode: ShapeFn

    constructor(addNode: ShapeFn, updateNode: ShapeFn)
      ensures contexts == map[] && this.addNode == addNode && this.updateNode == updateNode
    {
      contexts := map[];
      this.addNode := addNode;
      this.updateNode := updateNode;
    }

    /** AddNode: compute and record the node's context. */
    method AddNode(n: Node) returns (s: Status)
      modifies this
      ensures addNode(old(contexts), n).Success? ==> s == Ok && contexts == old(contexts)[n.id := addNode(old(contexts), n).value]
      ensures addNode(old(contexts), n).Failure? ==> s.Error? && contexts == old(contexts)
    {
      var c := addNode(contexts, n);
      if c.Failure? {
        return Error(c.code, c.msg);
      }
      contexts := contexts[n.id := c.value];
      return Ok;
    }

    /** InferenceContext::set_output: output i of the node's context becomes h. */
    method SetOutput(id: nat, i: nat, h: ShapeHandle) returns (s: Status)
      modifies this
      ensures id in old(contexts) && i < |old(contexts)[id].outputs| ==>
        s == Ok && contexts == old(contexts)[id := old(contexts)[id].(outputs := old(contexts)[id].outputs[i := h])]
      ensures !(id in old(contexts) && i < |old(contexts)[id].outputs|) ==>
        s.Error? && s.code == Internal && contexts == old(contexts)
    {
      if id !in contexts {
        return Error(Internal, "node has no shape inference context");
      }
      var c := contexts[id];
      if i >= |c.outputs| {
        return Error(Internal, "output index out of range of the inference context");
      }
      contexts := contexts[id := c.(outputs := c.outputs[i := h])];
      return Ok;
    }

    /** One UpdateNode call together with the comparison of the node's outputs
        against those it had before (the inner loop breaks at the first change). */
    method UpdateAndCompare(n: Node) returns (s: Status, changed: bool)
      modifies this
      ensures var r := Step(old(contexts), n, updateNode);
        (r.Success? ==> s == Ok && contexts == r.value.0 && changed == r.value.1) &&
        (r.Failure? ==> s == Error(r.code, r.msg))
    {
      if n.id !in contexts {
        return Error(Internal, "node has no shape inference context"), false;
      }
      var existing := contexts[n.id].outputs;
      var c := updateNode(contexts, n);
      if c.Failure? {
        return Error(c.code, c.msg), false;
      }
      var now := c.value.outputs;
      if |now| != |existing| {
        return Error(Internal, "shape refinement changed the number of outputs"), false;
      }
      contexts := contexts[n.id := c.value];
      changed := false;
      var o := 0;
      while o < |now|
        invariant 0 <= o <= |now|
        invariant !changed ==> forall p :: 0 <= p < o ==> SameInferredShape(now[p], existing[p])
        invariant changed ==> OutputsChanged(now, existing)
      {
        if !SameInferredShape(now[o], existing[o]) {
          changed := true;
          break;
        }
        o := o + 1;
      }
      s := Ok;
    }
  }

  /** The refinement loop of AddNodesToShapeRefiner: rounds over the node order
      while something changed, at most MaxIterationCount of them. */
  method RefineToFixpoint(refiner: ShapeRefiner, order: seq<Node>) returns (s: Status, rounds: nat)
    modifies refiner
    ensures var r := Fixpoint(old(refiner.contexts), order, 0, true, refiner.updateNode);
      (r.Success? ==> s == Ok && refiner.contexts == r.value.0 && rounds == r.value.1) &&
      (r.Failure? ==> s == Error(r.code, r.msg))
  {
    var changed := true;
    var i: nat := 0;
    ghost var goal := Fixpoint(refiner.contexts, order, 0, true, refiner.updateNode);
    while changed && i != MaxIterationCount
      invariant i <= MaxIterationCount
      invariant goal == Fixpoint(refiner.contexts, order, i, changed, refiner.updateNode)
      decreases MaxIterationCount - i
    {
      ghost var start := refiner.contexts;
      changed := false;
      var k := 0;
      while k < |order|
        invariant 0 <= k <= |order|
        invariant PassFrom(start, order, 0, false, refiner.updateNode) ==
                  PassFrom(refiner.contexts, order, k, changed, refiner.updateNode)
      {
        var st, ch := refiner.UpdateAndCompare(order[k]);
        if st.Error? {
          return st, i;
        }
        changed := changed || ch;
        k := k + 1;
      }
      i := i + 1;
    }
    return Ok, i;
  }
}
