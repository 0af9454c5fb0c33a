/** The produced IR, as plain records: types, attributes, values, operations
    (an island holds one inner operation and yields some of its results) and
    functions. Operations are filed by id; a block is a sequence of ids. */
module Ir {
  import opened Errors
  import opened TfTypes

  datatype ElementType = Elem(dtype: DataType) | Variant(subtypes: seq<TensorType>)

  /** An unranked tensor type, or a ranked one whose negative sizes mean "unknown". */
  datatype TensorType = Unranked(elem: ElementType) | Ranked(dims: seq<int>, elem: ElementType)

  /** Result types: tensors, the executor control type, and the NextIteration token type. */
  datatype Type = TensorTy(t: TensorType) | ControlTy | TokenTy

  /** IR attribute values. The type and shape manglings and tensor decoding of the
      codecs are represented by what they encode. */
  datatype Attr =
    | IntAttr(i: int)
    | StrAttr(s: string)
    | FloatAttr(f: Float32)
    | BoolAttr(b: bool)
    | MangledTypeAttr(dtype: DataType)
    | MangledShapeAttr(shape: ShapeProto)
    | ElementsAttr(tensor: TensorProto)
    | ArrayAttr(elems: seq<Attr>)
    | SymbolRefAttr(symbol: string)
    | UnitAttr

  datatype NamedAttr = NamedAttr(name: string, value: Attr)

  /** A use: result `index` of the operation with id `op`, or a block argument. */
  datatype Value = OpResult(op: nat, index: nat) | BlockArg(arg: nat)

  /** The single-operation body of an island: the wrapped operation and the
      indices of its results that the island's yield returns. */
  datatype Region = NoRegion | IslandRegion(inner: Op, results: seq<int>)

  datatype Op = Op(name: string, operands: seq<Value>, types: seq<Type>, attrs: seq<NamedAttr>, region: Region)

  /** A finished function: signature, attributes, its graph's operations in block
      order, and the values the graph's fetch returns. */
  datatype Func = Func(name: string, argTypes: seq<Type>, resultTypes: seq<Type>, attrs: seq<NamedAttr>,
                       ops: map<nat, Op>, block: seq<nat>, fetch: seq<Value>)

  const IslandName := "tf_executor.island"
  const SwitchName := "tf_executor.Switch"
  const SwitchNName := "tf_executor._SwitchN"
  const MergeName := "tf_executor.Merge"
  const LoopCondName := "tf_executor.LoopCond"
  const EnterName := "tf_executor.Enter"
  const ExitName := "tf_executor.Exit"
  const ControlTriggerName := "tf_executor.ControlTrigger"
  const NextIterationSourceName := "tf_executor.NextIteration.Source"
  const NextIterationSinkName := "tf_executor.NextIteration.Sink"

  /** The type of a value, looked up in the operations built so far. */
  function ValueType(ops: map<nat, Op>, argTypes: seq<Type>, v: Value): Option<Type> {
    match v
    case OpResult(id, i) =>
      if id in ops && i < |ops[id].types| then Some(ops[id].types[i]) else None
    case BlockArg(i) => if i < |argTypes| then Some(argTypes[i]) else None
  }

  function ReplaceValue(v: Value, from: Value, to: Value): Value {
    if v == from then to else v
  }

  function ReplaceInOperands(vs: seq<Value>, from: Value, to: Value): (r: seq<Value>)
    ensures |r| == |vs|
    ensures forall i :: 0 <= i < |vs| ==> r[i] == ReplaceValue(vs[i], from, to)
  {
    seq(|vs|, i requires 0 <= i < |vs| => ReplaceValue(vs[i], from, to))
  }

  /** replaceAllUsesWith within one operation, including the operation an island wraps. */
  function ReplaceInOp(op: Op, from: Value, to: Value): (r: Op)
    ensures r.name == op.name && r.types == op.types && r.attrs == op.attrs
    ensures r.operands == ReplaceInOperands(op.operands, from, to)
  {
    var region := match op.region
      case NoRegion => NoRegion
      case IslandRegion(inner, ys) =>
        IslandRegion(inner.(operands := ReplaceInOperands(inner.operands, from, to)), ys);
    op.(operands := ReplaceInOperands(op.operands, from, to), region := region)
  }

  /** replaceAllUsesWith over every operation of a function body. */
  function ReplaceAllUses(ops: map<nat, Op>, from: Value, to: Value): (r: map<nat, Op>)
    ensures r.Keys == ops.Keys
    ensures forall id :: id in ops ==> r[id] == ReplaceInOp(ops[id], from, to)
  {
    map id | id in ops :: ReplaceInOp(ops[id], from, to)
  }

  /** True when no operation (or wrapped operation) still uses v. */
  predicate NoUses(ops: map<nat, Op>, v: Value) {
    forall id | id in ops ::
      && v !in ops[id].operands
      && (ops[id].region.IslandRegion? ==> v !in ops[id].region.inner.operands)
  }

  /** After replacing v by w (w distinct from v), nothing uses v any more. */
  lemma ReplaceAllUsesRemovesUses(ops: map<nat, Op>, v: Value, w: Value)
    requires v != w
    ensures NoUses(ReplaceAllUses(ops, v, w), v)
  {
    var r := ReplaceAllUses(ops, v, w);
    forall id | id in r
      ensures v !in r[id].operands
      ensures r[id].region.IslandRegion? ==> v !in r[id].region.inner.operands
    {
      NotInReplaced(ops[id].operands, v, w);
      if ops[id].region.IslandRegion? {
        NotInReplaced(ops[id].region.inner.operands, v, w);
      }
    }
  }

  lemma NotInReplaced(vs: seq<Value>, v: Value, w: Value)
    requires v != w
    ensures v !in ReplaceInOperands(vs, v, w)
  {
    var r := ReplaceInOperands(vs, v, w);
    assert forall i :: 0 <= i < |r| ==> r[i] != v;
  }

  /** The block with `id` inserted right before `before` (or appended if absent). */
  function InsertBefore(block: seq<nat>, before: nat, id: nat): (r: seq<nat>)
    ensures |r| == |block| + 1
    ensures id in r && forall x :: x in block ==> x in r
    ensures forall x :: x in r ==> x in block || x == id
    decreases |block|
  {
    if |block| == 0 then [id]
    else if block[0] == before then [id] + block
    else [block[0]] + InsertBefore(block[1..], before, id)
  }

  /** The block with every occurrence of `id` erased. */
  function Erase(block: seq<nat>, id: nat): (r: seq<nat>)
    ensures id !in r && forall x :: x in block && x != id ==> x in r
    ensures forall x :: x in r ==> x in block
    decreases |block|
  {
    if |block| == 0 then []
    else (if block[0] == id then [] else [block[0]]) + Erase(block[1..], id)
  }

  /** Replacing uses of one value never introduces a use of another value v
      (other than the replacement itself). */
  lemma ReplaceKeepsNoUses(ops: map<nat, Op>, v: Value, from: Value, to: Value)
    requires NoUses(ops, v) && to != v
    ensures NoUses(ReplaceAllUses(ops, from, to), v)
  {
    var r := ReplaceAllUses(ops, from, to);
    forall id | id in r
      ensures v !in r[id].operands
      ensures r[id].region.IslandRegion? ==> v !in r[id].region.inner.operands
    {
      var rs := r[id].operands;
      assert forall i :: 0 <= i < |rs| ==> rs[i] != v;
      if r[id].region.IslandRegion? {
        var ri := r[id].region.inner.operands;
        assert forall i :: 0 <= i < |ri| ==> ri[i] != v;
      }
    }
  }

  /** A use of result i < k of operation `from` redirected to result i of operation `to`. */
  function Redirect(v: Value, from: nat, to: nat, k: nat): Value {
    if v.OpResult? && v.op == from && v.index < k then OpResult(to, v.index) else v
  }

  function RedirectOperands(vs: seq<Value>, from: nat, to: nat, k: nat): (r: seq<Value>)
    ensures |r| == |vs| && forall i :: 0 <= i < |vs| ==> r[i] == Redirect(vs[i], from, to, k)
  {
    seq(|vs|, i requires 0 <= i < |vs| => Redirect(vs[i], from, to, k))
  }

  function RedirectOp(op: Op, from: nat, to: nat, k: nat): (r: Op)
    ensures r.name == op.name && r.types == op.types && r.attrs == op.attrs
    ensures r.operands == RedirectOperands(op.operands, from, to, k)
  {
    var region := match op.region
      case NoRegion => NoRegion
      case IslandRegion(inner, ys) =>
        IslandRegion(inner.(operands := RedirectOperands(inner.operands, from, to, k)), ys);
    op.(operands := RedirectOperands(op.operands, from, to, k), region := region)
  }

  /** Every use of results 0 .. k-1 of `from` moved over to `to`: what the
      result-by-result replaceAllUsesWith loop has done after k turns. */
  function RedirectAll(ops: map<nat, Op>, from: nat, to: nat, k: nat): (r: map<nat, Op>)
    ensures r.Keys == ops.Keys
  {
    map id | id in ops :: RedirectOp(ops[id], from, to, k)
  }

  lemma RedirectOpStep(op: Op, from: nat, to: nat, k: nat)
    requires from != to
    ensures ReplaceInOp(RedirectOp(op, from, to, k), OpResult(from, k), OpResult(to, k)) == RedirectOp(op, from, to, k + 1)
  {
    assert ReplaceInOperands(RedirectOperands(op.operands, from, to, k), OpResult(from, k), OpResult(to, k))
        == RedirectOperands(op.operands, from, to, k + 1);
    if op.region.IslandRegion? {
      var vs := op.region.inner.operands;
      assert ReplaceInOperands(RedirectOperands(vs, from, to, k), OpResult(from, k), OpResult(to, k))
          == RedirectOperands(vs, from, to, k + 1);
    }
  }

  /** One more turn of the replacement loop moves result k as well. */
  lemma RedirectStep(ops: map<nat, Op>, from: nat, to: nat, k: nat)
    requires from != to
    ensures ReplaceAllUses(RedirectAll(ops, from, to, k), OpResult(from, k), OpResult(to, k)) == RedirectAll(ops, from, to, k + 1)
  {
    forall id | id in ops {
      RedirectOpStep(ops[id], from, to, k);
    }
  }

  /** Before the first turn nothing has moved. */
  lemma RedirectNone(ops: map<nat, Op>, from: nat, to: nat)
    ensures RedirectAll(ops, from, to, 0) == ops
  {
    forall id | id in ops ensures RedirectOp(ops[id], from, to, 0) == ops[id] {
      var op := ops[id];
      assert RedirectOperands(op.operands, from, to, 0) == op.operands;
      if op.region.IslandRegion? {
        assert RedirectOperands(op.region.inner.operands, from, to, 0) == op.region.inner.operands;
      }
    }
  }

  /** After the loop no operation uses any of the first k results of `from`. */
  lemma RedirectRemovesUses(ops: map<nat, Op>, from: nat, to: nat, k: nat, i: nat)
    requires from != to && i < k
    ensures NoUses(RedirectAll(ops, from, to, k), OpResult(from, i))
  {
    var r := RedirectAll(ops, from, to, k);
    forall id | id in r
      ensures OpResult(from, i) !in r[id].operands
      ensures r[id].region.IslandRegion? ==> OpResult(from, i) !in r[id].region.inner.operands
    {
      var rs := r[id].operands;
      assert forall j :: 0 <= j < |rs| ==> rs[j] != OpResult(from, i);
      if r[id].region.IslandRegion? {
        var ri := r[id].region.inner.operands;
        assert forall j :: 0 <= j < |ri| ==> ri[j] != OpResult(from, i);
      }
    }
  }
}
