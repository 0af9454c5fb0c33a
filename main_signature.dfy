/** GraphDefImporter::InferMainFunctionType: the signature of the imported
    main function. Declared inputs become arguments (output 0 of the node of
    that name); output arrays `name[:port]` become results. The ordered nodes
    and the refiner's contexts of the importer are passed in. */
module MainSignature {
  import opened Errors
  import opened Strings
  import opened TfTypes
  import opened TfGraph
  import opened Ir
  import opened Shapes
  import opened NodeConvert
  import opened ImportConfig

  /** ConvertToMlirShape: a codec from a shape proto to IR dimension sizes. */
  type ShapeCodec = ShapeProto -> Result<seq<int>>

  /** The node name of an output array: the text before the first ':'. */
  function PortName(spec: string): string {
    Before(spec, ':')
  }

  /** The port text of an output array: between the first and the second ':'
      (a std::pair split keeps only the first two pieces). */
  function PortText(spec: string): string {
    Before(After(spec, ':'), ':')
  }

  /** An empty port is port 0; otherwise the port must parse as an int32. */
  function ParsePort(text: string): (r: Option<int>)
    ensures text == "" ==> r == Some(0)
    ensures r.Some? ==> Int32Min <= r.value <= Int32Max
  {
    if |text| == 0 then Some(0) else SimpleAtoi(text)
  }

  /** A bare node name denotes its output 0. */
  lemma BareNameIsPortZero(name: string)
    requires ':' !in name
    ensures PortName(name) == name && ParsePort(PortText(name)) == Some(0)
  {
    SplitUnjoined(name, ':');
    assert After(name, ':') == "";
  }

  /** Writing `name:port` and splitting it again gives back the name and the
      port, for every int32 port. */
  lemma PortRoundTrip(name: string, port: int)
    requires ':' !in name && Int32Min <= port <= Int32Max
    ensures PortName(name + ":" + IntToString(port)) == name
    ensures ParsePort(PortText(name + ":" + IntToString(port))) == Some(port)
  {
    var p := IntToString(port);
    assert name + ":" + p == name + [':'] + p;
    SplitJoined(name, ':', p);
    assert ':' !in p by {
      forall k | 0 <= k < |p| ensures p[k] != ':' {
        assert IsDigit(p[k]) || p[k] == '-';
      }
    }
    SplitUnjoined(p, ':');
    SimpleAtoiRoundTrip(port);
  }

  /** The output-index check as written: only an index at or beyond the
      output count is rejected. */
  predicate OutputIndexAcceptedAsWritten(numOutputs: nat, index: int) {
    !(numOutputs <= index)
  }

  /** The output-index check as intended: the index names an output. */
  predicate ValidOutputIndex(numOutputs: nat, index: int) {
    0 <= index < numOutputs
  }

  /** The output array `y:-1` parses to port -1, which the check as written
      lets through although no output has a negative index. */
  lemma NegativePortPassesRangeCheck()
    ensures ParsePort(PortText("y:-1")) == Some(-1)
    ensures OutputIndexAcceptedAsWritten(1, -1) && !ValidOutputIndex(1, -1)
  {
    assert IntToString(-1) == "-1" by {
      assert NatToString(1) == "1";
    }
    assert "y" + ":" + IntToString(-1) == "y:-1";
    PortRoundTrip("y", -1);
  }

  /** The last of the ordered nodes with this name: the one the loop over the
      nodes leaves in a slot. */
  function LastNamed(nodes: seq<Node>, name: string): (r: Option<Node>)
    ensures r.Some? ==> r.value in nodes && r.value.name == name
    ensures r.None? <==> forall k :: 0 <= k < |nodes| ==> nodes[k].name != name
    decreases |nodes|
  {
    if |nodes| == 0 then None
    else if nodes[|nodes| - 1].name == name then Some(nodes[|nodes| - 1])
    else LastNamed(nodes[..|nodes| - 1], name)
  }

  lemma LastNamedSnoc(nodes: seq<Node>, n: Node, name: string)
    ensures LastNamed(nodes + [n], name) == if n.name == name then Some(n) else LastNamed(nodes, name)
  {
    assert (nodes + [n])[..|nodes|] == nodes;
  }

  /** The slot of output array `spec` once `nodes` were scanned: the last node
      carrying its name, provided the name is one of the output arrays, with
      the spec's port. */
  function OutputSlot(nodes: seq<Node>, outputArrays: seq<string>, spec: string): Option<(Node, int)> {
    var name := PortName(spec);
    var n := LastNamed(nodes, name);
    var port := ParsePort(PortText(spec));
    if name in outputArrays && n.Some? && port.Some? then Some((n.value, port.value)) else None
  }

  /** An output array whose node is among `nodes` but whose port does not parse. */
  predicate BadPort(nodes: seq<Node>, outputArrays: seq<string>, spec: string) {
    PortName(spec) in outputArrays && LastNamed(nodes, PortName(spec)).Some? && ParsePort(PortText(spec)).None?
  }

  /** The declared inputs form a std::map: no key twice. */
  predicate KeysUnique(inputs: seq<(string, ArrayInfo)>) {
    forall a, b :: 0 <= a < b < |inputs| ==> inputs[a].0 != inputs[b].0
  }

  /** specs.inputs.find(name), as a position in key order. */
  function KeyIndex(inputs: seq<(string, ArrayInfo)>, name: string): (r: Option<nat>)
    ensures r.Some? ==> r.value < |inputs| && inputs[r.value].0 == name
    ensures r.None? ==> forall k :: 0 <= k < |inputs| ==> inputs[k].0 != name
    decreases |inputs|
  {
    if |inputs| == 0 then None
    else if inputs[|inputs| - 1].0 == name then Some(|inputs| - 1)
    else KeyIndex(inputs[..|inputs| - 1], name)
  }

  const InvalidPortMsg := "Invalid port specification: "

  /** Scanning one more node changes an output array's slot only when the
      node carries its name: then the slot takes the node, or the port is bad. */
  lemma SlotStep(before: seq<Node>, n: Node, arrays: seq<string>, spec: string)
    requires n.name in arrays
    ensures PortName(spec) == n.name ==>
      && (ParsePort(PortText(spec)).Some? ==> OutputSlot(before + [n], arrays, spec) == Some((n, ParsePort(PortText(spec)).value)))
      && (BadPort(before + [n], arrays, spec) <==> ParsePort(PortText(spec)).None?)
    ensures PortName(spec) != n.name ==>
      OutputSlot(before + [n], arrays, spec) == OutputSlot(before, arrays, spec) && BadPort(before + [n], arrays, spec) == BadPort(before, arrays, spec)
  {
    LastNamedSnoc(before, n, PortName(spec));
  }

  /** The inner loop over the output arrays for one node whose name is an
      output array: every output array naming it gets the node and its port,
      unless a port does not parse. */
  method MatchOutputs(ghost before: seq<Node>, n: Node, outputArrays: seq<string>, outs: seq<string>,
                      rets: seq<Option<(Node, int)>>) returns (r: Result<seq<Option<(Node, int)>>>)
    requires n.name in outputArrays
    requires |rets| == |outs| && forall i :: 0 <= i < |outs| ==> rets[i] == OutputSlot(before, outputArrays, outs[i])
    requires forall i :: 0 <= i < |outs| ==> !BadPort(before, outputArrays, outs[i])
    ensures r.Failure? <==> exists i :: 0 <= i < |outs| && BadPort(before + [n], outputArrays, outs[i])
    ensures r.Failure? ==> r.code == InvalidArgument && exists i ::
      0 <= i < |outs| && BadPort(before + [n], outputArrays, outs[i]) && r.msg == InvalidPortMsg + outs[i]
    ensures r.Success? ==> |r.value| == |outs| && forall i :: 0 <= i < |outs| ==>
      r.value[i] == OutputSlot(before + [n], outputArrays, outs[i])
  {
    var slots := rets;
    var i := 0;
    while i < |outs|
      invariant 0 <= i <= |outs| && Matched(slots, rets, before + [n], outputArrays, outs, i)
    {
      var name := PortName(outs[i]);
      SlotStep(before, n, outputArrays, outs[i]);
      ghost var prev := slots;
      if name == n.name {
        var port := ParsePort(PortText(outs[i]));
        if port.None? {
          return Failure(InvalidArgument, InvalidPortMsg + outs[i]);
        }
        slots := slots[i := Some((n, port.value))];
      }
      MatchStep(prev, slots, rets, before + [n], outputArrays, outs, i);
      i := i + 1;
    }
    return Success(slots);
  }

  /** The first i output slots are final and good, the rest untouched. */
  predicate Matched(slots: seq<Option<(Node, int)>>, rets: seq<Option<(Node, int)>>, nodes: seq<Node>,
                    arrays: seq<string>, outs: seq<string>, i: nat) {
    && |slots| == |outs| == |rets| && i <= |outs|
    && (forall j :: 0 <= j < i ==> slots[j] == OutputSlot(nodes, arrays, outs[j]) && !BadPort(nodes, arrays, outs[j]))
    && (forall j :: i <= j < |outs| ==> slots[j] == rets[j])
  }

  lemma MatchStep(prev: seq<Option<(Node, int)>>, slots: seq<Option<(Node, int)>>, rets: seq<Option<(Node, int)>>,
                  nodes: seq<Node>, arrays: seq<string>, outs: seq<string>, i: nat)
    requires Matched(prev, rets, nodes, arrays, outs, i) && i < |outs|
    requires |slots| == |prev| && slots[i] == OutputSlot(nodes, arrays, outs[i]) && !BadPort(nodes, arrays, outs[i])
    requires forall j :: 0 <= j < |prev| && j != i ==> slots[j] == prev[j]
    ensures Matched(slots, rets, nodes, arrays, outs, i + 1)
  {
  }

  /** The input slots after `nodes` were scanned: each declared input holds
      the last node of its name. */
  predicate InputSlots(args: seq<Option<Node>>, inputs: seq<(string, ArrayInfo)>, nodes: seq<Node>) {
    |args| == |inputs| && forall k :: 0 <= k < |inputs| ==> args[k] == LastNamed(nodes, inputs[k].0)
  }

  /** The output slots after `nodes` were scanned. */
  predicate OutputSlots(rets: seq<Option<(Node, int)>>, arrays: seq<string>, outs: seq<string>, nodes: seq<Node>) {
    |rets| == |outs| && forall i :: 0 <= i < |outs| ==> rets[i] == OutputSlot(nodes, arrays, outs[i])
  }

  predicate NoBadPort(nodes: seq<Node>, arrays: seq<string>, outs: seq<string>) {
    forall i :: 0 <= i < |outs| ==> !BadPort(nodes, arrays, outs[i])
  }

  /** One step of the loop over the ordered nodes: node `n` fills the slot of
      its declared input, if any, and the slots of the output arrays naming
      it, if its name is an output array. */
  method ScanNode(ghost before: seq<Node>, n: Node, specs: Specs, args: seq<Option<Node>>, rets: seq<Option<(Node, int)>>)
    returns (r: Result<(seq<Option<Node>>, seq<Option<(Node, int)>>)>)
    requires KeysUnique(specs.inputs)
    requires InputSlots(args, specs.inputs, before)
    requires OutputSlots(rets, specs.outputArrays, specs.outputArraysOrder, before)
    requires NoBadPort(before, specs.outputArrays, specs.outputArraysOrder)
    ensures var outs := specs.outputArraysOrder;
      r.Failure? <==> exists i :: 0 <= i < |outs| && BadPort(before + [n], specs.outputArrays, outs[i])
    ensures var outs := specs.outputArraysOrder;
      r.Failure? ==> r.code == InvalidArgument && exists i ::
        0 <= i < |outs| && BadPort(before + [n], specs.outputArrays, outs[i]) && r.msg == InvalidPortMsg + outs[i]
    ensures r.Success? ==> InputSlots(r.value.0, specs.inputs, before + [n])
    ensures r.Success? ==> OutputSlots(r.value.1, specs.outputArrays, specs.outputArraysOrder, before + [n])
  {
    var ins, outs, arrays := specs.inputs, specs.outputArraysOrder, specs.outputArrays;
    var args' := args;
    var idx := KeyIndex(ins, n.name);
    if idx.Some? {
      args' := args[idx.value := Some(n)];
    }
    forall k | 0 <= k < |ins| ensures args'[k] == LastNamed(before + [n], ins[k].0) {
      LastNamedSnoc(before, n, ins[k].0);
    }
    if n.name in arrays {
      var m := MatchOutputs(before, n, arrays, outs, rets);
      if m.Failure? {
        return Failure(m.code, m.msg);
      }
      return Success((args', m.value));
    }
    forall i | 0 <= i < |outs| ensures OutputSlot(before + [n], arrays, outs[i]) == OutputSlot(before, arrays, outs[i])
      && BadPort(before + [n], arrays, outs[i]) == BadPort(before, arrays, outs[i]) {
      LastNamedSnoc(before, n, PortName(outs[i]));
    }
    return Success((args', rets));
  }

  /** The loop over the ordered nodes: the input slots (in key order) and the
      output slots (in the user's order) it fills. */
  method CollectEndpoints(specs: Specs, order: seq<Node>) returns (r: Result<(seq<Option<Node>>, seq<Option<(Node, int)>>)>)
    requires KeysUnique(specs.inputs)
    ensures var outs := specs.outputArraysOrder;
      r.Failure? <==> exists i :: 0 <= i < |outs| && BadPort(order, specs.outputArrays, outs[i])
    ensures var outs := specs.outputArraysOrder;
      r.Failure? ==> r.code == InvalidArgument && exists i ::
        0 <= i < |outs| && BadPort(order, specs.outputArrays, outs[i]) && r.msg == InvalidPortMsg + outs[i]
    ensures r.Success? ==> |r.value.0| == |specs.inputs| && forall k :: 0 <= k < |specs.inputs| ==>
      r.value.0[k] == LastNamed(order, specs.inputs[k].0)
    ensures r.Success? ==> |r.value.1| == |specs.outputArraysOrder| && forall i :: 0 <= i < |specs.outputArraysOrder| ==>
      r.value.1[i] == OutputSlot(order, specs.outputArrays, specs.outputArraysOrder[i])
  {
    var args: seq<Option<Node>> := seq(|specs.inputs|, _ => None);
    var rets: seq<Option<(Node, int)>> := seq(|specs.outputArraysOrder|, _ => None);
    var j := 0;
    while j < |order|
      invariant 0 <= j <= |order|
      invariant InputSlots(args, specs.inputs, order[..j])
      invariant OutputSlots(rets, specs.outputArrays, specs.outputArraysOrder, order[..j])
      invariant NoBadPort(order[..j], specs.outputArrays, specs.outputArraysOrder)
    {
      assert order[..j + 1] == order[..j] + [order[j]];
      var step := ScanNode(order[..j], order[j], specs, args, rets);
      if step.Failure? {
        BadPortExtends(order[..j + 1], order, specs.outputArrays, specs.outputArraysOrder);
        return Failure(step.code, step.msg);
      }
      args, rets := step.value.0, step.value.1;
      j := j + 1;
    }
    assert order[..j] == order;
    return Success((args, rets));
  }

  /** A port that is bad once some nodes were scanned stays bad after more. */
  lemma BadPortExtends(prefix: seq<Node>, nodes: seq<Node>, arrays: seq<string>, outs: seq<string>)
    requires prefix <= nodes
    ensures forall i :: 0 <= i < |outs| && BadPort(prefix, arrays, outs[i]) ==> BadPort(nodes, arrays, outs[i])
  {
    forall i | 0 <= i < |outs| && BadPort(prefix, arrays, outs[i]) ensures BadPort(nodes, arrays, outs[i]) {
      var name := PortName(outs[i]);
      var m := LastNamed(prefix, name).value;
      var k :| 0 <= k < |prefix| && prefix[k] == m;
      assert nodes[k].name == name;
    }
  }

  function MissingInputMsg(name: string): string {
    "Input " + name + " was not found in graph"
  }

  function MissingOutputMsg(spec: string): string {
    "Output " + spec + " was not found in graph"
  }

  function InvalidIndexMsg(index: int, name: string): string {
    "Invalid output index " + IntToString(index) + " specified for node: " + name
  }

  /** The first input slot left empty is reported. */
  method CheckInputsFound(inputs: seq<(string, ArrayInfo)>, args: seq<Option<Node>>) returns (s: Status)
    requires |args| == |inputs|
    ensures s == Ok <==> forall k :: 0 <= k < |args| ==> args[k].Some?
    ensures s.Error? ==> exists k ::
      && 0 <= k < |args| && args[k].None? && (forall j :: 0 <= j < k ==> args[j].Some?)
      && s == Error(InvalidArgument, MissingInputMsg(inputs[k].0))
  {
    var k := 0;
    while k < |args|
      invariant 0 <= k <= |args| && forall j :: 0 <= j < k ==> args[j].Some?
    {
      if args[k].None? {
        return Error(InvalidArgument, MissingInputMsg(inputs[k].0));
      }
      k := k + 1;
    }
    return Ok;
  }

  /** The first output slot left empty is reported; a slot beyond the
      vector (never resized when there are neither inputs nor output arrays)
      is an error too. */
  method CheckOutputsFound(outs: seq<string>, rets: seq<Option<(Node, int)>>) returns (s: Status)
    ensures s == Ok <==> |outs| <= |rets| && forall i :: 0 <= i < |outs| ==> rets[i].Some?
    ensures s.Error? && |outs| <= |rets| ==> exists i ::
      && 0 <= i < |outs| && rets[i].None? && (forall j :: 0 <= j < i ==> rets[j].Some?)
      && s == Error(InvalidArgument, MissingOutputMsg(outs[i]))
  {
    var i := 0;
    while i < |outs|
      invariant 0 <= i <= |outs| && (i <= |rets| && forall j :: 0 <= j < i ==> rets[j].Some?)
    {
      if i >= |rets| {
        return Error(Internal, "output slot out of range");
      }
      if rets[i].None? {
        return Error(InvalidArgument, MissingOutputMsg(outs[i]));
      }
      i := i + 1;
    }
    return Ok;
  }

  /** The type of a declared input: its dtype and shape through the codecs. */
  function InputType(info: ArrayInfo, dtypes: DataTypeCodec, shapes: ShapeCodec): Result<Type> {
    var elem :- dtypes(info.dtype);
    var dims :- shapes(info.shape);
    Success(TensorTy(Ranked(dims, elem)))
  }

  /** The argument types, one per declared input, or the first codec error. */
  method ArgTypes(inputs: seq<(string, ArrayInfo)>, dtypes: DataTypeCodec, shapes: ShapeCodec) returns (r: Result<seq<Type>>)
    ensures r.Success? <==> forall k :: 0 <= k < |inputs| ==> InputType(inputs[k].1, dtypes, shapes).Success?
    ensures r.Success? ==> |r.value| == |inputs| && forall k :: 0 <= k < |inputs| ==>
      r.value[k] == InputType(inputs[k].1, dtypes, shapes).value
  {
    var types: seq<Type> := [];
    var k := 0;
    while k < |inputs|
      invariant 0 <= k <= |inputs| && |types| == k
      invariant forall j :: 0 <= j < k ==> InputType(inputs[j].1, dtypes, shapes).Success?
      invariant forall j :: 0 <= j < k ==> types[j] == InputType(inputs[j].1, dtypes, shapes).value
    {
      var t := InputType(inputs[k].1, dtypes, shapes);
      if t.Failure? {
        return Failure(t.code, t.msg);
      }
      types := types + [t.value];
      k := k + 1;
    }
    return Success(types);
  }

  /** The type of a result: the refiner's type of the named output. */
  function ResultType(ctxs: Contexts, slot: (Node, int), dtypes: DataTypeCodec): Result<Type> {
    var (n, port) := slot;
    if !ValidOutputIndex(n.numOutputs, port) then Failure(InvalidArgument, InvalidIndexMsg(port, n.name))
    else
      var t :- InferOutputType(ctxs, n, port, dtypes);
      Success(TensorTy(t))
  }

  /** The result types, one per output array; an output index outside the
      node's outputs is InvalidArgument. */
  method RetTypes(ctxs: Contexts, slots: seq<(Node, int)>, dtypes: DataTypeCodec) returns (r: Result<seq<Type>>)
    ensures r.Success? <==> forall i :: 0 <= i < |slots| ==> ResultType(ctxs, slots[i], dtypes).Success?
    ensures r.Success? ==> |r.value| == |slots| && forall i :: 0 <= i < |slots| ==>
      ValidOutputIndex(slots[i].0.numOutputs, slots[i].1) && r.value[i] == ResultType(ctxs, slots[i], dtypes).value
    ensures r.Failure? ==> exists i ::
      && 0 <= i < |slots| && ResultType(ctxs, slots[i], dtypes).Failure?
      && r == Failure(ResultType(ctxs, slots[i], dtypes).code, ResultType(ctxs, slots[i], dtypes).msg)
  {
    var types: seq<Type> := [];
    var i := 0;
    while i < |slots|
      invariant 0 <= i <= |slots| && |types| == i
      invariant forall j :: 0 <= j < i ==> ResultType(ctxs, slots[j], dtypes).Success?
      invariant forall j :: 0 <= j < i ==> types[j] == ResultType(ctxs, slots[j], dtypes).value
    {
      var t := ResultType(ctxs, slots[i], dtypes);
      if t.Failure? {
        return Failure(t.code, t.msg);
      }
      types := types + [t.value];
      i := i + 1;
    }
    return Success(types);
  }

  /** The nodes found for the declared inputs and the output arrays, in
      their orders: the node scan (only when there are inputs or output
      arrays), then the reports of a missing input and a missing output. */
  method FindEndpoints(specs: Specs, order: seq<Node>) returns (r: Result<(seq<Node>, seq<(Node, int)>)>)
    requires KeysUnique(specs.inputs)
    ensures var outs := specs.outputArraysOrder;
      (exists i :: 0 <= i < |outs| && BadPort(order, specs.outputArrays, outs[i])) ==> r.Failure? && r.code == InvalidArgument
    ensures (exists k :: 0 <= k < |specs.inputs| && LastNamed(order, specs.inputs[k].0).None?) ==> r.Failure?
    ensures r.Success? ==> |r.value.0| == |specs.inputs| && forall k :: 0 <= k < |specs.inputs| ==>
      LastNamed(order, specs.inputs[k].0) == Some(r.value.0[k])
    ensures r.Success? ==> |r.value.1| == |specs.outputArraysOrder| && forall i :: 0 <= i < |specs.outputArraysOrder| ==>
      OutputSlot(order, specs.outputArrays, specs.outputArraysOrder[i]) == Some(r.value.1[i])
  {
    var args: seq<Option<Node>> := seq(|specs.inputs|, _ => None);
    var rets: seq<Option<(Node, int)>> := [];
    if specs.inputs != [] || specs.outputArrays != [] {
      var c := CollectEndpoints(specs, order);
      if c.Failure? {
        return Failure(c.code, c.msg);
      }
      args, rets := c.value.0, c.value.1;
    }
    var s := CheckInputsFound(specs.inputs, args);
    if s.Error? {
      return Failure(s.code, s.msg);
    }
    s := CheckOutputsFound(specs.outputArraysOrder, rets);
    if s.Error? {
      return Failure(s.code, s.msg);
    }
    var nodes := seq(|args|, k requires 0 <= k < |args| => args[k].value);
    var slots := seq(|specs.outputArraysOrder|, i requires 0 <= i < |specs.outputArraysOrder| => rets[i].value);
    return Success((nodes, slots));
  }

  /** The main function's type and the nodes behind its arguments and results. */
  datatype Signature = Signature(funcType: FuncType, argNodes: seq<OutputTensor>, retNodes: seq<OutputTensor>)

  /** InferMainFunctionType: find the nodes of the declared inputs and output
      arrays, then type the arguments through the codecs and the results
      through the refiner, rejecting an output index that names no output. */
  method InferMainFunctionType(specs: Specs, order: seq<Node>, ctxs: Contexts, dtypes: DataTypeCodec, shapes: ShapeCodec)
    returns (r: Result<Signature>)
    requires KeysUnique(specs.inputs)
    ensures var outs := specs.outputArraysOrder;
      (exists i :: 0 <= i < |outs| && BadPort(order, specs.outputArrays, outs[i])) ==> r.Failure? && r.code == InvalidArgument
    ensures (exists k :: 0 <= k < |specs.inputs| && LastNamed(order, specs.inputs[k].0).None?) ==> r.Failure?
    ensures r.Success? ==>
      var sig := r.value;
      && |sig.argNodes| == |specs.inputs| == |sig.funcType.inputs|
      && forall k :: 0 <= k < |specs.inputs| ==>
        && LastNamed(order, specs.inputs[k].0).Some?
        && sig.argNodes[k] == OutputTensor(LastNamed(order, specs.inputs[k].0).value.id, 0)
        && InputType(specs.inputs[k].1, dtypes, shapes).Success?
        && sig.funcType.inputs[k] == InputType(specs.inputs[k].1, dtypes, shapes).value
    ensures r.Success? ==>
      var sig, outs := r.value, specs.outputArraysOrder;
      && |sig.retNodes| == |outs| == |sig.funcType.results|
      && forall i :: 0 <= i < |outs| ==>
        && OutputSlot(order, specs.outputArrays, outs[i]).Some?
        && var (n, port) := OutputSlot(order, specs.outputArrays, outs[i]).value;
        && ValidOutputIndex(n.numOutputs, port)
        && sig.retNodes[i] == OutputTensor(n.id, port)
        && ResultType(ctxs, (n, port), dtypes).Success?
        && sig.funcType.results[i] == ResultType(ctxs, (n, port), dtypes).value
  {
    var e := FindEndpoints(specs, order);
    if e.Failure? {
      return Failure(e.code, e.msg);
    }
    var (nodes, slots) := e.value;
    var argTypes := ArgTypes(specs.inputs, dtypes, shapes);
    if argTypes.Failure? {
      return Failure(argTypes.code, argTypes.msg);
    }
    var retTypes := RetTypes(ctxs, slots, dtypes);
    if retTypes.Failure? {
      return Failure(retTypes.code, retTypes.msg);
    }
    var argNodes := seq(|nodes|, k requires 0 <= k < |nodes| => OutputTensor(nodes[k].id, 0));
    var retNodes := seq(|slots|, i requires 0 <= i < |slots| => OutputTensor(slots[i].0.id, slots[i].1));
    return Success(Signature(FuncType(argTypes.value, retTypes.value), argNodes, retNodes));
  }
}
