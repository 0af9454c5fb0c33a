/** What an import is given: the function library, the import configuration
    (declared inputs and outputs), and the collaborators that are not part of
    this model (graph cloning and back-edge removal, orderings, pruning, the
    shape refiner's shape functions, function-body instantiation, name
    uniquing, mangling and the tensor and dtype codecs), passed as functions. */
module ImportConfig {
  import opened Errors
  import opened TfTypes
  import opened TfGraph
  import opened Ir
  import opened Shapes
  import opened AttrConvert

  /** An input argument of a function signature: its name and dtype. */
  datatype ArgDef = ArgDef(name: string, dtype: DataType)

  /** A FunctionDef: its attributes, whether its signature is stateful, and its input arguments. */
  datatype FunctionDef = FunctionDef(name: string, attrs: seq<(string, AttrValue)>, isStateful: bool, inputArgs: seq<ArgDef>)

  /** The function library: definitions by name and gradient functions by function name. */
  datatype Library = Library(defs: map<string, FunctionDef>, gradients: map<string, string>)

  /** FunctionLibraryDefinition::FindGradient: the gradient's name, empty when there is none. */
  function FindGradient(lib: Library, name: string): string {
    if name in lib.gradients then lib.gradients[name] else ""
  }

  /** A function body instantiated as a graph, with its _Arg, _Retval and control-return nodes. */
  datatype FunctionBody = FunctionBody(graph: ValidGraph, argNodes: seq<nat>, retNodes: seq<nat>, controlRetNodes: seq<nat>)

  /** ArrayInfo: the imported dtype and shape of a declared input. */
  datatype ArrayInfo = ArrayInfo(dtype: DataType, shape: ShapeProto)

  /** GraphImportConfig: the declared inputs (a std::map, in key order), the
      output arrays (a std::set, in order), the output arrays in the order the
      user gave them, and whether nodes that do not reach an input or output
      are pruned. */
  datatype Specs = Specs(inputs: seq<(string, ArrayInfo)>, outputArrays: seq<string>,
                         outputArraysOrder: seq<string>, pruneUnusedNodes: bool)

  /** A default-constructed GraphImportConfig. */
  const NoSpecs := Specs([], [], [], false)

  /** A node output: the node and the output index. */
  datatype OutputTensor = OutputTensor(node: nat, index: int)

  /** A function type: argument types and result types. */
  datatype FuncType = FuncType(inputs: seq<Type>, results: seq<Type>)

  /** The collaborators of the importer that are not part of this model. */
  datatype Env = Env(
    cloneAndRemoveBackEdges: Graph -> Result<(ValidGraph, seq<Edge>)>,
    reversePostOrder: ValidGraph -> seq<nat>,
    addNode: ShapeFn,
    updateNode: ShapeFn,
    makeShape: ShapeProto -> Result<ShapeHandle>,
    unknownShape: ShapeHandle,
    fixupSourceAndSinkEdges: ValidGraph -> ValidGraph,
    pruneForReverseReachability: (ValidGraph, set<string>) -> ValidGraph,
    uniqueFunctionName: string -> string,
    functionBody: FunctionDef -> Result<FunctionBody>,
    mangleAttributeName: string -> string,
    convertTensor: TensorCodec,
    convertDataType: DataTypeCodec)

  /** The function attribute names of the TensorFlow dialect. */
  const StatefulAttrName := "tf.signature.is_stateful"
  const GradientAttrName := "tf.gradient"

  const InputShapesAttr := "_input_shapes"

  /** The declared inputs after the first `i` shapes: every one of those
      arguments that no later one of them shadows is declared with its dtype
      and shape. */
  predicate Declares(inputs: seq<(string, ArrayInfo)>, args: seq<ArgDef>, shapes: seq<ShapeProto>, i: nat)
    requires i <= |shapes| <= |args|
  {
    forall k :: 0 <= k < i && (forall j :: k < j < i ==> args[j].name != args[k].name) ==>
      Lookup(inputs, args[k].name) == Some(ArrayInfo(args[k].dtype, shapes[k]))
  }

  /** Nothing but the first `i` arguments is declared. */
  ghost predicate DeclaresOnly(inputs: seq<(string, ArrayInfo)>, args: seq<ArgDef>, i: nat)
    requires i <= |args|
  {
    forall name :: Lookup(inputs, name).Some? ==> exists k :: 0 <= k < i && args[k].name == name
  }

  /** Declaring argument i keeps both. */
  lemma DeclareStep(inputs: seq<(string, ArrayInfo)>, args: seq<ArgDef>, shapes: seq<ShapeProto>, i: nat)
    requires i < |shapes| <= |args|
    requires Declares(inputs, args, shapes, i) && DeclaresOnly(inputs, args, i)
    ensures var inputs' := Assign(inputs, args[i].name, ArrayInfo(args[i].dtype, shapes[i]));
      Declares(inputs', args, shapes, i + 1) && DeclaresOnly(inputs', args, i + 1)
  {
    var inputs' := Assign(inputs, args[i].name, ArrayInfo(args[i].dtype, shapes[i]));
    forall k | 0 <= k < i + 1 && (forall j :: k < j < i + 1 ==> args[j].name != args[k].name)
      ensures Lookup(inputs', args[k].name) == Some(ArrayInfo(args[k].dtype, shapes[k]))
    {
      if k < i {
        assert args[i].name != args[k].name;
        assert Lookup(inputs', args[k].name) == Lookup(inputs, args[k].name);
        assert forall j :: k < j < i ==> args[j].name != args[k].name;
      }
    }
    forall name | Lookup(inputs', name).Some?
      ensures exists k :: 0 <= k < i + 1 && args[k].name == name
    {
      if name != args[i].name {
        assert Lookup(inputs', name) == Lookup(inputs, name);
        var k :| 0 <= k < i && args[k].name == name;
      } else {
        assert args[i].name == name;
      }
    }
  }

  /** The declared-input configuration of a library function's import: for
      every shape i of its `_input_shapes` list, input argument i is declared
      with its own dtype and that shape. A list longer than the signature is
      an error here (the source only checks it in debug builds). */
  method SeedInputShapes(fdef: FunctionDef) returns (r: Result<Specs>)
    ensures var a := Lookup(fdef.attrs, InputShapesAttr);
      r.Failure? <==> a.Some? && |ListOf(a.value).shapes| > |fdef.inputArgs|
    ensures r.Success? ==> r.value.outputArrays == [] && r.value.outputArraysOrder == [] && !r.value.pruneUnusedNodes
    ensures r.Success? && Lookup(fdef.attrs, InputShapesAttr).None? ==> r.value.inputs == []
    ensures r.Success? && Lookup(fdef.attrs, InputShapesAttr).Some? ==>
      var shapes := ListOf(Lookup(fdef.attrs, InputShapesAttr).value).shapes;
      && (forall i :: 0 <= i < |shapes| && (forall j :: i < j < |shapes| ==> fdef.inputArgs[j].name != fdef.inputArgs[i].name) ==>
            Lookup(r.value.inputs, fdef.inputArgs[i].name) == Some(ArrayInfo(fdef.inputArgs[i].dtype, shapes[i])))
      && (forall name :: Lookup(r.value.inputs, name).Some? ==> exists i :: 0 <= i < |shapes| && fdef.inputArgs[i].name == name)
  {
    var a := Lookup(fdef.attrs, InputShapesAttr);
    if a.None? {
      return Success(NoSpecs);
    }
    var shapes := ListOf(a.value).shapes;
    if |shapes| > |fdef.inputArgs| {
      return Failure(Internal, "_input_shapes has more shapes than the function has inputs");
    }
    var inputs: seq<(string, ArrayInfo)> := [];
    var i := 0;
    while i < |shapes|
      invariant 0 <= i <= |shapes|
      invariant Declares(inputs, fdef.inputArgs, shapes, i) && DeclaresOnly(inputs, fdef.inputArgs, i)
    {
      DeclareStep(inputs, fdef.inputArgs, shapes, i);
      var arg := fdef.inputArgs[i];
      inputs := Assign(inputs, arg.name, ArrayInfo(arg.dtype, shapes[i]));
      i := i + 1;
    }
    return Success(NoSpecs.(inputs := inputs));
  }

  /** The names of the declared inputs, in order. */
  function InputNames(inputs: seq<(string, ArrayInfo)>): (r: seq<string>)
    ensures |r| == |inputs| && forall i :: 0 <= i < |inputs| ==> r[i] == inputs[i].0
  {
    seq(|inputs|, i requires 0 <= i < |inputs| => inputs[i].0)
  }

  /** True when some node of the graph has this name. */
  predicate HasNodeNamed(g: Graph, name: string) {
    exists id | id in g.nodes :: g.nodes[id].name == name
  }

  const MissingNodeMsg := "Graph does not contain node :"

  /** GetInputOutputNodes: the nodes named by the declared inputs and the output
      arrays (identified by name), or an error naming the first missing one. */
  method GetInputOutputNodes(g: Graph, specs: Specs) returns (r: Result<set<string>>)
    ensures var names := InputNames(specs.inputs) + specs.outputArrays;
      r.Success? <==> forall i :: 0 <= i < |names| ==> HasNodeNamed(g, names[i])
    ensures var names := InputNames(specs.inputs) + specs.outputArrays;
      r.Success? ==> r.value == set i | 0 <= i < |names| :: names[i]
    ensures var names := InputNames(specs.inputs) + specs.outputArrays;
      r.Failure? ==> exists i ::
        && 0 <= i < |names| && !HasNodeNamed(g, names[i])
        && (forall j :: 0 <= j < i ==> HasNodeNamed(g, names[j]))
        && r == Failure(FailedPrecondition, MissingNodeMsg + names[i])
  {
    var names := InputNames(specs.inputs) + specs.outputArrays;
    var found: set<string> := {};
    var i := 0;
    while i < |names|
      invariant 0 <= i <= |names|
      invariant forall j :: 0 <= j < i ==> HasNodeNamed(g, names[j])
      invariant found == set j | 0 <= j < i :: names[j]
    {
      if !HasNodeNamed(g, names[i]) {
        return Failure(FailedPrecondition, MissingNodeMsg + names[i]);
      }
      found := found + {names[i]};
      i := i + 1;
    }
    return Success(found);
  }
}
