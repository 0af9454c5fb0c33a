/** The LegacyFedInput preprocessing of a GraphDef: a LegacyFedInput node that
    is a declared input becomes a Placeholder, unless some node reads an output
    of it other than the first, which a Placeholder does not have. */
module LegacyInputs {
  import opened Errors
  import opened TfTypes
  import opened ImportConfig

  /** A NodeDef: name, op, inputs as `name[:port]` or `^name` strings,
      attributes, device. */
  datatype NodeDef = NodeDef(name: string, op: string, inputs: seq<string>, attrs: seq<(string, AttrValue)>, device: string)

  /** An input string that reads an output of `node` other than the first:
      it starts with `node:` and is not exactly `node:0`. */
  predicate ReadsNonPrimary(input: string, node: string) {
    var prefix := node + ":";
    |prefix| <= |input| && input[..|prefix|] == prefix && input != node + ":0"
  }

  /** Whether any of the given inputs reads a non-primary output of `node`. */
  function AnyReadsNonPrimary(inputs: seq<string>, node: string): (r: bool)
    ensures r <==> exists j :: 0 <= j < |inputs| && ReadsNonPrimary(inputs[j], node)
    decreases |inputs|
  {
    if |inputs| == 0 then false
    else ReadsNonPrimary(inputs[0], node) || AnyReadsNonPrimary(inputs[1..], node)
  }

  /** HasNonPrimaryOutputInUse: some input of some node of the graph reads a
      non-primary output of `node`. */
  function HasNonPrimaryOutputInUse(graph: seq<NodeDef>, node: string): (r: bool)
    ensures r <==> exists i, j :: 0 <= i < |graph| && 0 <= j < |graph[i].inputs| && ReadsNonPrimary(graph[i].inputs[j], node)
    decreases |graph|
  {
    if |graph| == 0 then false
    else AnyReadsNonPrimary(graph[0].inputs, node) || HasNonPrimaryOutputInUse(graph[1..], node)
  }

  /** Reading the node bare, its output 0, or as a control input never counts;
      reading `node:k` for any other k does. */
  lemma PrimaryReadsDoNotCount(node: string, k: string)
    requires |node| > 0 && node[0] != '^'
    ensures !ReadsNonPrimary(node, node) && !ReadsNonPrimary(node + ":0", node) && !ReadsNonPrimary("^" + node, node)
    ensures k != "0" ==> ReadsNonPrimary(node + ":" + k, node)
  {
    assert ("^" + node)[0] == '^';
    assert (node + ":")[0] == node[0];
    assert (node + ":" + k)[..|node + ":"|] == node + ":";
    assert (node + ":" + k)[|node| + 1..] == k;
    assert (node + ":0")[|node| + 1..] == "0";
  }

  function NonPrimaryInUseMsg(name: string): string {
    "LegacyFedInput node " + name + " has non primary output in use and can not be replaced with Placeholder node"
  }

  /** The attributes of the replacing Placeholder: the declared dtype and
      shape, and nothing else. */
  function PlaceholderAttrs(info: ArrayInfo): (r: seq<(string, AttrValue)>)
    ensures Lookup(r, "dtype") == Some(TypeVal(info.dtype)) && Lookup(r, "shape") == Some(ShapeVal(info.shape))
    ensures forall key :: key != "dtype" && key != "shape" ==> Lookup(r, key).None?
  {
    var attrs := [("dtype", TypeVal(info.dtype)), ("shape", ShapeVal(info.shape))];
    assert attrs[1..][1..] == [];
    attrs
  }

  /** UpdateLegacyFedInputNode: a node that is not a declared input is left
      alone; a declared one becomes a Placeholder with no inputs whose only
      attributes are the declared dtype and shape, unless a non-primary output
      of it is in use. The node is updated in place in the source; here the
      updated node is returned. */
  function UpdateLegacyFedInputNode(graph: seq<NodeDef>, inputs: seq<(string, ArrayInfo)>, node: NodeDef): (r: Result<NodeDef>)
    ensures Lookup(inputs, node.name).None? ==> r == Success(node)
    ensures r.Failure? ==> r.code == InvalidArgument && r.msg == NonPrimaryInUseMsg(node.name)
    ensures r.Success? && Lookup(inputs, node.name).Some? ==>
      var info := Lookup(inputs, node.name).value;
      && r.value.name == node.name && r.value.device == node.device
      && r.value.op == "Placeholder" && r.value.inputs == []
      && Lookup(r.value.attrs, "dtype") == Some(TypeVal(info.dtype))
      && Lookup(r.value.attrs, "shape") == Some(ShapeVal(info.shape))
      && forall key :: key != "dtype" && key != "shape" ==> Lookup(r.value.attrs, key).None?
  {
    var declared := Lookup(inputs, node.name);
    if declared.None? then Success(node)
    else if HasNonPrimaryOutputInUse(graph, node.name) then Failure(InvalidArgument, NonPrimaryInUseMsg(node.name))
    else Success(node.(op := "Placeholder", attrs := PlaceholderAttrs(declared.value), inputs := []))
  }

  /** The update fails exactly for a declared input with a non-primary
      output in use. */
  lemma UpdateFailsIff(graph: seq<NodeDef>, inputs: seq<(string, ArrayInfo)>, node: NodeDef)
    ensures UpdateLegacyFedInputNode(graph, inputs, node).Failure? <==>
      Lookup(inputs, node.name).Some? && HasNonPrimaryOutputInUse(graph, node.name)
  {
  }

  /** Once a declared input was replaced inside its graph, no non-primary
      output of it is in use, and replacing it again changes nothing. */
  lemma UpdateIdempotent(graph: seq<NodeDef>, inputs: seq<(string, ArrayInfo)>, i: nat)
    requires i < |graph| && Lookup(inputs, graph[i].name).Some?
    requires UpdateLegacyFedInputNode(graph, inputs, graph[i]).Success?
    ensures var nd := UpdateLegacyFedInputNode(graph, inputs, graph[i]).value;
      && !HasNonPrimaryOutputInUse(graph[i := nd], nd.name)
      && UpdateLegacyFedInputNode(graph[i := nd], inputs, nd) == Success(nd)
  {
    var nd := UpdateLegacyFedInputNode(graph, inputs, graph[i]).value;
    var g' := graph[i := nd];
    forall a, b | 0 <= a < |g'| && 0 <= b < |g'[a].inputs| ensures !ReadsNonPrimary(g'[a].inputs[b], nd.name) {
      assert a != i && g'[a] == graph[a];
    }
  }
}
