/** The graph-side value encodings the importer reads: data types, shape
    protos, tensor protos (opaque) and attribute values (AttrValue). */
module TfTypes {
  import opened Errors

  /** A DataType enum value. */
  type DataType = nat

  /** DT_VARIANT, whose element type carries nested subtypes. */
  const DT_VARIANT: DataType := 21

  /** A TensorShapeProto: unknown rank, or one size per dimension (-1 = unknown). */
  datatype ShapeProto = UnknownRankProto | DimsProto(dims: seq<int>)

  /** A TensorProto; its wire format is not part of this model, only its identity. */
  datatype TensorProto = TensorProto(id: nat)

  /** The bit pattern of a 32-bit float; float values are carried, never computed on. */
  datatype Float32 = Float32(bits: bv32)

  /** AttrValue, one case per value_case(). */
  datatype AttrValue =
    | I(i: int)
    | S(s: string)
    | F(f: Float32)
    | B(b: bool)
    | TypeVal(dtype: DataType)
    | ShapeVal(shape: ShapeProto)
    | TensorVal(tensor: TensorProto)
    | ListVal(list: ListValue)
    | FuncVal(func: NameAttrList)
    | PlaceholderVal(placeholder: string)
    | NotSet

  /** AttrValue.ListValue: one homogeneous list per element kind. */
  datatype ListValue = ListValue(
    i: seq<int>, s: seq<string>, f: seq<Float32>, b: seq<bool>,
    types: seq<DataType>, shapes: seq<ShapeProto>, tensors: seq<TensorProto>,
    funcs: seq<NameAttrList>)

  /** A function reference with its own nested attributes (NameAttrList). */
  datatype NameAttrList = NameAttrList(name: string, attrs: seq<(string, AttrValue)>)

  const EmptyList := ListValue([], [], [], [], [], [], [], [])

  /** AttrValue::list(): the list of a list value, the empty list otherwise. */
  function ListOf(v: AttrValue): ListValue {
    if v.ListVal? then v.list else EmptyList
  }

  /** Looks a key up in a string-keyed map given as its entries in iteration
      order (a node's attribute map, the declared inputs). */
  function Lookup<V>(entries: seq<(string, V)>, key: string): (r: Option<V>)
    ensures r.Some? <==> exists i :: 0 <= i < |entries| && entries[i].0 == key
    ensures r.Some? ==> exists i :: 0 <= i < |entries| && entries[i] == (key, r.value)
    decreases |entries|
  {
    if |entries| == 0 then None
    else if entries[0].0 == key then Some(entries[0].1)
    else
      var r := Lookup(entries[1..], key);
      assert forall i :: 1 <= i < |entries| ==> entries[i] == entries[1..][i - 1];
      r
  }

  /** Map assignment (Node::AddAttr, `m[key] = v`): overwrites the value of an
      existing key, else adds the entry at the end. */
  function Assign<V>(entries: seq<(string, V)>, key: string, v: V): (r: seq<(string, V)>)
    ensures Lookup(r, key) == Some(v)
    ensures forall k :: k != key ==> Lookup(r, k) == Lookup(entries, k)
    decreases |entries|
  {
    if |entries| == 0 then [(key, v)]
    else if entries[0].0 == key then [(key, v)] + entries[1..]
    else [entries[0]] + Assign(entries[1..], key, v)
  }
}
