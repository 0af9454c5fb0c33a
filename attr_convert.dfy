/** The value side of attribute conversion: how one AttrValue becomes an IR
    attribute once every function it names has its IR name, how a list value
    is flattened, how a function attribute expands into `base` and `base.key`
    entries, and the name order of a node's function attributes. */
module AttrConvert {
  import opened Errors
  import opened Strings
  import opened TfTypes
  import opened Ir

  /** ConvertTensorProto: decodes a tensor into an elements attribute, or fails. */
  type TensorCodec = TensorProto -> Result<Attr>

  /** The name table: graph function name to IR function name. */
  type NameTable = map<string, string>

  function IntAttrs(xs: seq<int>): (r: seq<Attr>)
    ensures |r| == |xs| && forall k :: 0 <= k < |xs| ==> r[k] == IntAttr(xs[k])
  { seq(|xs|, k requires 0 <= k < |xs| => IntAttr(xs[k])) }

  function StrAttrs(xs: seq<string>): (r: seq<Attr>)
    ensures |r| == |xs| && forall k :: 0 <= k < |xs| ==> r[k] == StrAttr(xs[k])
  { seq(|xs|, k requires 0 <= k < |xs| => StrAttr(xs[k])) }

  function FloatAttrs(xs: seq<Float32>): (r: seq<Attr>)
    ensures |r| == |xs| && forall k :: 0 <= k < |xs| ==> r[k] == FloatAttr(xs[k])
  { seq(|xs|, k requires 0 <= k < |xs| => FloatAttr(xs[k])) }

  function BoolAttrs(xs: seq<bool>): (r: seq<Attr>)
    ensures |r| == |xs| && forall k :: 0 <= k < |xs| ==> r[k] == BoolAttr(xs[k])
  { seq(|xs|, k requires 0 <= k < |xs| => BoolAttr(xs[k])) }

  function TypeAttrs(xs: seq<DataType>): (r: seq<Attr>)
    ensures |r| == |xs| && forall k :: 0 <= k < |xs| ==> r[k] == MangledTypeAttr(xs[k])
  { seq(|xs|, k requires 0 <= k < |xs| => MangledTypeAttr(xs[k])) }

  function ShapeAttrs(xs: seq<ShapeProto>): (r: seq<Attr>)
    ensures |r| == |xs| && forall k :: 0 <= k < |xs| ==> r[k] == MangledShapeAttr(xs[k])
  { seq(|xs|, k requires 0 <= k < |xs| => MangledShapeAttr(xs[k])) }

  /** The tensors of a list, decoded in order; the first failure is returned. */
  function ConvertTensors(ts: seq<TensorProto>, codec: TensorCodec): (r: Result<seq<Attr>>)
    ensures r.Success? <==> forall k :: 0 <= k < |ts| ==> codec(ts[k]).Success?
    ensures r.Success? ==> |r.value| == |ts| && forall k :: 0 <= k < |ts| ==> r.value[k] == codec(ts[k]).value
    decreases |ts|
  {
    if |ts| == 0 then Success([])
    else
      var a :- codec(ts[0]);
      var rest :- ConvertTensors(ts[1..], codec);
      assert forall k :: 1 <= k < |ts| ==> ts[k] == ts[1..][k - 1];
      Success([a] + rest)
  }

  /** The part of a flattened list that needs no function conversion: ints,
      strings, floats, bools, types, shapes and tensors, in that order. */
  function ScalarListAttrs(l: ListValue, codec: TensorCodec): Result<seq<Attr>> {
    var ts :- ConvertTensors(l.tensors, codec);
    Success(IntAttrs(l.i) + StrAttrs(l.s) + FloatAttrs(l.f) + BoolAttrs(l.b) +
            TypeAttrs(l.types) + ShapeAttrs(l.shapes) + ts)
  }

  /** A listed function: its symbol, provided it has no nested attributes. */
  function ListedFuncAttr(f: NameAttrList, names: NameTable): Result<Attr> {
    if f.name !in names then Failure(Internal, "function '" + f.name + "' has no IR name")
    else if |f.attrs| != 0 then Failure(Unimplemented, "func attributes with non-zero attr.size()")
    else Success(SymbolRefAttr(names[f.name]))
  }

  /** The listed functions in order; the first failing one decides the error. */
  function ListedFuncAttrs(fs: seq<NameAttrList>, names: NameTable): (r: Result<seq<Attr>>)
    ensures r.Success? ==> |r.value| == |fs| && forall k :: 0 <= k < |fs| ==>
      |fs[k].attrs| == 0 && fs[k].name in names && r.value[k] == SymbolRefAttr(names[fs[k].name])
    decreases |fs|
  {
    if |fs| == 0 then Success([])
    else
      var init :- ListedFuncAttrs(fs[..|fs| - 1], names);
      var a :- ListedFuncAttr(fs[|fs| - 1], names);
      Success(init + [a])
  }

  /** The IR attribute of an AttrValue, given the final name table. */
  function AttrSpec(v: AttrValue, names: NameTable, codec: TensorCodec): (r: Result<Attr>)
    ensures v.FuncVal? ==> r.Failure? && r.code == Unknown
    ensures v.NotSet? ==> r == Success(UnitAttr)
    ensures v.PlaceholderVal? ==> r.Failure? && r.code == Unimplemented
    ensures r.Success? && v.ListVal? ==> forall k :: 0 <= k < |v.list.funcs| ==> |v.list.funcs[k].attrs| == 0
  {
    match v
    case I(i) => Success(IntAttr(i))
    case S(s) => Success(StrAttr(s))
    case F(f) => Success(FloatAttr(f))
    case B(b) => Success(BoolAttr(b))
    case TypeVal(t) => Success(MangledTypeAttr(t))
    case ShapeVal(s) => Success(MangledShapeAttr(s))
    case TensorVal(t) => codec(t)
    case ListVal(l) =>
      var scalars :- ScalarListAttrs(l, codec);
      var funcs :- ListedFuncAttrs(l.funcs, names);
      Success(ArrayAttr(scalars + funcs))
    case FuncVal(_) => Failure(Unknown, "kFunc type should be handled separately!")
    case NotSet => Success(UnitAttr)
    case PlaceholderVal(p) => Failure(Unimplemented, "Attribute placeholder: \"" + p + "\"")
  }

  /** Reading a flattened list back by attribute kind. */
  function Unflatten(attrs: seq<Attr>): ListValue
    decreases |attrs|
  {
    if |attrs| == 0 then EmptyList else Cons(attrs[0], Unflatten(attrs[1..]))
  }

  /** One flattened attribute put in front of its kind's list. */
  function Cons(a: Attr, l: ListValue): ListValue {
    match a
    case IntAttr(i) => l.(i := [i] + l.i)
    case StrAttr(s) => l.(s := [s] + l.s)
    case FloatAttr(f) => l.(f := [f] + l.f)
    case BoolAttr(b) => l.(b := [b] + l.b)
    case MangledTypeAttr(t) => l.(types := [t] + l.types)
    case MangledShapeAttr(s) => l.(shapes := [s] + l.shapes)
    case _ => l
  }

  function Merge(a: ListValue, b: ListValue): ListValue {
    ListValue(a.i + b.i, a.s + b.s, a.f + b.f, a.b + b.b, a.types + b.types,
              a.shapes + b.shapes, a.tensors + b.tensors, a.funcs + b.funcs)
  }

  lemma ConsMerge(a: Attr, lx: ListValue, ly: ListValue)
    ensures Cons(a, Merge(lx, ly)) == Merge(Cons(a, lx), ly)
  {
    match a
    case IntAttr(i) => assert [i] + (lx.i + ly.i) == ([i] + lx.i) + ly.i;
    case StrAttr(t) => assert [t] + (lx.s + ly.s) == ([t] + lx.s) + ly.s;
    case FloatAttr(f) => assert [f] + (lx.f + ly.f) == ([f] + lx.f) + ly.f;
    case BoolAttr(b) => assert [b] + (lx.b + ly.b) == ([b] + lx.b) + ly.b;
    case MangledTypeAttr(t) => assert [t] + (lx.types + ly.types) == ([t] + lx.types) + ly.types;
    case MangledShapeAttr(t) => assert [t] + (lx.shapes + ly.shapes) == ([t] + lx.shapes) + ly.shapes;
    case _ =>
  }

  lemma {:induction false} UnflattenAppend(x: seq<Attr>, y: seq<Attr>)
    ensures Unflatten(x + y) == Merge(Unflatten(x), Unflatten(y))
    decreases |x|
  {
    if |x| == 0 {
      assert x + y == y;
    } else {
      UnflattenAppend(x[1..], y);
      assert (x + y)[0] == x[0] && (x + y)[1..] == x[1..] + y;
      ConsMerge(x[0], Unflatten(x[1..]), Unflatten(y));
    }
  }

  lemma {:induction false} UnflattenInts(xs: seq<int>)
    ensures Unflatten(IntAttrs(xs)) == EmptyList.(i := xs)
    decreases |xs|
  {
    if |xs| > 0 {
      UnflattenInts(xs[1..]);
      assert IntAttrs(xs)[1..] == IntAttrs(xs[1..]);
    }
  }

  lemma {:induction false} UnflattenStrs(xs: seq<string>)
    ensures Unflatten(StrAttrs(xs)) == EmptyList.(s := xs)
    decreases |xs|
  {
    if |xs| > 0 {
      UnflattenStrs(xs[1..]);
      assert StrAttrs(xs)[1..] == StrAttrs(xs[1..]);
    }
  }

  lemma {:induction false} UnflattenFloats(xs: seq<Float32>)
    ensures Unflatten(FloatAttrs(xs)) == EmptyList.(f := xs)
    decreases |xs|
  {
    if |xs| > 0 {
      UnflattenFloats(xs[1..]);
      assert FloatAttrs(xs)[1..] == FloatAttrs(xs[1..]);
    }
  }

  lemma {:induction false} UnflattenBools(xs: seq<bool>)
    ensures Unflatten(BoolAttrs(xs)) == EmptyList.(b := xs)
    decreases |xs|
  {
    if |xs| > 0 {
      UnflattenBools(xs[1..]);
      assert BoolAttrs(xs)[1..] == BoolAttrs(xs[1..]);
    }
  }

  lemma {:induction false} UnflattenTypes(xs: seq<DataType>)
    ensures Unflatten(TypeAttrs(xs)) == EmptyList.(types := xs)
    decreases |xs|
  {
    if |xs| > 0 {
      UnflattenTypes(xs[1..]);
      assert TypeAttrs(xs)[1..] == TypeAttrs(xs[1..]);
    }
  }

  lemma {:induction false} UnflattenShapes(xs: seq<ShapeProto>)
    ensures Unflatten(ShapeAttrs(xs)) == EmptyList.(shapes := xs)
    decreases |xs|
  {
    if |xs| > 0 {
      UnflattenShapes(xs[1..]);
      assert ShapeAttrs(xs)[1..] == ShapeAttrs(xs[1..]);
    }
  }

  /** The flattening order loses nothing: reading the attributes back by kind
      recovers every element list of a list value without tensors or functions. */
  lemma ListFlatteningRoundTrip(l: ListValue, codec: TensorCodec)
    requires l.tensors == [] && l.funcs == []
    ensures ScalarListAttrs(l, codec).Success?
    ensures Unflatten(ScalarListAttrs(l, codec).value) == l
  {
    var a, b, c, d := IntAttrs(l.i), StrAttrs(l.s), FloatAttrs(l.f), BoolAttrs(l.b);
    var e, f := TypeAttrs(l.types), ShapeAttrs(l.shapes);
    assert ConvertTensors(l.tensors, codec) == Success([]);
    assert ScalarListAttrs(l, codec).value == a + b + c + d + e + f + [];
    assert a + b + c + d + e + f + [] == a + (b + (c + (d + (e + f))));
    UnflattenScalars(l);
  }

  /** The six scalar runs, concatenated, read back as the list's scalars;
      proved one run at a time from the last. */
  lemma UnflattenScalars(l: ListValue)
    ensures Unflatten(IntAttrs(l.i) + (StrAttrs(l.s) + (FloatAttrs(l.f) + (BoolAttrs(l.b) + (TypeAttrs(l.types) + ShapeAttrs(l.shapes))))))
         == l.(tensors := [], funcs := [])
  {
    UnflattenFromStrs(l);
    UnflattenInts(l.i);
    UnflattenAppend(IntAttrs(l.i), StrAttrs(l.s) + (FloatAttrs(l.f) + (BoolAttrs(l.b) + (TypeAttrs(l.types) + ShapeAttrs(l.shapes)))));
  }

  lemma UnflattenFromStrs(l: ListValue)
    ensures Unflatten(StrAttrs(l.s) + (FloatAttrs(l.f) + (BoolAttrs(l.b) + (TypeAttrs(l.types) + ShapeAttrs(l.shapes)))))
         == EmptyList.(s := l.s, f := l.f, b := l.b, types := l.types, shapes := l.shapes)
  {
    UnflattenFromFloats(l);
    UnflattenStrs(l.s);
    UnflattenAppend(StrAttrs(l.s), FloatAttrs(l.f) + (BoolAttrs(l.b) + (TypeAttrs(l.types) + ShapeAttrs(l.shapes))));
  }

  lemma UnflattenFromFloats(l: ListValue)
    ensures Unflatten(FloatAttrs(l.f) + (BoolAttrs(l.b) + (TypeAttrs(l.types) + ShapeAttrs(l.shapes))))
         == EmptyList.(f := l.f, b := l.b, types := l.types, shapes := l.shapes)
  {
    UnflattenFromBools(l);
    UnflattenFloats(l.f);
    UnflattenAppend(FloatAttrs(l.f), BoolAttrs(l.b) + (TypeAttrs(l.types) + ShapeAttrs(l.shapes)));
  }

  lemma UnflattenFromBools(l: ListValue)
    ensures Unflatten(BoolAttrs(l.b) + (TypeAttrs(l.types) + ShapeAttrs(l.shapes)))
         == EmptyList.(b := l.b, types := l.types, shapes := l.shapes)
  {
    UnflattenFromTypes(l);
    UnflattenBools(l.b);
    UnflattenAppend(BoolAttrs(l.b), TypeAttrs(l.types) + ShapeAttrs(l.shapes));
  }

  lemma UnflattenFromTypes(l: ListValue)
    ensures Unflatten(TypeAttrs(l.types) + ShapeAttrs(l.shapes)) == EmptyList.(types := l.types, shapes := l.shapes)
  {
    UnflattenTypes(l.types);
    UnflattenShapes(l.shapes);
    UnflattenAppend(TypeAttrs(l.types), ShapeAttrs(l.shapes));
  }

  /** The name of the entry a nested attribute of function attribute `base` gets. */
  function NestedName(base: string, key: string): string {
    base + "." + key
  }

  /** ConvertFunctionCallAttribute's entries once the function has its IR name:
      `base` with the symbol, then `base.key` for every nested attribute. */
  function FuncAttrEntries(base: string, f: NameAttrList, names: NameTable, codec: TensorCodec): (r: Result<seq<NamedAttr>>)
    ensures r.Success? ==> |r.value| == |f.attrs| + 1 && f.name in names
    ensures r.Success? ==> r.value[0] == NamedAttr(base, SymbolRefAttr(names[f.name]))
    ensures r.Success? ==> forall k :: 0 <= k < |f.attrs| ==>
      AttrSpec(f.attrs[k].1, names, codec).Success? &&
      r.value[k + 1] == NamedAttr(NestedName(base, f.attrs[k].0), AttrSpec(f.attrs[k].1, names, codec).value)
  {
    if f.name !in names then Failure(Internal, "function '" + f.name + "' has no IR name")
    else
      var rest :- NestedEntries(base, f.attrs, names, codec);
      Success([NamedAttr(base, SymbolRefAttr(names[f.name]))] + rest)
  }

  function NestedEntries(base: string, attrs: seq<(string, AttrValue)>, names: NameTable, codec: TensorCodec): (r: Result<seq<NamedAttr>>)
    ensures r.Success? ==> |r.value| == |attrs| && forall k :: 0 <= k < |attrs| ==>
      AttrSpec(attrs[k].1, names, codec).Success? &&
      r.value[k] == NamedAttr(NestedName(base, attrs[k].0), AttrSpec(attrs[k].1, names, codec).value)
    decreases |attrs|
  {
    if |attrs| == 0 then Success([])
    else
      var init :- NestedEntries(base, attrs[..|attrs| - 1], names, codec);
      var last := attrs[|attrs| - 1];
      var a :- AttrSpec(last.1, names, codec);
      Success(init + [NamedAttr(NestedName(base, last.0), a)])
  }

  /** Distinct nested keys give distinct entry names, none equal to `base`:
      the expansion never clobbers one of its own entries. */
  lemma ExpandedNamesDistinct(base: string, k1: string, k2: string)
    ensures NestedName(base, k1) != base
    ensures k1 != k2 ==> NestedName(base, k1) != NestedName(base, k2)
  {
    var p := base + ".";
    assert NestedName(base, k1)[|p|..] == k1;
    assert NestedName(base, k2)[|p|..] == k2;
  }

  /** A node's function-valued attributes, in iteration order. */
  function FuncAttrs(attrs: seq<(string, AttrValue)>): (r: seq<(string, AttrValue)>)
    ensures |r| <= |attrs|
    decreases |attrs|
  {
    if |attrs| == 0 then []
    else
      var last := attrs[|attrs| - 1];
      FuncAttrs(attrs[..|attrs| - 1]) + (if last.1.FuncVal? then [last] else [])
  }

  /** The function attributes are exactly the attributes holding a function. */
  lemma {:induction false} FuncAttrsMembers(attrs: seq<(string, AttrValue)>)
    ensures forall a :: a in FuncAttrs(attrs) <==> a in attrs && a.1.FuncVal?
    decreases |attrs|
  {
    if |attrs| > 0 {
      var init := attrs[..|attrs| - 1];
      FuncAttrsMembers(init);
      assert attrs == init + [attrs[|attrs| - 1]];
    }
  }

  /** The attributes that do not hold a function, in their order: what the
      attribute loop of ConvertNode converts on the spot. */
  function PlainOf(attrs: seq<(string, AttrValue)>): (r: seq<(string, AttrValue)>)
    ensures |r| + |FuncAttrs(attrs)| == |attrs|
    ensures forall j :: 0 <= j < |r| ==> !r[j].1.FuncVal?
    decreases |attrs|
  {
    if |attrs| == 0 then []
    else
      var last := attrs[|attrs| - 1];
      PlainOf(attrs[..|attrs| - 1]) + (if last.1.FuncVal? then [] else [last])
  }

  /** The plain attributes are exactly the attributes not holding a function. */
  lemma {:induction false} PlainOfMembers(attrs: seq<(string, AttrValue)>)
    ensures forall a :: a in PlainOf(attrs) <==> a in attrs && !a.1.FuncVal?
    decreases |attrs|
  {
    if |attrs| > 0 {
      var init := attrs[..|attrs| - 1];
      PlainOfMembers(init);
      assert attrs == init + [attrs[|attrs| - 1]];
    }
  }

  predicate SortedByName(s: seq<(string, AttrValue)>) {
    forall i, j :: 0 <= i < j < |s| ==> !LexLess(s[j].0, s[i].0)
  }

  function InsertByName(x: (string, AttrValue), s: seq<(string, AttrValue)>): (r: seq<(string, AttrValue)>)
    ensures multiset(r) == multiset(s) + multiset{x}
    decreases |s|
  {
    if |s| == 0 then [x]
    else if LexLess(x.0, s[0].0) then [x] + s
    else
      assert s == [s[0]] + s[1..];
      [s[0]] + InsertByName(x, s[1..])
  }

  /** The function attributes sorted by name (std::sort with `*a.first < *b.first`). */
  function SortByName(s: seq<(string, AttrValue)>): (r: seq<(string, AttrValue)>)
    ensures multiset(r) == multiset(s)
    decreases |s|
  {
    if |s| == 0 then []
    else
      assert s == [s[0]] + s[1..];
      InsertByName(s[0], SortByName(s[1..]))
  }

  lemma {:induction false} InsertByNameSorted(x: (string, AttrValue), s: seq<(string, AttrValue)>)
    requires SortedByName(s)
    ensures SortedByName(InsertByName(x, s))
    decreases |s|
  {
    if |s| > 0 {
      if LexLess(x.0, s[0].0) {
        var r := InsertByName(x, s);
        forall i, j | 0 <= i < j < |r| ensures !LexLess(r[j].0, r[i].0) {
          if i == 0 && LexLess(r[j].0, x.0) {
            assert r[j] == s[j - 1];
            LexLessTransitive(s[j - 1].0, x.0, s[0].0);
            if j == 1 { LexLessIrreflexive(s[0].0); }
          } else if i > 0 {
            assert r[i] == s[i - 1] && r[j] == s[j - 1];
          }
        }
      } else {
        var t := s[1..];
        InsertByNameSorted(x, t);
        var r := InsertByName(x, s);
        var rt := InsertByName(x, t);
        forall j | 0 < j < |r| ensures !LexLess(r[j].0, r[0].0) {
          assert r[j] == rt[j - 1];
          assert rt[j - 1] in multiset(rt);
          if rt[j - 1] != x {
            assert rt[j - 1] in multiset(t);
            var k :| 0 <= k < |t| && t[k] == rt[j - 1];
            assert s[k + 1] == t[k];
          }
        }
      }
    }
  }

  /** The function attributes come out ordered by name. */
  lemma {:induction false} SortByNameSorted(s: seq<(string, AttrValue)>)
    ensures SortedByName(SortByName(s))
    decreases |s|
  {
    if |s| > 0 {
      SortByNameSorted(s[1..]);
      InsertByNameSorted(s[0], SortByName(s[1..]));
    }
  }

  /** The name table only grows: every entry of t is still in t', unchanged. */
  predicate Extends(t: NameTable, t': NameTable) {
    forall k | k in t :: k in t' && t'[k] == t[k]
  }

  /** A list of function references that converts under a table converts to
      the same attributes under any extension of it. */
  lemma {:induction false} ListedFuncAttrsStable(fs: seq<NameAttrList>, t: NameTable, t': NameTable)
    requires Extends(t, t') && ListedFuncAttrs(fs, t).Success?
    ensures ListedFuncAttrs(fs, t') == ListedFuncAttrs(fs, t)
    decreases |fs|
  {
    if |fs| > 0 {
      ListedFuncAttrsStable(fs[..|fs| - 1], t, t');
    }
  }

  /** An attribute value that converts under a table converts to the same
      attribute under any extension of it. */
  lemma AttrSpecStable(v: AttrValue, t: NameTable, t': NameTable, codec: TensorCodec)
    requires Extends(t, t') && AttrSpec(v, t, codec).Success?
    ensures AttrSpec(v, t', codec) == AttrSpec(v, t, codec)
  {
    if v.ListVal? {
      ListedFuncAttrsStable(v.list.funcs, t, t');
    }
  }

  lemma {:induction false} NestedEntriesStable(base: string, attrs: seq<(string, AttrValue)>, t: NameTable, t': NameTable, codec: TensorCodec)
    requires Extends(t, t') && NestedEntries(base, attrs, t, codec).Success?
    ensures NestedEntries(base, attrs, t', codec) == NestedEntries(base, attrs, t, codec)
    decreases |attrs|
  {
    if |attrs| > 0 {
      NestedEntriesStable(base, attrs[..|attrs| - 1], t, t', codec);
      AttrSpecStable(attrs[|attrs| - 1].1, t, t', codec);
    }
  }

  /** The expansion of a function attribute is stable under table growth. */
  lemma FuncAttrEntriesStable(base: string, f: NameAttrList, t: NameTable, t': NameTable, codec: TensorCodec)
    requires Extends(t, t') && FuncAttrEntries(base, f, t, codec).Success?
    ensures FuncAttrEntries(base, f, t', codec) == FuncAttrEntries(base, f, t, codec)
  {
    NestedEntriesStable(base, f.attrs, t, t', codec);
  }
}
