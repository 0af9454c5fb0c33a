/** ObjectNames: the names under which the objects of a SavedModel's object
    graph are known. A depth-first walk from the root records, for every
    constant, function and variable, the dotted path of child names that
    reaches it (a child already on the walk's stack is not entered again);
    each object's names are sorted most readable first, filtered by the
    exported-name list, and give the object a symbol-table name. */
module ObjectNames {
  import opened Errors
  import opened Strings

  /** SavedObject::kind_case(), reduced to what naming looks at; a function
      carries its number of concrete functions. */
  datatype ObjectKind = Constant | Function(concreteFunctions: nat) | Variable | OtherObject

  /** A child reference: the child's node id and its local name. */
  datatype ChildRef = ChildRef(nodeId: nat, localName: string)

  datatype SavedObject = SavedObject(kind: ObjectKind, children: seq<ChildRef>)

  /** A SavedObjectGraph; node 0 is the root. */
  datatype ObjectGraph = ObjectGraph(nodes: seq<SavedObject>)

  /** Every child reference names a node of the graph, and there is a root. */
  predicate ValidObjectGraph(g: ObjectGraph) {
    && |g.nodes| > 0
    && forall id, k :: 0 <= id < |g.nodes| && 0 <= k < |g.nodes[id].children| ==> g.nodes[id].children[k].nodeId < |g.nodes|
  }

  /** The node ids below n. */
  function IdsBelow(n: nat): (r: set<nat>)
    ensures forall id :: id in r <==> 0 <= id < n
  {
    if n == 0 then {} else IdsBelow(n - 1) + {n - 1}
  }

  function AllIds(g: ObjectGraph): set<nat> {
    IdsBelow(|g.nodes|)
  }

  /** The kinds that get a name: constants, functions and variables. */
  predicate IsNamedKind(k: ObjectKind) {
    k.Constant? || k.Function? || k.Variable?
  }

  /** The (node, name) records the walk appends, in order, when it visits node
      `id` along the path `path` with `onStack` on its stack. */
  function Visit(g: ObjectGraph, id: nat, path: seq<string>, onStack: set<nat>): (r: seq<(nat, string)>)
    requires ValidObjectGraph(g) && id < |g.nodes| && onStack <= AllIds(g)
    ensures forall k :: 0 <= k < |r| ==> r[k].0 < |g.nodes| && IsNamedKind(g.nodes[r[k].0].kind)
    ensures IsNamedKind(g.nodes[id].kind) ==> |r| > 0 && r[0] == (id, Join(path, "."))
    decreases AllIds(g) - onStack, 2, 0
  {
    var own := if IsNamedKind(g.nodes[id].kind) then [(id, Join(path, "."))] else [];
    own + VisitChildren(g, g.nodes[id].children, 0, path, onStack)
  }

  /** The records of the walk over children k.. of a node. */
  function VisitChildren(g: ObjectGraph, children: seq<ChildRef>, k: nat, path: seq<string>, onStack: set<nat>): (r: seq<(nat, string)>)
    requires ValidObjectGraph(g) && onStack <= AllIds(g) && k <= |children|
    requires forall j :: 0 <= j < |children| ==> children[j].nodeId < |g.nodes|
    ensures forall j :: 0 <= j < |r| ==> r[j].0 < |g.nodes| && IsNamedKind(g.nodes[r[j].0].kind)
    decreases AllIds(g) - onStack, 0, |children| - k
  {
    if k == |children| then []
    else
      ChildRecords(g, children[k], path, onStack) + VisitChildren(g, children, k + 1, path, onStack)
  }

  /** The records of entering one child, none when it is on the stack. */
  function ChildRecords(g: ObjectGraph, c: ChildRef, path: seq<string>, onStack: set<nat>): (r: seq<(nat, string)>)
    requires ValidObjectGraph(g) && onStack <= AllIds(g) && c.nodeId < |g.nodes|
    ensures forall j :: 0 <= j < |r| ==> r[j].0 < |g.nodes| && IsNamedKind(g.nodes[r[j].0].kind)
    decreases AllIds(g) - onStack, 0, 0
  {
    if c.nodeId in onStack then [] else Visit(g, c.nodeId, path + [c.localName], onStack + {c.nodeId})
  }

  /** Appends one record to the names of its node. */
  function Push(m: map<nat, seq<string>>, rec: (nat, string)): map<nat, seq<string>> {
    m[rec.0 := (if rec.0 in m then m[rec.0] else []) + [rec.1]]
  }

  /** The names map after the records were appended in order. */
  function AppendNames(m: map<nat, seq<string>>, recs: seq<(nat, string)>): (r: map<nat, seq<string>>)
    ensures forall id | id in r :: (id in m && r[id] == m[id]) || |r[id]| > 0
    decreases |recs|
  {
    if |recs| == 0 then m
    else
      var r := AppendNames(Push(m, recs[0]), recs[1..]);
      assert forall k :: 1 <= k < |recs| ==> recs[k] == recs[1..][k - 1];
      assert forall k :: 0 <= k < |recs| - 1 ==> recs[1..][k] == recs[k + 1];
      r
  }

  lemma {:induction false} AppendNamesConcat(m: map<nat, seq<string>>, a: seq<(nat, string)>, b: seq<(nat, string)>)
    ensures AppendNames(m, a + b) == AppendNames(AppendNames(m, a), b)
    decreases |a|
  {
    if |a| == 0 {
      assert a + b == b;
    } else {
      assert (a + b)[0] == a[0] && (a + b)[1..] == a[1..] + b;
      AppendNamesConcat(Push(m, a[0]), a[1..], b);
    }
  }

  /** The readability order of names: names not ending in a digit first, then
      shorter first, counting UTF-8 bytes, then by characters (for encodings
      of one length, UTF-8 byte order and character order agree). An empty
      name counts as not ending in a digit. */
  predicate EndsInDigit(s: string) {
    |s| > 0 && IsDigit(s[|s| - 1])
  }

  predicate NameLess(a: string, b: string) {
    if EndsInDigit(a) != EndsInDigit(b) then !EndsInDigit(a)
    else if Utf8Length(a) != Utf8Length(b) then Utf8Length(a) < Utf8Length(b)
    else LexLess(a, b)
  }

  /** NameLess is a strict total order: the order of a name list after
      sorting is fully determined. */
  lemma NameLessStrictTotal(a: string, b: string, c: string)
    ensures !NameLess(a, a)
    ensures NameLess(a, b) && NameLess(b, c) ==> NameLess(a, c)
    ensures a != b ==> NameLess(a, b) || NameLess(b, a)
    ensures NameLess(a, b) ==> !NameLess(b, a)
  {
    LexLessIrreflexive(a);
    if NameLess(a, b) && NameLess(b, c) && EndsInDigit(a) == EndsInDigit(c) && Utf8Length(a) == Utf8Length(c) {
      LexLessTransitive(a, b, c);
    }
    if a != b && EndsInDigit(a) == EndsInDigit(b) && Utf8Length(a) == Utf8Length(b) {
      LexLessTotal(a, b);
    }
    if NameLess(a, b) && EndsInDigit(a) == EndsInDigit(b) && Utf8Length(a) == Utf8Length(b) {
      LexLessAsymmetric(a, b);
    }
  }

  /** Lengths are byte counts: the two-byte "\U{E9}" and "ab" tie on length,
      and "ab" comes first by its first byte. */
  lemma NameLessCountsBytes()
    ensures NameLess("ab", "\U{E9}") && !NameLess("\U{E9}", "ab")
  {
    assert Utf8Length("ab") == 2 == Utf8Length("\U{E9}");
  }

  /** Not-less is transitive. */
  lemma NotLessTrans(a: string, b: string, c: string)
    requires !NameLess(b, a) && !NameLess(c, b)
    ensures !NameLess(c, a)
  {
    NameLessStrictTotal(a, b, c);
    NameLessStrictTotal(c, a, b);
  }

  predicate SortedNames(s: seq<string>) {
    forall i, j :: 0 <= i < j < |s| ==> !NameLess(s[j], s[i])
  }

  function InsertName(x: string, s: seq<string>): (r: seq<string>)
    requires SortedNames(s)
    ensures SortedNames(r) && multiset(r) == multiset(s) + multiset{x}
    decreases |s|
  {
    if |s| == 0 then [x]
    else if NameLess(s[0], x) then
      var rest := InsertName(x, s[1..]);
      assert s == [s[0]] + s[1..];
      InsertedAfter(s[0], x, s[1..], rest);
      [s[0]] + rest
    else
      InsertedBefore(x, s);
      [x] + s
  }

  lemma InsertedAfter(y: string, x: string, s: seq<string>, rest: seq<string>)
    requires NameLess(y, x) && SortedNames([y] + s) && SortedNames(rest) && multiset(rest) == multiset(s) + multiset{x}
    ensures SortedNames([y] + rest)
  {
    forall j | 0 <= j < |rest| ensures !NameLess(rest[j], y) {
      assert rest[j] in multiset(rest);
      if rest[j] == x {
        NameLessStrictTotal(y, x, x);
      } else {
        assert rest[j] in multiset(s);
        var k :| 0 <= k < |s| && s[k] == rest[j];
        assert ([y] + s)[k + 1] == s[k] && ([y] + s)[0] == y;
        assert !NameLess(([y] + s)[k + 1], ([y] + s)[0]);
      }
    }
    forall i, j | 0 <= i < j < |[y] + rest| ensures !NameLess(([y] + rest)[j], ([y] + rest)[i]) {
      if i > 0 {
        assert ([y] + rest)[i] == rest[i - 1] && ([y] + rest)[j] == rest[j - 1];
      }
    }
  }

  lemma InsertedBefore(x: string, s: seq<string>)
    requires |s| > 0 && !NameLess(s[0], x) && SortedNames(s)
    ensures SortedNames([x] + s)
  {
    forall j | 0 <= j < |s| ensures !NameLess(s[j], x) {
      if j > 0 {
        NotLessTrans(x, s[0], s[j]);
      }
    }
    forall i, j | 0 <= i < j < |[x] + s| ensures !NameLess(([x] + s)[j], ([x] + s)[i]) {
      if i > 0 {
        assert ([x] + s)[i] == s[i - 1] && ([x] + s)[j] == s[j - 1];
      }
    }
  }

  /** The std::sort of an object's names under NameLess. */
  function SortNames(s: seq<string>): (r: seq<string>)
    ensures SortedNames(r) && multiset(r) == multiset(s)
    decreases |s|
  {
    if |s| == 0 then []
    else
      assert s == [s[0]] + s[1..];
      InsertName(s[0], SortNames(s[1..]))
  }

  /** Two sorted orderings of the same names are the same sequence: the
      sorted names of an object do not depend on the order the walk found
      them in. */
  lemma {:induction false} SortedUnique(a: seq<string>, b: seq<string>)
    requires SortedNames(a) && SortedNames(b) && multiset(a) == multiset(b)
    ensures a == b
    decreases |a|
  {
    assert |b| == |multiset(b)| == |multiset(a)| == |a|;
    if |a| > 0 {
      SortedHeadLeast(a, b[0]);
      SortedHeadLeast(b, a[0]);
      NameLessStrictTotal(a[0], b[0], b[0]);
      assert a[0] == b[0];
      SortedTail(a);
      SortedTail(b);
      assert a == [a[0]] + a[1..] && b == [b[0]] + b[1..];
      SortedUnique(a[1..], b[1..]);
    }
  }

  /** The first of a sorted list is not greater than any of its names. */
  lemma SortedHeadLeast(a: seq<string>, x: string)
    requires SortedNames(a) && x in multiset(a)
    ensures |a| > 0 && !NameLess(x, a[0])
  {
    var k :| 0 <= k < |a| && a[k] == x;
    if k > 0 {
      assert !NameLess(a[k], a[0]);
    } else {
      NameLessStrictTotal(x, x, x);
    }
  }

  lemma SortedTail(a: seq<string>)
    requires SortedNames(a) && |a| > 0
    ensures SortedNames(a[1..]) && multiset(a[1..]) == multiset(a) - multiset{a[0]}
  {
    assert a == [a[0]] + a[1..];
    forall i, j | 0 <= i < j < |a[1..]| ensures !NameLess(a[1..][j], a[1..][i]) {
      assert a[1..][j] == a[j + 1] && a[1..][i] == a[i + 1];
    }
  }

  /** IsExported: an empty export list exports every name. */
  predicate IsExported(toExport: set<string>, name: string) {
    toExport == {} || name in toExport
  }

  /** The exported names among `names`, in their order. */
  function ExportedAmong(names: seq<string>, toExport: set<string>): (r: seq<string>)
    ensures |r| <= |names|
    ensures toExport == {} ==> r == names
    decreases |names|
  {
    if |names| == 0 then []
    else
      var rest := ExportedAmong(names[1..], toExport);
      assert names == [names[0]] + names[1..];
      if IsExported(toExport, names[0]) then [names[0]] + rest else rest
  }

  /** The exported names kept are exactly the names that are exported. */
  lemma {:induction false} ExportedAmongMembers(names: seq<string>, toExport: set<string>)
    ensures forall x :: x in ExportedAmong(names, toExport) <==> x in names && IsExported(toExport, x)
    decreases |names|
  {
    if |names| > 0 {
      ExportedAmongMembers(names[1..], toExport);
      assert forall x :: x in names <==> x == names[0] || x in names[1..];
    }
  }

  /** GetDefaultSymbolTableName: `__sm_node` and the node id. */
  function DefaultSymbolName(id: nat): string {
    "__sm_node" + NatToString(id)
  }

  /** The pretty symbol-table name: the default name, `__`, and the object's
      first exported name, or its first name when none is exported. */
  function PrettySymbolName(id: nat, best: string): string {
    DefaultSymbolName(id) + "__" + best
  }

  /** The digits at the start of a string. */
  function LeadingDigits(s: string): (r: string)
    ensures r <= s && AllDigits(r) && (|r| < |s| ==> !IsDigit(s[|r|]))
    decreases |s|
  {
    if |s| > 0 && IsDigit(s[0]) then [s[0]] + LeadingDigits(s[1..]) else ""
  }

  lemma LeadingDigitsOf(d: string, rest: string)
    requires AllDigits(d) && (|rest| > 0 ==> !IsDigit(rest[0]))
    ensures LeadingDigits(d + rest) == d
  {
    var s := d + rest;
    var r := LeadingDigits(s);
    assert forall k :: 0 <= k < |d| ==> s[k] == d[k];
    assert |rest| > 0 ==> s[|d|] == rest[0];
    assert s[..|d|] == d;
  }

  /** The node id can be read back from a default or pretty symbol name. */
  lemma SymbolNameId(id: nat, s: string)
    requires s == DefaultSymbolName(id) || exists best :: s == PrettySymbolName(id, best)
    ensures |s| >= 9 && LeadingDigits(s[9..]) == NatToString(id)
  {
    var d := NatToString(id);
    if s == DefaultSymbolName(id) {
      assert s[9..] == d + "";
      LeadingDigitsOf(d, "");
    } else {
      var best :| s == PrettySymbolName(id, best);
      assert s[9..] == d + ("__" + best);
      LeadingDigitsOf(d, "__" + best);
    }
  }

  /** Different objects never share a symbol-table name, whichever of the
      two forms each one has. */
  lemma SymbolNamesDistinct(id1: nat, s1: string, id2: nat, s2: string)
    requires s1 == DefaultSymbolName(id1) || exists best :: s1 == PrettySymbolName(id1, best)
    requires s2 == DefaultSymbolName(id2) || exists best :: s2 == PrettySymbolName(id2, best)
    requires id1 != id2
    ensures s1 != s2
  {
    SymbolNameId(id1, s1);
    SymbolNameId(id2, s2);
    if s1 == s2 {
      NatToStringInjective(id1, id2);
    }
  }

  /** The names of every recorded object, each sorted. */
  function SortedObjectNames(g: ObjectGraph): map<nat, seq<string>>
    requires ValidObjectGraph(g)
  {
    SortEach(AppendNames(map[], Visit(g, 0, [], {})))
  }

  /** Every list of names sorted; sorting keeps each list's length. */
  function SortEach(raw: map<nat, seq<string>>): map<nat, seq<string>> {
    map id | id in raw :: SortNames(raw[id])
  }

  /** The names of the objects in `done` are sorted, the others untouched. */
  ghost predicate SortedFor(cur: map<nat, seq<string>>, orig: map<nat, seq<string>>, done: set<nat>) {
    && cur.Keys == orig.Keys
    && forall id | id in cur :: cur[id] == if id in done then SortNames(orig[id]) else orig[id]
  }

  /** The exported names of the objects in `done` that have any are recorded. */
  ghost predicate ExportedFor(exp: map<nat, seq<string>>, cur: map<nat, seq<string>>, toExport: set<string>, done: set<nat>) {
    && (forall id :: id in exp <==> id in done && id in cur && ExportedAmong(cur[id], toExport) != [])
    && forall id | id in exp :: exp[id] == ExportedAmong(cur[id], toExport)
  }

  /** One step of the sorting loop keeps both predicates. */
  lemma SortedStep(cur: map<nat, seq<string>>, orig: map<nat, seq<string>>, done: set<nat>, id: nat, sorted: seq<string>)
    requires SortedFor(cur, orig, done) && id in orig && sorted == SortNames(orig[id])
    ensures SortedFor(cur[id := sorted], orig, done + {id})
  {
    var cur' := cur[id := sorted];
    forall id2 | id2 in cur' ensures cur'[id2] == if id2 in done + {id} then SortNames(orig[id2]) else orig[id2] {
      if id2 != id {
        assert cur'[id2] == cur[id2];
      }
    }
  }

  /** Once every object is sorted, the map is SortEach of the original. */
  lemma SortedAll(cur: map<nat, seq<string>>, orig: map<nat, seq<string>>)
    requires SortedFor(cur, orig, orig.Keys) && NonEmptyLists(orig)
    ensures cur == SortEach(orig) && NonEmptyLists(cur)
  {
    SortedAllEqual(cur, orig);
    forall id | id in cur ensures |cur[id]| > 0 {
      SortKeepsLength(orig[id]);
    }
  }

  lemma SortedAllEqual(cur: map<nat, seq<string>>, orig: map<nat, seq<string>>)
    requires SortedFor(cur, orig, orig.Keys)
    ensures cur == SortEach(orig)
  {
    var r := SortEach(orig);
    assert r.Keys == cur.Keys;
    forall id | id in cur ensures cur[id] == r[id] {
    }
  }

  lemma SortKeepsLength(x: seq<string>)
    ensures |SortNames(x)| == |x|
  {
    assert |SortNames(x)| == |multiset(SortNames(x))|;
  }

  lemma ExportedStep(cur: map<nat, seq<string>>, done: set<nat>, id: nat, exp: map<nat, seq<string>>,
                     toExport: set<string>, sorted: seq<string>, kept: seq<string>)
    requires ExportedFor(exp, cur, toExport, done) && id in cur && id !in done && kept == ExportedAmong(sorted, toExport)
    ensures ExportedFor(if kept != [] then exp[id := kept] else exp, cur[id := sorted], toExport, done + {id})
  {
    var cur' := cur[id := sorted];
    var exp' := if kept != [] then exp[id := kept] else exp;
    forall id2 ensures id2 in exp' <==> id2 in done + {id} && id2 in cur' && ExportedAmong(cur'[id2], toExport) != [] {
      if id2 != id && id2 in cur {
        assert cur'[id2] == cur[id2];
      }
    }
    forall id2 | id2 in exp' ensures exp'[id2] == ExportedAmong(cur'[id2], toExport) {
      if id2 != id {
        assert cur'[id2] == cur[id2] && exp'[id2] == exp[id2];
      }
    }
  }

  /** Every object in the map has at least one name. */
  predicate NonEmptyLists(m: map<nat, seq<string>>) {
    forall id | id in m :: |m[id]| > 0
  }

  /** The name an object's pretty name is built from: its first exported
      name, else its first name. */
  function BestName(id: nat, names: map<nat, seq<string>>, exported: map<nat, seq<string>>): string {
    if id in exported && |exported[id]| > 0 then exported[id][0]
    else if id in names && |names[id]| > 0 then names[id][0]
    else ""
  }

  /** Every named object, and no other, has its pretty name. */
  predicate PrettyFor(pretty: map<nat, string>, names: map<nat, seq<string>>, exported: map<nat, seq<string>>) {
    && pretty.Keys == names.Keys
    && forall id | id in pretty :: pretty[id] == PrettySymbolName(id, BestName(id, names, exported))
  }

  /** Entering child k of a node and then the rest of its children appends
      the records of all children from k on. */
  lemma ChildStep(g: ObjectGraph, children: seq<ChildRef>, k: nat, path: seq<string>, onStack: set<nat>,
                  before: map<nat, seq<string>>, after: map<nat, seq<string>>)
    requires ValidObjectGraph(g) && onStack <= AllIds(g) && k < |children|
    requires forall j :: 0 <= j < |children| ==> children[j].nodeId < |g.nodes|
    requires after == AppendNames(before, ChildRecords(g, children[k], path, onStack))
    ensures AppendNames(before, VisitChildren(g, children, k, path, onStack))
         == AppendNames(after, VisitChildren(g, children, k + 1, path, onStack))
  {
    AppendNamesConcat(before, ChildRecords(g, children[k], path, onStack), VisitChildren(g, children, k + 1, path, onStack));
  }

  class ObjectNames {
    const graph: ObjectGraph
    const namesToExport: set<string>
    /** The walk's path of child names and the set of node ids on its stack. */
    var pathSegments: seq<string>
    var onStack: set<nat>
    /** Every name of every named object reached from the root. */
    var objectNames: map<nat, seq<string>>
    /** The exported names of each object that has any. */
    var exportedNames: map<nat, seq<string>>
    /** The symbol-table name of each named object. */
    var prettyNames: map<nat, string>

    ghost predicate Valid()
      reads this
    {
      ValidObjectGraph(graph) && onStack <= AllIds(graph)
    }

    /** The constructor: walk from the root, sort each object's names and
        keep the exported ones, then give each object its pretty name. */
    constructor(graph: ObjectGraph, exported: seq<string>)
      requires ValidObjectGraph(graph)
      ensures this.graph == graph && namesToExport == set x | x in exported
      ensures objectNames == SortedObjectNames(graph) && NonEmptyLists(objectNames)
      ensures ExportedFor(exportedNames, objectNames, namesToExport, objectNames.Keys)
      ensures PrettyFor(prettyNames, objectNames, exportedNames)
    {
      this.graph := graph;
      namesToExport := set x | x in exported;
      pathSegments := [];
      onStack := {};
      objectNames := map[];
      exportedNames := map[];
      prettyNames := map[];
      new;
      RecursivelyVisitObjectGraph(0);
      ghost var raw := objectNames;
      assert raw == AppendNames(map[], Visit(graph, 0, [], {}));
      SortAndExport();
      assert objectNames == SortEach(raw);
      NamePretty();
    }

    /** RecursivelyVisitObjectGraph: record the current path if the node is
        named, then enter every child that is not on the stack, with its local
        name pushed on the path. */
    method RecursivelyVisitObjectGraph(id: nat)
      requires Valid() && id < |graph.nodes|
      modifies this`pathSegments, this`onStack, this`objectNames
      ensures pathSegments == old(pathSegments) && onStack == old(onStack)
      ensures exportedNames == old(exportedNames) && prettyNames == old(prettyNames)
      ensures objectNames == AppendNames(old(objectNames), Visit(graph, id, pathSegments, onStack))
      decreases AllIds(graph) - onStack, 1
    {
      var obj := graph.nodes[id];
      ghost var own := if IsNamedKind(obj.kind) then [(id, Join(pathSegments, "."))] else [];
      if IsNamedKind(obj.kind) {
        objectNames := Push(objectNames, (id, Join(pathSegments, ".")));
        assert own[1..] == [];
      }
      assert objectNames == AppendNames(old(objectNames), own);
      ghost var total := AppendNames(objectNames, VisitChildren(graph, obj.children, 0, pathSegments, onStack));
      var children := obj.children;
      var k := 0;
      while k < |children|
        invariant 0 <= k <= |children|
        invariant pathSegments == old(pathSegments) && onStack == old(onStack)
        invariant exportedNames == old(exportedNames) && prettyNames == old(prettyNames)
        invariant total == AppendNames(objectNames, VisitChildren(graph, children, k, pathSegments, onStack))
      {
        ghost var before := objectNames;
        VisitChild(children[k]);
        ChildStep(graph, children, k, pathSegments, onStack, before, objectNames);
        k := k + 1;
      }
      AppendNamesConcat(old(objectNames), own, VisitChildren(graph, children, 0, pathSegments, onStack));
    }

    /** One child of the walk: entered with its local name on the path and
        its id on the stack, unless it is on the stack already. */
    method VisitChild(c: ChildRef)
      requires Valid() && c.nodeId < |graph.nodes|
      modifies this`pathSegments, this`onStack, this`objectNames
      ensures pathSegments == old(pathSegments) && onStack == old(onStack)
      ensures exportedNames == old(exportedNames) && prettyNames == old(prettyNames)
      ensures objectNames == AppendNames(old(objectNames), ChildRecords(graph, c, pathSegments, onStack))
      decreases AllIds(graph) - onStack, 0
    {
      if c.nodeId !in onStack {
        onStack := onStack + {c.nodeId};
        pathSegments := pathSegments + [c.localName];
        RecursivelyVisitObjectGraph(c.nodeId);
        pathSegments := pathSegments[..|pathSegments| - 1];
        onStack := onStack - {c.nodeId};
      }
    }

    /** The first loop of the constructor: each object's names are sorted in
        place and its exported names collected. */
    method SortAndExport()
      requires exportedNames == map[]
      requires NonEmptyLists(objectNames)
      modifies this`objectNames, this`exportedNames
      ensures prettyNames == old(prettyNames)
      ensures objectNames == SortEach(old(objectNames)) && NonEmptyLists(objectNames)
      ensures ExportedFor(exportedNames, objectNames, namesToExport, objectNames.Keys)
    {
      var todo := objectNames.Keys;
      ghost var done: set<nat> := {};
      while todo != {}
        invariant todo !! done && todo + done == objectNames.Keys == old(objectNames).Keys
        invariant prettyNames == old(prettyNames)
        invariant SortedFor(objectNames, old(objectNames), done)
        invariant ExportedFor(exportedNames, objectNames, namesToExport, done)
        decreases todo
      {
        var id :| id in todo;
        SortOne(id, old(objectNames), done);
        todo := todo - {id};
        done := done + {id};
      }
      SortedAll(objectNames, old(objectNames));
    }

    /** The body of the sorting loop for one object. */
    method SortOne(id: nat, ghost orig: map<nat, seq<string>>, ghost done: set<nat>)
      requires id in orig && id !in done
      requires SortedFor(objectNames, orig, done) && ExportedFor(exportedNames, objectNames, namesToExport, done)
      modifies this`objectNames, this`exportedNames
      ensures prettyNames == old(prettyNames) && objectNames.Keys == old(objectNames).Keys
      ensures SortedFor(objectNames, orig, done + {id}) && ExportedFor(exportedNames, objectNames, namesToExport, done + {id})
    {
      var sorted := SortNames(objectNames[id]);
      ghost var exp := exportedNames;
      ghost var cur := objectNames;
      objectNames := objectNames[id := sorted];
      var kept := KeepExported(sorted);
      if kept != [] {
        exportedNames := exportedNames[id := kept];
      }
      SortedStep(cur, orig, done, id, sorted);
      ExportedStep(cur, done, id, exp, namesToExport, sorted, kept);
    }

    /** The loop over one object's sorted names pushing the exported ones. */
    method KeepExported(names: seq<string>) returns (r: seq<string>)
      ensures r == ExportedAmong(names, namesToExport)
    {
      r := [];
      var i := |names|;
      while i > 0
        invariant 0 <= i <= |names|
        invariant r == ExportedAmong(names[i..], namesToExport)
      {
        i := i - 1;
        assert names[i..][1..] == names[i + 1..];
        if IsExported(namesToExport, names[i]) {
          r := [names[i]] + r;
        }
      }
    }

    /** The second loop of the constructor: every named object gets a pretty
        symbol-table name from its best exported name, or its best name. */
    method NamePretty()
      requires prettyNames == map[]
      modifies this`prettyNames
      ensures objectNames == old(objectNames) && exportedNames == old(exportedNames)
      ensures PrettyFor(prettyNames, objectNames, exportedNames)
    {
      var todo := objectNames.Keys;
      while todo != {}
        invariant todo <= objectNames.Keys && prettyNames.Keys == objectNames.Keys - todo
        invariant forall id | id in prettyNames :: prettyNames[id] == PrettySymbolName(id, BestName(id, objectNames, exportedNames))
        decreases todo
      {
        var id :| id in todo;
        var best := BestName(id, objectNames, exportedNames);
        prettyNames := prettyNames[id := PrettySymbolName(id, best)];
        todo := todo - {id};
      }
    }

    /** GetExportedNames: the exported names of an object, none when it has none. */
    function GetExportedNames(id: nat): (r: seq<string>)
      reads this
      ensures id !in exportedNames ==> r == []
    {
      if id in exportedNames then exportedNames[id] else []
    }

    /** GetSymbolTableName: the pretty name, or the default one. */
    function GetSymbolTableName(id: nat): (r: string)
      reads this
      ensures id !in prettyNames ==> r == DefaultSymbolName(id)
    {
      if id in prettyNames then prettyNames[id] else DefaultSymbolName(id)
    }
  }

  /** After construction no two objects share a symbol-table name. */
  lemma SymbolTableNamesDistinct(names: ObjectNames, id1: nat, id2: nat)
    requires PrettyFor(names.prettyNames, names.objectNames, names.exportedNames) && id1 != id2
    ensures names.GetSymbolTableName(id1) != names.GetSymbolTableName(id2)
  {
    var s1, s2 := names.GetSymbolTableName(id1), names.GetSymbolTableName(id2);
    if id1 in names.prettyNames {
      assert s1 == PrettySymbolName(id1, BestName(id1, names.objectNames, names.exportedNames));
    }
    if id2 in names.prettyNames {
      assert s2 == PrettySymbolName(id2, BestName(id2, names.objectNames, names.exportedNames));
    }
    SymbolNamesDistinct(id1, s1, id2, s2);
  }

  const MultipleConcreteMsgTail := "' with multiple concrete functions. Check if you have @tf.function(input_signature=[...]) on this function."

  /** An exported function object with other than one concrete function. */
  predicate Ambiguous(g: ObjectGraph, names: ObjectNames, id: nat)
    reads names
    requires id < |g.nodes|
  {
    names.GetExportedNames(id) != [] && g.nodes[id].kind.Function? && g.nodes[id].kind.concreteFunctions != 1
  }

  /** DiagnoseMultipleConcreteFunctions: the first exported function, by node
      id, that does not have exactly one concrete function is reported with
      its exported names. */
  method DiagnoseMultipleConcreteFunctions(g: ObjectGraph, names: ObjectNames) returns (s: Status)
    ensures s == Ok <==> forall id :: 0 <= id < |g.nodes| ==> !Ambiguous(g, names, id)
    ensures s.Error? ==> exists id ::
      && 0 <= id < |g.nodes| && Ambiguous(g, names, id) && (forall j :: 0 <= j < id ==> !Ambiguous(g, names, j))
      && s == Error(InvalidArgument, "Exported function '" + Join(names.GetExportedNames(id), ",") + MultipleConcreteMsgTail)
  {
    var id := 0;
    while id < |g.nodes|
      invariant 0 <= id <= |g.nodes| && forall j :: 0 <= j < id ==> !Ambiguous(g, names, j)
    {
      var exported := names.GetExportedNames(id);
      if exported != [] {
        var obj := g.nodes[id];
        if obj.kind.Function? && obj.kind.concreteFunctions != 1 {
          assert Ambiguous(g, names, id);
          return Error(InvalidArgument, "Exported function '" + Join(exported, ",") + MultipleConcreteMsgTail);
        }
      }
      id := id + 1;
    }
    return Ok;
  }
}
