/** The deterministic order in which ConvertNode visits a node's incoming
    edges: a stable sort that puts data edges before control edges and data
    edges in ascending order of destination input. */
module EdgeOrder {
  import opened TfGraph

  /** The comparator handed to the stable sort. */
  predicate EdgeLess(e1: Edge, e2: Edge) {
    if e1.IsControlEdge() && !e2.IsControlEdge() then false
    else if !e1.IsControlEdge() && e2.IsControlEdge() then true
    else e1.dstInput < e2.dstInput
  }

  /** Edges the comparator cannot tell apart. */
  predicate Tied(e1: Edge, e2: Edge) {
    e1.IsControlEdge() == e2.IsControlEdge() && e1.dstInput == e2.dstInput
  }

  predicate Sorted(s: seq<Edge>) {
    forall i, j :: 0 <= i < j < |s| ==> !EdgeLess(s[j], s[i])
  }

  /** Insert x after every edge that does not compare greater than it. */
  function Insert(x: Edge, s: seq<Edge>): (r: seq<Edge>)
    ensures multiset(r) == multiset(s) + multiset{x}
    decreases |s|
  {
    if |s| == 0 then [x]
    else if EdgeLess(x, s[0]) then [x] + s
    else
      assert s == [s[0]] + s[1..];
      [s[0]] + Insert(x, s[1..])
  }

  /** The stable sort of the incoming edges, by insertion from left to right. */
  function StableSort(s: seq<Edge>): (r: seq<Edge>)
    ensures multiset(r) == multiset(s)
    decreases |s|
  {
    if |s| == 0 then []
    else
      assert s == s[..|s| - 1] + [s[|s| - 1]];
      Insert(s[|s| - 1], StableSort(s[..|s| - 1]))
  }

  /** The edges of s tied with a, in their order in s. */
  function TiedWith(s: seq<Edge>, a: Edge): seq<Edge>
    decreases |s|
  {
    if |s| == 0 then []
    else (if Tied(s[0], a) then [s[0]] else []) + TiedWith(s[1..], a)
  }

  lemma {:induction false} InsertSorted(x: Edge, s: seq<Edge>)
    requires Sorted(s)
    ensures Sorted(Insert(x, s))
    decreases |s|
  {
    if |s| > 0 && !EdgeLess(x, s[0]) {
      var t := s[1..];
      InsertSorted(x, t);
      var r := Insert(x, s);
      var rt := Insert(x, t);
      forall j | 0 < j < |r| ensures !EdgeLess(r[j], r[0]) {
        assert r[j] == rt[j - 1];
        assert rt[j - 1] in multiset(rt);
        assert rt[j - 1] in multiset(t) || rt[j - 1] == x;
        if rt[j - 1] != x {
          var k :| 0 <= k < |t| && t[k] == rt[j - 1];
          assert s[k + 1] == t[k];
        }
      }
    }
  }

  lemma {:induction false} InsertTied(x: Edge, s: seq<Edge>, a: Edge)
    requires Sorted(s)
    ensures TiedWith(Insert(x, s), a) == TiedWith(s, a) + (if Tied(x, a) then [x] else [])
    decreases |s|
  {
    if |s| == 0 {
    } else if EdgeLess(x, s[0]) {
      if Tied(x, a) {
        NoneTiedAfterLess(x, s, a);
      }
    } else {
      InsertTied(x, s[1..], a);
      assert Insert(x, s) == [s[0]] + Insert(x, s[1..]);
    }
  }

  /** When x is less than the head of a sorted s, nothing in s is tied with x. */
  lemma {:induction false} NoneTiedAfterLess(x: Edge, s: seq<Edge>, a: Edge)
    requires Sorted(s) && |s| > 0 && EdgeLess(x, s[0]) && Tied(x, a)
    ensures TiedWith(s, a) == []
    decreases |s|
  {
    if |s| > 1 {
      assert !EdgeLess(s[1], s[0]);
      assert Sorted(s[1..]) by {
        forall i, j | 0 <= i < j < |s[1..]| ensures !EdgeLess(s[1..][j], s[1..][i]) {
          assert s[1..][j] == s[j + 1] && s[1..][i] == s[i + 1];
        }
      }
      NoneTiedAfterLess(x, s[1..], a);
    }
  }

  /** The sort orders the edges by the comparator. */
  lemma {:induction false} StableSortSorted(s: seq<Edge>)
    ensures Sorted(StableSort(s))
    decreases |s|
  {
    if |s| > 0 {
      StableSortSorted(s[..|s| - 1]);
      InsertSorted(s[|s| - 1], StableSort(s[..|s| - 1]));
    }
  }

  /** The sort is stable: edges the comparator ties keep their relative order. */
  lemma {:induction false} StableSortStable(s: seq<Edge>, a: Edge)
    ensures TiedWith(StableSort(s), a) == TiedWith(s, a)
    decreases |s|
  {
    if |s| > 0 {
      var p, x := s[..|s| - 1], s[|s| - 1];
      assert s == p + [x];
      StableSortStable(p, a);
      StableSortSorted(p);
      InsertTied(x, StableSort(p), a);
      TiedWithAppend(p, [x], a);
      assert TiedWith([x], a) == (if Tied(x, a) then [x] else []) by {
        assert [x][1..] == [];
      }
      calc {
        TiedWith(StableSort(s), a);
        TiedWith(Insert(x, StableSort(p)), a);
        TiedWith(StableSort(p), a) + (if Tied(x, a) then [x] else []);
        TiedWith(p, a) + TiedWith([x], a);
        TiedWith(s, a);
      }
    }
  }

  lemma {:induction false} TiedWithAppend(s: seq<Edge>, t: seq<Edge>, a: Edge)
    ensures TiedWith(s + t, a) == TiedWith(s, a) + TiedWith(t, a)
    decreases |s|
  {
    if |s| > 0 {
      TiedWithAppend(s[1..], t, a);
      assert (s + t)[0] == s[0];
      assert (s + t)[1..] == s[1..] + t;
    } else {
      assert s + t == t;
    }
  }

  /** In the sorted edges every data edge precedes every control edge, and
      data edges ascend by destination input. */
  lemma SortedEdgeLayout(s: seq<Edge>, i: nat, j: nat)
    requires i < j < |StableSort(s)|
    ensures var r := StableSort(s);
      (r[i].IsControlEdge() ==> r[j].IsControlEdge()) &&
      (!r[j].IsControlEdge() ==> r[i].dstInput <= r[j].dstInput)
  {
    StableSortSorted(s);
  }
}
