/** Back-edge bookkeeping. RemoveBackedges records, for the edges the back-edge
    helper removed, the one output of each source node that was a back edge and
    the removed edge of each destination; AddBackedge later splices the
    NextIteration source back into the rebuilt destination's operands. */
module BackEdges {
  import opened Errors
  import opened TfGraph

  const ConflictMsg := "More than one of the src node outputs are backedges!"

  /** The recording loop from the k-th removed edge on, with the maps built so far. */
  function Record(es: seq<Edge>, k: nat, outs: map<nat, int>, dsts: map<nat, Edge>): (r: Result<(map<nat, int>, map<nat, Edge>)>)
    requires k <= |es|
    ensures r.Failure? ==> r == Failure(FailedPrecondition, ConflictMsg)
    decreases |es| - k
  {
    if k == |es| then Success((outs, dsts))
    else
      var e := es[k];
      if e.src in outs && outs[e.src] != e.srcOutput then Failure(FailedPrecondition, ConflictMsg)
      else Record(es, k + 1, outs[e.src := e.srcOutput], dsts[e.dst := e])
  }

  /** Two removed edges leave the same node from different outputs. */
  predicate Conflicting(es: seq<Edge>) {
    exists i, j :: 0 <= i < |es| && 0 <= j < |es| && es[i].src == es[j].src && es[i].srcOutput != es[j].srcOutput
  }

  /** Edge i is the last removed edge into its destination. */
  predicate LastInto(es: seq<Edge>, i: nat)
    requires i < |es|
  {
    forall j :: i < j < |es| ==> es[j].dst != es[i].dst
  }

  predicate AgreesFrom(es: seq<Edge>, k: nat, outs: map<nat, int>)
    requires k <= |es|
  {
    (forall i, j :: k <= i < |es| && k <= j < |es| && es[i].src == es[j].src ==> es[i].srcOutput == es[j].srcOutput) &&
    (forall i :: k <= i < |es| && es[i].src in outs ==> outs[es[i].src] == es[i].srcOutput)
  }

  lemma {:induction false} RecordSucceeds(es: seq<Edge>, k: nat, outs: map<nat, int>, dsts: map<nat, Edge>)
    requires k <= |es|
    ensures Record(es, k, outs, dsts).Success? <==> AgreesFrom(es, k, outs)
    decreases |es| - k
  {
    if k < |es| {
      var e := es[k];
      RecordSucceeds(es, k + 1, outs[e.src := e.srcOutput], dsts[e.dst := e]);
      if !(e.src in outs && outs[e.src] != e.srcOutput) {
        assert AgreesFrom(es, k + 1, outs[e.src := e.srcOutput]) <==> AgreesFrom(es, k, outs);
      }
    }
  }

  lemma {:induction false} RecordOuts(es: seq<Edge>, k: nat, outs: map<nat, int>, dsts: map<nat, Edge>)
    requires k <= |es| && Record(es, k, outs, dsts).Success?
    ensures var o := Record(es, k, outs, dsts).value.0;
      && o.Keys == outs.Keys + (set i | k <= i < |es| :: es[i].src)
      && (forall n :: n in outs ==> o[n] == outs[n])
      && (forall i :: k <= i < |es| ==> o[es[i].src] == es[i].srcOutput)
    decreases |es| - k
  {
    if k < |es| {
      var e := es[k];
      var outs' := outs[e.src := e.srcOutput];
      RecordOuts(es, k + 1, outs', dsts[e.dst := e]);
      assert (set i | k <= i < |es| :: es[i].src) == {e.src} + (set i | k + 1 <= i < |es| :: es[i].src);
    }
  }

  lemma {:induction false} RecordDstKeys(es: seq<Edge>, k: nat, outs: map<nat, int>, dsts: map<nat, Edge>)
    requires k <= |es| && Record(es, k, outs, dsts).Success?
    ensures Record(es, k, outs, dsts).value.1.Keys == dsts.Keys + (set i | k <= i < |es| :: es[i].dst)
    decreases |es| - k
  {
    if k < |es| {
      var e := es[k];
      RecordDstKeys(es, k + 1, outs[e.src := e.srcOutput], dsts[e.dst := e]);
      assert (set i | k <= i < |es| :: es[i].dst) == {e.dst} + (set i | k + 1 <= i < |es| :: es[i].dst);
    }
  }

  lemma {:induction false} RecordDstLast(es: seq<Edge>, k: nat, outs: map<nat, int>, dsts: map<nat, Edge>, i: nat)
    requires k <= i < |es| && Record(es, k, outs, dsts).Success? && LastInto(es, i)
    ensures var d := Record(es, k, outs, dsts).value.1; es[i].dst in d && d[es[i].dst] == es[i]
    decreases |es| - k
  {
    var e := es[k];
    var outs', dsts' := outs[e.src := e.srcOutput], dsts[e.dst := e];
    if i == k {
      RecordKeepsUntouched(es, k + 1, outs', dsts', e.dst);
    } else {
      RecordDstLast(es, k + 1, outs', dsts', i);
    }
  }

  /** A destination no later edge enters keeps the entry it had. */
  lemma {:induction false} RecordKeepsUntouched(es: seq<Edge>, k: nat, outs: map<nat, int>, dsts: map<nat, Edge>, n: nat)
    requires k <= |es| && Record(es, k, outs, dsts).Success?
    requires n in dsts && forall i :: k <= i < |es| ==> es[i].dst != n
    ensures var d := Record(es, k, outs, dsts).value.1; n in d && d[n] == dsts[n]
    decreases |es| - k
  {
    if k < |es| {
      var e := es[k];
      RecordKeepsUntouched(es, k + 1, outs[e.src := e.srcOutput], dsts[e.dst := e], n);
    }
  }

  /** RemoveBackedges' recording loop fails exactly when two removed edges leave
      the same node from different outputs; otherwise the first map sends every
      source to its single back-edge output and the second every destination
      to its (last) removed edge, and nothing else is recorded. */
  lemma RecordBackEdges(es: seq<Edge>)
    ensures Record(es, 0, map[], map[]).Success? <==> !Conflicting(es)
    ensures Record(es, 0, map[], map[]).Success? ==>
      var (o, d) := Record(es, 0, map[], map[]).value;
      && o.Keys == (set i | 0 <= i < |es| :: es[i].src)
      && (forall i :: 0 <= i < |es| ==> o[es[i].src] == es[i].srcOutput)
      && d.Keys == (set i | 0 <= i < |es| :: es[i].dst)
      && (forall i :: 0 <= i < |es| && LastInto(es, i) ==> d[es[i].dst] == es[i])
  {
    var none: map<nat, int> := map[];
    var noDst: map<nat, Edge> := map[];
    assert none.Keys + (set i | 0 <= i < |es| :: es[i].src) == (set i | 0 <= i < |es| :: es[i].src);
    assert noDst.Keys + (set i | 0 <= i < |es| :: es[i].dst) == (set i | 0 <= i < |es| :: es[i].dst);
    assert AgreesFrom(es, 0, none) <==> !Conflicting(es);
    RecordSucceeds(es, 0, none, noDst);
    if !Conflicting(es) {
      RecordOuts(es, 0, none, noDst);
      RecordDstKeys(es, 0, none, noDst);
      forall i | 0 <= i < |es| && LastInto(es, i)
        ensures Record(es, 0, none, noDst).value.1[es[i].dst] == es[i]
      {
        RecordDstLast(es, 0, none, noDst, i);
      }
    }
  }

  /** A sequence with v inserted at position k. */
  function Splice<T>(s: seq<T>, k: nat, v: T): seq<T>
    requires k <= |s|
  {
    s[..k] + [v] + s[k..]
  }

  /** The operands of the rebuilt destination: the old ones with the source's
      result spliced in at position k. */
  method SpliceOperand<T>(operands: seq<T>, k: nat, v: T) returns (r: seq<T>)
    requires k <= |operands|
    ensures r == Splice(operands, k, v)
    ensures |r| == |operands| + 1
    ensures forall i :: 0 <= i < k ==> r[i] == operands[i]
    ensures r[k] == v
    ensures forall i :: k < i < |r| ==> r[i] == operands[i - 1]
  {
    r := [];
    var input := 0;
    while input != |operands| + 1
      invariant 0 <= input <= |operands| + 1
      invariant |r| == input
      invariant forall i :: 0 <= i < input && i < k ==> r[i] == operands[i]
      invariant k < input ==> r[k] == v
      invariant forall i :: k < i < input ==> r[i] == operands[i - 1]
    {
      if input < k {
        r := r + [operands[input]];
      } else if input == k {
        r := r + [v];
      } else {
        r := r + [operands[input - 1]];
      }
      input := input + 1;
    }
    assert forall i :: 0 <= i < |r| ==> r[i] == Splice(operands, k, v)[i];
  }

  /** Removing the spliced operand gives back the original operands. */
  lemma SpliceRemoves<T>(operands: seq<T>, k: nat, r: seq<T>)
    requires k <= |operands| && |r| == |operands| + 1
    requires forall i :: 0 <= i < k ==> r[i] == operands[i]
    requires forall i :: k < i < |r| ==> r[i] == operands[i - 1]
    ensures r[..k] + r[k + 1..] == operands
  {
    var s := r[..k] + r[k + 1..];
    assert |s| == |operands|;
    forall i | 0 <= i < |s| ensures s[i] == operands[i] {
      if i >= k { assert s[i] == r[i + 1]; }
    }
  }
}
