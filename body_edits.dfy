/** The edits the importer makes to a function body once every node has
    become an operation: restoring the back edges (AddBackedges) and wiring
    the function's arguments (ConvertFunctionArgAndRets). Each is specified
    as a function of the body before it, and its effect is stated in terms of
    that body. */
module BodyEdits {
  import opened Errors
  import opened TfGraph
  import opened Ir
  import opened BackEdges
  import opened ImportConfig

  /** A function's graph body: operations by id, the block order, and the
      id the next created operation gets. */
  datatype Body = Body(ops: map<nat, Op>, block: seq<nat>, nextOpId: nat)

  /** Operation ids are allocated upwards. */
  predicate IdsBelow(b: Body) {
    forall id | id in b.ops :: id < b.nextOpId
  }

  /** Every node's operation was created before the body's next id. */
  predicate ValuesBelow(nv: map<nat, nat>, b: Body) {
    forall n | n in nv :: nv[n] < b.nextOpId
  }

  /** Every result these values use names an operation of ops and one of its results. */
  predicate UsesIn(ops: map<nat, Op>, vs: seq<Value>) {
    forall v | v in vs && v.OpResult? :: v.op in ops && v.index < |ops[v.op].types|
  }

  predicate OpUsesIn(ops: map<nat, Op>, op: Op) {
    UsesIn(ops, op.operands) && (op.region.IslandRegion? ==> UsesIn(ops, op.region.inner.operands))
  }

  /** Every operation, and every operation an island wraps, uses only results
      that exist: what the IR verifier demands of a body. */
  predicate WellFormed(ops: map<nat, Op>) {
    forall id | id in ops :: OpUsesIn(ops, ops[id])
  }

  // ---------------------------------------------------------------------
  // Moving uses from one operation to another

  /** A use after the operations of m's domain were replaced: a result of
      operation o becomes the same result of m[o]. */
  function Moved(v: Value, m: map<nat, nat>): Value {
    if v.OpResult? && v.op in m then OpResult(m[v.op], v.index) else v
  }

  function MoveOperands(vs: seq<Value>, m: map<nat, nat>): (r: seq<Value>)
    ensures |r| == |vs| && forall i :: 0 <= i < |vs| ==> r[i] == Moved(vs[i], m)
  {
    seq(|vs|, i requires 0 <= i < |vs| => Moved(vs[i], m))
  }

  /** An operation with its uses moved, in its operands and in the operation
      an island wraps. */
  function MoveOp(op: Op, m: map<nat, nat>): (r: Op)
    ensures r.name == op.name && r.types == op.types && r.attrs == op.attrs
    ensures r.operands == MoveOperands(op.operands, m)
    ensures r.region.NoRegion? <==> op.region.NoRegion?
  {
    var region := match op.region
      case NoRegion => NoRegion
      case IslandRegion(inner, ys) =>
        IslandRegion(inner.(operands := MoveOperands(inner.operands, m)), ys);
    op.(operands := MoveOperands(op.operands, m), region := region)
  }

  /** Moving the results of x over to y after the moves of m is moving by
      m[x := y], when every use is of an existing result, x has not moved,
      and no operation has moved onto an existing one. */
  lemma RedirectMoveOp(ops: map<nat, Op>, op: Op, m: map<nat, nat>, x: nat, y: nat)
    requires OpUsesIn(ops, op) && x in ops && x !in m
    requires forall o | o in m :: m[o] !in ops
    ensures RedirectOp(MoveOp(op, m), x, y, |ops[x].types|) == MoveOp(op, m[x := y])
  {
    var m' := m[x := y];
    var k := |ops[x].types|;
    forall vs: seq<Value> | UsesIn(ops, vs)
      ensures RedirectOperands(MoveOperands(vs, m), x, y, k) == MoveOperands(vs, m')
    {
      forall i | 0 <= i < |vs| ensures Redirect(Moved(vs[i], m), x, y, k) == Moved(vs[i], m') {
        assert vs[i] in vs;
      }
    }
  }

  // ---------------------------------------------------------------------
  // Restoring back edges

  const InvalidBackedgeMsg := "Invalid backedge; should be from NextIteration to Merge!"

  /** A back edge the importer can restore: from a NextIteration to a Merge. */
  predicate ValidBackEdge(g: Graph, e: Edge) {
    e.src in g.nodes && g.nodes[e.src].kind == NextIteration && e.dst in g.nodes && g.nodes[e.dst].kind == Merge
  }

  /** The rebuilt destination of a back edge: the old operation with the
      source's result 0 spliced in at the edge's input, without region. */
  function Rebuilt(d: Op, dstInput: nat, src: nat): Op
    requires dstInput <= |d.operands|
  {
    Op(d.name, Splice(d.operands, dstInput, OpResult(src, 0)), d.types, d.attrs, NoRegion)
  }

  /** What AddBackedge needs of the body: an operation for the sink whose
      first operand (its token) is an operation result, an operation for the
      destination, and an input position among its operands or just past them. */
  predicate Restorable(ops: map<nat, Op>, sinkId: nat, dstId: nat, dstInput: int) {
    && sinkId in ops && |ops[sinkId].operands| > 0 && ops[sinkId].operands[0].OpResult?
    && dstId in ops && 0 <= dstInput <= |ops[dstId].operands|
  }

  /** AddBackedge's checks, in its order and with its messages. */
  function BackedgeCheck(ops: map<nat, Op>, sinkId: nat, dstId: nat, dstInput: int): (s: Status)
    ensures s == Ok <==> Restorable(ops, sinkId, dstId, dstInput)
    ensures s.Error? ==> s.code == Internal
  {
    if sinkId !in ops then Error(Internal, "back edge source has no operation")
    else if |ops[sinkId].operands| == 0 || !ops[sinkId].operands[0].OpResult? then
      Error(Internal, "NextIteration sink has no token operand")
    else if dstId !in ops then Error(Internal, "back edge destination has no operation")
    else if !(0 <= dstInput <= |ops[dstId].operands|) then
      Error(Internal, "back edge input out of range of the destination's operands")
    else Ok
  }

  /** The body after AddBackedge: the destination rebuilt under the next id,
      in front of the old one in the block; every use of a result of the old
      destination moved to the new one, and the old one erased. */
  function Restored(b: Body, sinkId: nat, dstId: nat, dstInput: int): Body
    requires Restorable(b.ops, sinkId, dstId, dstInput)
  {
    var d, y := b.ops[dstId], b.nextOpId;
    var src := b.ops[sinkId].operands[0].op;
    Body(RedirectAll(b.ops[y := Rebuilt(d, dstInput, src)], dstId, y, |d.types|) - {dstId},
         Erase(InsertBefore(b.block, dstId, y), dstId), y + 1)
  }

  /** One turn of AddBackedges: back edge e checked, then restored between
      the operations of its NextIteration and its Merge. */
  function RestoreOne(g: Graph, nv: map<nat, nat>, e: Edge, b: Body): (r: Result<Body>)
    ensures r.Success? <==>
      ValidBackEdge(g, e) && e.src in nv && e.dst in nv && Restorable(b.ops, nv[e.src], nv[e.dst], e.dstInput)
    ensures !ValidBackEdge(g, e) ==> r == Failure(FailedPrecondition, InvalidBackedgeMsg)
    ensures ValidBackEdge(g, e) && r.Failure? ==> r.code == Internal
  {
    if !ValidBackEdge(g, e) then Failure(FailedPrecondition, InvalidBackedgeMsg)
    else if e.src !in nv || e.dst !in nv then Failure(Internal, "back edge node was not converted")
    else
      var c := BackedgeCheck(b.ops, nv[e.src], nv[e.dst], e.dstInput);
      if c.Error? then Failure(c.code, c.msg)
      else Success(Restored(b, nv[e.src], nv[e.dst], e.dstInput))
  }

  /** AddBackedges over the recorded back edges of the destinations in
      `order`, one after another; the first error stops it. */
  function RestoreAll(g: Graph, nv: map<nat, nat>, dsts: map<nat, Edge>, b: Body, order: seq<nat>): Result<Body>
    requires forall d | d in order :: d in dsts
    decreases |order|
  {
    if |order| == 0 then Success(b)
    else
      var b' :- RestoreAll(g, nv, dsts, b, order[..|order| - 1]);
      RestoreOne(g, nv, dsts[order[|order| - 1]], b')
  }

  /** One more destination d after those of `order`. */
  lemma RestoreAllSnoc(g: Graph, nv: map<nat, nat>, dsts: map<nat, Edge>, b: Body, order: seq<nat>, d: nat)
    requires (forall d' | d' in order :: d' in dsts) && d in dsts && RestoreAll(g, nv, dsts, b, order).Success?
    ensures RestoreAll(g, nv, dsts, b, order + [d]) == RestoreOne(g, nv, dsts[d], RestoreAll(g, nv, dsts, b, order).value)
  {
    assert (order + [d])[..|order|] == order;
  }

  /** Where the restored destinations went: the operation of the k-th
      destination is replaced by the operation with id base + k. */
  function Moves(nv: map<nat, nat>, dsts: map<nat, Edge>, order: seq<nat>, base: nat): map<nat, nat>
    requires forall d | d in order :: d in dsts
    decreases |order|
  {
    if |order| == 0 then map[]
    else
      var m := Moves(nv, dsts, order[..|order| - 1], base);
      var e := dsts[order[|order| - 1]];
      if e.dst in nv then m[nv[e.dst] := base + |order| - 1] else m
  }

  /** One more restored destination moves to the next id. */
  lemma MovesStep(nv: map<nat, nat>, dsts: map<nat, Edge>, order: seq<nat>, base: nat, y: nat)
    requires forall d | d in order :: d in dsts
    requires |order| > 0 && dsts[order[|order| - 1]].dst in nv && y == base + |order| - 1
    ensures Moves(nv, dsts, order, base)
      == Moves(nv, dsts, order[..|order| - 1], base)[nv[dsts[order[|order| - 1]].dst] := y]
  {
  }

  /** Every restored back edge was valid, and an invalid one is the only
      source of FailedPrecondition. */
  lemma {:induction false} RestoreAllChecked(g: Graph, nv: map<nat, nat>, dsts: map<nat, Edge>, b: Body, order: seq<nat>)
    requires forall d | d in order :: d in dsts
    ensures RestoreAll(g, nv, dsts, b, order).Success? ==>
      forall d | d in order :: ValidBackEdge(g, dsts[d])
    ensures var r := RestoreAll(g, nv, dsts, b, order);
      r.Failure? && r.code == FailedPrecondition ==>
        r.msg == InvalidBackedgeMsg && exists d | d in order :: !ValidBackEdge(g, dsts[d])
    decreases |order|
  {
    if |order| > 0 {
      var init, last := order[..|order| - 1], order[|order| - 1];
      assert order == init + [last];
      RestoreAllChecked(g, nv, dsts, b, init);
      var r := RestoreAll(g, nv, dsts, b, order);
      if RestoreAll(g, nv, dsts, b, init).Success? {
        assert r == RestoreOne(g, nv, dsts[last], RestoreAll(g, nv, dsts, b, init).value);
        if r.Failure? && r.code == FailedPrecondition {
          assert !ValidBackEdge(g, dsts[last]);
        }
      }
    }
  }

  /** The body r after the moves m of `count` restored back edges, in terms
      of the body b before them: the new operations have the ids from
      b.nextOpId on and stay; the moved destinations were operations of b and
      are gone from r and its block; every other operation of b stays, with
      its uses moved, and keeps its place in the block. */
  ghost predicate Moving(b: Body, r: Body, m: map<nat, nat>, count: nat) {
    MovingOps(b, r, m, count) && MovingBlock(b, r, m)
  }

  ghost predicate MovingOps(b: Body, r: Body, m: map<nat, nat>, count: nat) {
    && r.nextOpId == b.nextOpId + count
    && MovingKeys(b.ops.Keys, r.ops.Keys, m, b.nextOpId, count)
    && (forall o | o in b.ops && o !in m :: r.ops[o] == MoveOp(b.ops[o], m))
  }

  /** The ids of MovingOps: the moved ones were ids of the old body and moved
      into the `count` ids from base on; the ids kept are the old ones that
      did not move and those `count` new ones. */
  ghost predicate MovingKeys(old0: set<nat>, now: set<nat>, m: map<nat, nat>, base: nat, count: nat) {
    && (forall o | o in m :: o in old0 && base <= m[o] < base + count)
    && (forall o | o in now :: (o in old0 && o !in m) || base <= o < base + count)
    && (forall o | o in old0 && o !in m :: o in now)
    && (forall o | base <= o < base + count :: o in now)
  }

  /** Replacing one more old id x by the next new id keeps MovingKeys. */
  lemma MovingKeysStep(old0: set<nat>, now: set<nat>, m: map<nat, nat>, base: nat, count: nat, x: nat)
    requires MovingKeys(old0, now, m, base, count) && (forall o | o in old0 :: o < base)
    requires x in old0 && x !in m
    ensures MovingKeys(old0, now - {x} + {base + count}, m[x := base + count], base, count + 1)
  {
  }

  ghost predicate MovingBlock(b: Body, r: Body, m: map<nat, nat>) {
    && (forall o | o in m :: o !in r.block)
    && (forall o | o in b.block && o !in m :: o in r.block)
    && (forall o | b.nextOpId <= o < r.nextOpId :: o in r.block)
    && (forall o | o in r.block :: o in b.block || b.nextOpId <= o < r.nextOpId)
  }

  /** Back edge e restored as operation y of r: its destination's operation
      x, moved to y, is the rebuilt operation of b, with the NextIteration
      source's result 0 spliced in at the edge's input, and with its uses
      moved. */
  ghost predicate RestoredAt(b: Body, r: Body, m: map<nat, nat>, nv: map<nat, nat>, e: Edge, y: nat) {
    && e.src in nv && e.dst in nv
    && var x, sink := nv[e.dst], nv[e.src];
    && Restorable(b.ops, sink, x, e.dstInput)
    && x in m && m[x] == y && y in r.ops
    && r.ops[y] == MoveOp(Rebuilt(b.ops[x], e.dstInput, b.ops[sink].operands[0].op), m)
  }

  /** The rebuilt destination only uses existing results. */
  lemma RebuiltUsesIn(ops: map<nat, Op>, d: Op, dstInput: nat, s: nat)
    requires OpUsesIn(ops, d) && dstInput <= |d.operands| && s in ops && |ops[s].types| > 0
    ensures OpUsesIn(ops, Rebuilt(d, dstInput, s))
  {
    var vs := Splice(d.operands, dstInput, OpResult(s, 0));
    forall v | v in vs ensures v in d.operands || v == OpResult(s, 0) {
      var i :| 0 <= i < |vs| && vs[i] == v;
      if i < dstInput {
        assert v == d.operands[i];
      } else if i > dstInput {
        assert v == d.operands[i - 1];
      }
    }
  }

  /** Rebuilding commutes with moving uses. */
  lemma RebuiltMoves(d: Op, dstInput: nat, s: nat, i: nat, m: map<nat, nat>)
    requires dstInput <= |d.operands|
    ensures Rebuilt(MoveOp(d, m), dstInput, Moved(OpResult(s, i), m).op) == MoveOp(Rebuilt(d, dstInput, s), m)
  {
    var v := OpResult(Moved(OpResult(s, i), m).op, 0);
    assert v == Moved(OpResult(s, 0), m);
    var a := Splice(MoveOperands(d.operands, m), dstInput, v);
    var c := MoveOperands(Splice(d.operands, dstInput, OpResult(s, 0)), m);
    assert |a| == |c|;
    forall j | 0 <= j < |a| ensures a[j] == c[j] {
      if j < dstInput {
        assert a[j] == Moved(d.operands[j], m);
      } else if j > dstInput {
        assert a[j] == Moved(d.operands[j - 1], m);
      }
    }
  }

  /** What one AddBackedge does to the body, operation by operation. */
  lemma RestoredShape(r: Body, sink: nat, x: nat, dstInput: int)
    requires IdsBelow(r) && Restorable(r.ops, sink, x, dstInput)
    ensures var r', y, k := Restored(r, sink, x, dstInput), r.nextOpId, |r.ops[x].types|;
      && r'.nextOpId == y + 1
      && r'.ops.Keys == r.ops.Keys - {x} + {y}
      && (forall o | o in r.ops && o != x :: r'.ops[o] == RedirectOp(r.ops[o], x, y, k))
      && r'.ops[y] == RedirectOp(Rebuilt(r.ops[x], dstInput, r.ops[sink].operands[0].op), x, y, k)
  {
  }

  /** What one AddBackedge does to the block. */
  lemma RestoredShapeBlock(r: Body, sink: nat, x: nat, dstInput: int)
    requires Restorable(r.ops, sink, x, dstInput) && x < r.nextOpId
    ensures var r' := Restored(r, sink, x, dstInput);
      && x !in r'.block && r.nextOpId in r'.block && r'.nextOpId == r.nextOpId + 1
      && (forall o | o in r.block && o != x :: o in r'.block)
      && (forall o | o in r'.block :: o in r.block || o == r.nextOpId)
  {
    var ib := InsertBefore(r.block, x, r.nextOpId);
    assert Restored(r, sink, x, dstInput).block == Erase(ib, x);
    assert forall o | o in Erase(ib, x) :: o in ib;
  }

  /** What the lemmas below assume of one more AddBackedge on r, which is b
      after the moves m: its destination x and its sink are operations of b
      that have not moved. */
  ghost predicate Ready(b: Body, r: Body, m: map<nat, nat>, count: nat, sink: nat, x: nat, dstInput: int) {
    && IdsBelow(b) && WellFormed(b.ops) && MovingOps(b, r, m, count)
    && x in b.ops && x !in m && sink in b.ops && sink !in m
    && Restorable(b.ops, sink, x, dstInput)
  }

  /** One more AddBackedge on r, the body ops0 after the moves m, moves the
      uses of an operation that stays once more. */
  lemma RestoredOpAt(ops0: map<nat, Op>, r: Body, m: map<nat, nat>, sink: nat, x: nat, dstInput: int, o: nat, op0: Op)
    requires IdsBelow(r) && Restorable(r.ops, sink, x, dstInput)
    requires x in ops0 && x !in m && r.ops[x].types == ops0[x].types && forall p | p in m :: m[p] !in ops0
    requires OpUsesIn(ops0, op0) && o in r.ops && o != x && r.ops[o] == MoveOp(op0, m)
    ensures Restored(r, sink, x, dstInput).ops[o] == MoveOp(op0, m[x := r.nextOpId])
  {
    RestoredShape(r, sink, x, dstInput);
    RedirectMoveOp(ops0, op0, m, x, r.nextOpId);
  }

  /** The operation one more AddBackedge creates is the rebuilt destination
      of ops0, with its uses moved. */
  lemma RestoredNewOp(ops0: map<nat, Op>, r: Body, m: map<nat, nat>, sink: nat, x: nat, dstInput: int)
    requires IdsBelow(r) && Restorable(r.ops, sink, x, dstInput) && Restorable(ops0, sink, x, dstInput)
    requires x !in m && forall p | p in m :: m[p] !in ops0
    requires OpUsesIn(ops0, ops0[x]) && OpUsesIn(ops0, ops0[sink])
    requires r.ops[x] == MoveOp(ops0[x], m) && r.ops[sink] == MoveOp(ops0[sink], m)
    ensures Restored(r, sink, x, dstInput).ops[r.nextOpId]
      == MoveOp(Rebuilt(ops0[x], dstInput, ops0[sink].operands[0].op), m[x := r.nextOpId])
  {
    RestoredShape(r, sink, x, dstInput);
    var s0 := ops0[sink].operands[0];
    assert s0 in ops0[sink].operands;
    assert r.ops[sink].operands[0] == Moved(s0, m);
    RebuiltMoves(ops0[x], dstInput, s0.op, s0.index, m);
    RebuiltUsesIn(ops0, ops0[x], dstInput, s0.op);
    RedirectMoveOp(ops0, Rebuilt(ops0[x], dstInput, s0.op), m, x, r.nextOpId);
  }

  /** The body r after moves still has the destination and the sink, with
      the uses of the sink's token moved. */
  lemma ReadyAfter(b: Body, r: Body, m: map<nat, nat>, count: nat, sink: nat, x: nat, dstInput: int)
    requires Ready(b, r, m, count, sink, x, dstInput)
    ensures IdsBelow(r) && Restorable(r.ops, sink, x, dstInput)
  {
  }

  /** One more AddBackedge keeps MovingOps. */
  lemma RestoredOps(b: Body, r: Body, m: map<nat, nat>, count: nat, sink: nat, x: nat, dstInput: int)
    requires Ready(b, r, m, count, sink, x, dstInput)
    ensures MovingOps(b, Restored(r, sink, x, dstInput), m[x := r.nextOpId], count + 1)
  {
    ReadyAfter(b, r, m, count, sink, x, dstInput);
    var r' := Restored(r, sink, x, dstInput);
    assert r'.nextOpId == r.nextOpId + 1 && r'.ops.Keys == r.ops.Keys - {x} + {r.nextOpId} by {
      RestoredShape(r, sink, x, dstInput);
    }
    MovingKeysStep(b.ops.Keys, r.ops.Keys, m, b.nextOpId, count, x);
    RestoredMovedOps(b, r, m, count, sink, x, dstInput);
  }

  /** Every operation of b after one more AddBackedge: the rebuilt
      destination, and every other operation that has not moved, with its
      uses moved once more. */
  lemma RestoredMovedOps(b: Body, r: Body, m: map<nat, nat>, count: nat, sink: nat, x: nat, dstInput: int)
    requires Ready(b, r, m, count, sink, x, dstInput)
    ensures Restored(r, sink, x, dstInput).ops[r.nextOpId]
      == MoveOp(Rebuilt(b.ops[x], dstInput, b.ops[sink].operands[0].op), m[x := r.nextOpId])
    ensures forall o | o in b.ops && o !in m[x := r.nextOpId] ::
      Restored(r, sink, x, dstInput).ops[o] == MoveOp(b.ops[o], m[x := r.nextOpId])
  {
    RestoredNew(b, r, m, count, sink, x, dstInput);
    forall o | o in b.ops && o !in m[x := r.nextOpId]
      ensures Restored(r, sink, x, dstInput).ops[o] == MoveOp(b.ops[o], m[x := r.nextOpId])
    {
      RestoredOld(b, r, m, count, sink, x, dstInput, o);
    }
  }

  lemma RestoredNew(b: Body, r: Body, m: map<nat, nat>, count: nat, sink: nat, x: nat, dstInput: int)
    requires Ready(b, r, m, count, sink, x, dstInput)
    ensures Restored(r, sink, x, dstInput).ops[r.nextOpId]
      == MoveOp(Rebuilt(b.ops[x], dstInput, b.ops[sink].operands[0].op), m[x := r.nextOpId])
  {
    RestoredNewOp(b.ops, r, m, sink, x, dstInput);
  }

  lemma RestoredOld(b: Body, r: Body, m: map<nat, nat>, count: nat, sink: nat, x: nat, dstInput: int, o: nat)
    requires Ready(b, r, m, count, sink, x, dstInput) && o in b.ops && o !in m && o != x
    ensures Restored(r, sink, x, dstInput).ops[o] == MoveOp(b.ops[o], m[x := r.nextOpId])
  {
    RestoredOpAt(b.ops, r, m, sink, x, dstInput, o, b.ops[o]);
  }

  /** One more AddBackedge keeps MovingBlock. */
  lemma RestoredBlock(b: Body, r: Body, m: map<nat, nat>, sink: nat, x: nat, dstInput: int)
    requires Restorable(r.ops, sink, x, dstInput) && MovingBlock(b, r, m)
    requires x < b.nextOpId <= r.nextOpId && forall o | o in m :: o < b.nextOpId
    ensures MovingBlock(b, Restored(r, sink, x, dstInput), m[x := r.nextOpId])
  {
    RestoredShapeBlock(r, sink, x, dstInput);
  }

  /** One more AddBackedge keeps a back edge restored before it. */
  lemma RestoredKeeps(b: Body, r: Body, m: map<nat, nat>, count: nat, sink: nat, x: nat, dstInput: int,
                      nv: map<nat, nat>, e': Edge, y': nat)
    requires Ready(b, r, m, count, sink, x, dstInput) && RestoredAt(b, r, m, nv, e', y')
    ensures RestoredAt(b, Restored(r, sink, x, dstInput), m[x := r.nextOpId], nv, e', y')
  {
    var x', sink' := nv[e'.dst], nv[e'.src];
    var op0 := Rebuilt(b.ops[x'], e'.dstInput, b.ops[sink'].operands[0].op);
    assert op0 == Rebuilt(b.ops[x'], e'.dstInput, b.ops[sink'].operands[0].op);
    assert OpUsesIn(b.ops, op0) by {
      var s' := b.ops[sink'].operands[0];
      assert s' in b.ops[sink'].operands;
      assert OpUsesIn(b.ops, b.ops[sink']) && OpUsesIn(b.ops, b.ops[x']);
      RebuiltUsesIn(b.ops, b.ops[x'], e'.dstInput, s'.op);
    }
    assert IdsBelow(r) && y' != x && r.ops[x].types == b.ops[x].types;
    RestoredOpAt(b.ops, r, m, sink, x, dstInput, y', op0);
    assert y' in Restored(r, sink, x, dstInput).ops by {
      RestoredShape(r, sink, x, dstInput);
    }
  }

  /** The back edge of one more AddBackedge is restored at the next id. */
  lemma RestoredNewAt(b: Body, r: Body, m: map<nat, nat>, count: nat, nv: map<nat, nat>, e: Edge)
    requires e.src in nv && e.dst in nv && Ready(b, r, m, count, nv[e.src], nv[e.dst], e.dstInput)
    ensures RestoredAt(b, Restored(r, nv[e.src], nv[e.dst], e.dstInput), m[nv[e.dst] := r.nextOpId], nv, e, r.nextOpId)
  {
    RestoredMovedOps(b, r, m, count, nv[e.src], nv[e.dst], e.dstInput);
    ReadyAfter(b, r, m, count, nv[e.src], nv[e.dst], e.dstInput);
    RestoredShape(r, nv[e.src], nv[e.dst], e.dstInput);
  }

  /** The destination of one more restored back edge is an operation of b
      that has not moved yet, and so is its NextIteration sink. */
  lemma StepSources(g: Graph, nv: map<nat, nat>, e: Edge, b: Body, r: Body, m: map<nat, nat>, count: nat)
    requires IdsBelow(b) && WellFormed(b.ops) && ValuesBelow(nv, b)
    requires Moving(b, r, m, count) && RestoreOne(g, nv, e, r).Success?
    ensures e.src in nv && e.dst in nv
    ensures Ready(b, r, m, count, nv[e.src], nv[e.dst], e.dstInput)
    ensures RestoreOne(g, nv, e, r).value == Restored(r, nv[e.src], nv[e.dst], e.dstInput)
  {
    var x, sink := nv[e.dst], nv[e.src];
    assert x in r.ops && sink in r.ops;
    assert r.ops[sink] == MoveOp(b.ops[sink], m) && r.ops[x] == MoveOp(b.ops[x], m);
  }

  /** The back edges of the destinations in `order`, in that order. */
  function EdgesOf(dsts: map<nat, Edge>, order: seq<nat>): (es: seq<Edge>)
    requires forall d | d in order :: d in dsts
    ensures |es| == |order| && forall k | 0 <= k < |order| :: es[k] == dsts[order[k]]
    decreases |order|
  {
    if |order| == 0 then []
    else EdgesOf(dsts, order[..|order| - 1]) + [dsts[order[|order| - 1]]]
  }

  /** The back edges es restored, in order, from b.nextOpId on. */
  ghost predicate AllRestoredAt(b: Body, r: Body, m: map<nat, nat>, nv: map<nat, nat>, es: seq<Edge>) {
    forall k | 0 <= k < |es| :: RestoredAt(b, r, m, nv, es[k], b.nextOpId + k)
  }

  /** One more restored back edge keeps Moving. */
  lemma RestoreStepMoving(b: Body, r: Body, m: map<nat, nat>, count: nat, sink: nat, x: nat, dstInput: int)
    requires Ready(b, r, m, count, sink, x, dstInput) && MovingBlock(b, r, m)
    ensures Moving(b, Restored(r, sink, x, dstInput), m[x := r.nextOpId], count + 1)
  {
    RestoredOps(b, r, m, count, sink, x, dstInput);
    ReadyAfter(b, r, m, count, sink, x, dstInput);
    RestoredBlock(b, r, m, sink, x, dstInput);
  }

  /** One more restored back edge keeps every back edge restored before it,
      and is restored at the next id. */
  lemma RestoreStepKeeps(b: Body, r: Body, m: map<nat, nat>, count: nat, nv: map<nat, nat>, e: Edge)
    requires e.src in nv && e.dst in nv && Ready(b, r, m, count, nv[e.src], nv[e.dst], e.dstInput)
    ensures var r', m' := Restored(r, nv[e.src], nv[e.dst], e.dstInput), m[nv[e.dst] := r.nextOpId];
      && RestoredAt(b, r', m', nv, e, r.nextOpId)
      && forall e': Edge, y': nat | RestoredAt(b, r, m, nv, e', y') :: RestoredAt(b, r', m', nv, e', y')
  {
    var x, sink := nv[e.dst], nv[e.src];
    RestoredNewAt(b, r, m, count, nv, e);
    forall e': Edge, y': nat | RestoredAt(b, r, m, nv, e', y')
      ensures RestoredAt(b, Restored(r, sink, x, e.dstInput), m[x := r.nextOpId], nv, e', y')
    {
      RestoredKeeps(b, r, m, count, sink, x, e.dstInput, nv, e', y');
    }
  }

  /** The same, over the back edges es restored before it. */
  lemma RestoreStepAt(b: Body, r: Body, m: map<nat, nat>, nv: map<nat, nat>, es: seq<Edge>, e: Edge)
    requires e.src in nv && e.dst in nv && Ready(b, r, m, |es|, nv[e.src], nv[e.dst], e.dstInput)
    requires AllRestoredAt(b, r, m, nv, es)
    ensures AllRestoredAt(b, Restored(r, nv[e.src], nv[e.dst], e.dstInput), m[nv[e.dst] := r.nextOpId], nv, es + [e])
  {
    RestoreStepKeeps(b, r, m, |es|, nv, e);
    AllRestoredAtStep(b, r, m, Restored(r, nv[e.src], nv[e.dst], e.dstInput), m[nv[e.dst] := r.nextOpId], nv, es, e);
  }

  lemma AllRestoredAtStep(b: Body, r: Body, m: map<nat, nat>, r': Body, m': map<nat, nat>, nv: map<nat, nat>, es: seq<Edge>, e: Edge)
    requires AllRestoredAt(b, r, m, nv, es)
    requires forall e': Edge, y': nat | RestoredAt(b, r, m, nv, e', y') :: RestoredAt(b, r', m', nv, e', y')
    requires RestoredAt(b, r', m', nv, e, b.nextOpId + |es|)
    ensures AllRestoredAt(b, r', m', nv, es + [e])
  {
    var es' := es + [e];
    forall k | 0 <= k < |es'| ensures RestoredAt(b, r', m', nv, es'[k], b.nextOpId + k) {
      if k < |es| {
        assert es'[k] == es[k];
        assert RestoredAt(b, r, m, nv, es[k], b.nextOpId + k);
      } else {
        assert es'[k] == e;
      }
    }
  }

  /** AddBackedges in terms of the body before it: after restoring the back
      edges of `order`, the k-th destination's operation is replaced by the
      operation with id b.nextOpId + k, rebuilt with its NextIteration
      source spliced in; nothing uses the replaced operations any more, and
      every other operation stays with its uses moved. */
  lemma {:induction false} RestoreAllMoves(g: Graph, nv: map<nat, nat>, dsts: map<nat, Edge>, b: Body, order: seq<nat>)
    requires forall d | d in order :: d in dsts
    requires IdsBelow(b) && WellFormed(b.ops) && ValuesBelow(nv, b)
    requires RestoreAll(g, nv, dsts, b, order).Success?
    ensures var r, m := RestoreAll(g, nv, dsts, b, order).value, Moves(nv, dsts, order, b.nextOpId);
      && Moving(b, r, m, |order|)
      && AllRestoredAt(b, r, m, nv, EdgesOf(dsts, order))
    decreases |order|
  {
    var r, m := RestoreAll(g, nv, dsts, b, order).value, Moves(nv, dsts, order, b.nextOpId);
    if |order| == 0 {
      forall o | o in b.ops ensures b.ops[o] == MoveOp(b.ops[o], map[]) {
        var op := b.ops[o];
        assert MoveOperands(op.operands, map[]) == op.operands;
        if op.region.IslandRegion? {
          assert MoveOperands(op.region.inner.operands, map[]) == op.region.inner.operands;
        }
      }
    } else {
      var n := |order| - 1;
      var init := order[..n];
      RestoreAllMoves(g, nv, dsts, b, init);
      var r0, m0 := RestoreAll(g, nv, dsts, b, init).value, Moves(nv, dsts, init, b.nextOpId);
      var e := dsts[order[n]];
      assert r == RestoreOne(g, nv, e, r0).value;
      assert EdgesOf(dsts, order) == EdgesOf(dsts, init) + [e];
      StepSources(g, nv, e, b, r0, m0, n);
      RestoreStepMoving(b, r0, m0, n, nv[e.src], nv[e.dst], e.dstInput);
      RestoreStepAt(b, r0, m0, nv, EdgesOf(dsts, init), e);
      MovesStep(nv, dsts, order, b.nextOpId, r0.nextOpId);
    }
  }

  /** After AddBackedges no operation uses any result of a replaced
      destination. */
  lemma RestoreAllUnused(g: Graph, nv: map<nat, nat>, dsts: map<nat, Edge>, b: Body, order: seq<nat>, x: nat, i: nat)
    requires forall d | d in order :: d in dsts
    requires IdsBelow(b) && WellFormed(b.ops) && ValuesBelow(nv, b)
    requires RestoreAll(g, nv, dsts, b, order).Success? && x in Moves(nv, dsts, order, b.nextOpId)
    ensures NoUses(RestoreAll(g, nv, dsts, b, order).value.ops, OpResult(x, i))
  {
    RestoreAllMoves(g, nv, dsts, b, order);
    MovedUnused(b, RestoreAll(g, nv, dsts, b, order).value, Moves(nv, dsts, order, b.nextOpId),
                |order|, nv, EdgesOf(dsts, order), x, i);
  }

  /** AddBackedges, back edge by back edge: the k-th restored edge ran from a
      NextIteration to a Merge; the operation of its Merge is gone from the
      body and the block, and nothing uses any of its results; in its place
      the operation b.nextOpId + k, in the block, is the old one with the
      NextIteration's token spliced in at the edge's input (and with every
      use moved off the replaced operations). */
  lemma RestoreAllRestores(g: Graph, nv: map<nat, nat>, dsts: map<nat, Edge>, b: Body, order: seq<nat>, k: nat)
    requires forall d | d in order :: d in dsts
    requires IdsBelow(b) && WellFormed(b.ops) && ValuesBelow(nv, b)
    requires RestoreAll(g, nv, dsts, b, order).Success? && k < |order|
    ensures var r, m, e := RestoreAll(g, nv, dsts, b, order).value, Moves(nv, dsts, order, b.nextOpId), dsts[order[k]];
      && ValidBackEdge(g, e) && e.src in nv && e.dst in nv
      && var x, sink, y := nv[e.dst], nv[e.src], b.nextOpId + k;
      && Restorable(b.ops, sink, x, e.dstInput)
      && x !in r.ops && x !in r.block
      && (forall i: nat :: NoUses(r.ops, OpResult(x, i)))
      && y in r.ops && y in r.block
      && r.ops[y] == MoveOp(Rebuilt(b.ops[x], e.dstInput, b.ops[sink].operands[0].op), m)
  {
    var r, m := RestoreAll(g, nv, dsts, b, order).value, Moves(nv, dsts, order, b.nextOpId);
    RestoreAllMoves(g, nv, dsts, b, order);
    RestoreAllChecked(g, nv, dsts, b, order);
    assert order[k] in order;
    var e := EdgesOf(dsts, order)[k];
    assert RestoredAt(b, r, m, nv, e, b.nextOpId + k);
    forall i: nat ensures NoUses(r.ops, OpResult(nv[e.dst], i)) {
      RestoreAllUnused(g, nv, dsts, b, order, nv[e.dst], i);
    }
  }

  /** In a body after moves, nothing uses a result of an operation that moved. */
  lemma MovedUnused(b: Body, r: Body, m: map<nat, nat>, count: nat, nv: map<nat, nat>, es: seq<Edge>, x: nat, i: nat)
    requires IdsBelow(b) && |es| == count && Moving(b, r, m, count) && AllRestoredAt(b, r, m, nv, es) && x in m
    ensures NoUses(r.ops, OpResult(x, i))
  {
    forall o | o in r.ops
      ensures OpResult(x, i) !in r.ops[o].operands
      ensures r.ops[o].region.IslandRegion? ==> OpResult(x, i) !in r.ops[o].region.inner.operands
    {
      MovedOpUnused(b, r, m, count, nv, es, x, i, o);
    }
  }

  lemma MovedOpUnused(b: Body, r: Body, m: map<nat, nat>, count: nat, nv: map<nat, nat>, es: seq<Edge>, x: nat, i: nat, o: nat)
    requires IdsBelow(b) && |es| == count && Moving(b, r, m, count) && AllRestoredAt(b, r, m, nv, es) && x in m
    requires o in r.ops
    ensures OpResult(x, i) !in r.ops[o].operands
    ensures r.ops[o].region.IslandRegion? ==> OpResult(x, i) !in r.ops[o].region.inner.operands
  {
    assert forall p | p in m :: m[p] !in m;
    var op0: Op;
    if o in b.ops && o !in m {
      op0 := b.ops[o];
    } else {
      var k := o - b.nextOpId;
      var e := es[k];
      assert RestoredAt(b, r, m, nv, e, b.nextOpId + k);
      op0 := Rebuilt(b.ops[nv[e.dst]], e.dstInput, b.ops[nv[e.src]].operands[0].op);
    }
    assert r.ops[o] == MoveOp(op0, m);
    NotMoved(op0.operands, m, x, i);
    if op0.region.IslandRegion? {
      NotMoved(op0.region.inner.operands, m, x, i);
    }
  }

  /** Moved uses never name an operation that moved, when no operation
      moved onto another that moved. */
  lemma NotMoved(vs: seq<Value>, m: map<nat, nat>, x: nat, i: nat)
    requires x in m && forall o | o in m :: m[o] !in m
    ensures OpResult(x, i) !in MoveOperands(vs, m)
  {
  }

  // ---------------------------------------------------------------------
  // Wiring the arguments

  /** The operation that stands for a declared input inside its island: the
      wrapped operation renamed with `.input`, the block argument appended as
      its last operand. */
  function InputOp(inner: Op, arg: nat): (r: Op)
    ensures r.name == inner.name + ".input" && r.types == inner.types && r.attrs == inner.attrs
    ensures |r.operands| == |inner.operands| + 1 && r.operands[..|inner.operands|] == inner.operands
    ensures r.operands[|inner.operands|] == BlockArg(arg)
  {
    Op(inner.name + ".input", inner.operands + [BlockArg(arg)], inner.types, inner.attrs, NoRegion)
  }

  /** An island's yield after every result of the wrapped operation was
      replaced by result `index` of the `.input` operation. */
  function YieldOnly(index: int, n: nat): (r: seq<int>)
    ensures |r| == n && forall j :: 0 <= j < n ==> r[j] == index
  {
    seq(n, j => index)
  }

  /** Rebuilding an island around the `.input` operation adds no use of any
      value but the block argument. */
  lemma InputStepKeepsNoUses(ops: map<nat, Op>, x: nat, i: nat, ys: seq<int>, v: Value)
    requires x in ops && ops[x].region.IslandRegion? && NoUses(ops, v) && v != BlockArg(i)
    ensures NoUses(ops[x := ops[x].(region := IslandRegion(InputOp(ops[x].region.inner, i), ys))], v)
  {
    var inner := ops[x].region.inner;
    assert InputOp(inner, i).operands == inner.operands + [BlockArg(i)];
  }

  /** One turn of the argument loop of ConvertFunctionArgAndRets that
      succeeded, from body r to body r': the node of argument i was converted
      to an island x; for an _Arg node every use of x's result 0 became block
      argument i and x left the body and the block; for any other node, whose
      output index names a result of the wrapped operation, x was rebuilt
      around the `.input` operation of argument i. */
  predicate WireTurn(g: Graph, nv: map<nat, nat>, i: nat, a: OutputTensor, r: Body, r': Body) {
    && WireReady(g, nv, a, r)
    && var x := nv[a.node];
    && (g.nodes[a.node].IsArg() ==>
          r' == Body(ReplaceAllUses(r.ops, OpResult(x, 0), BlockArg(i)) - {x}, Erase(r.block, x), r.nextOpId))
    && (!g.nodes[a.node].IsArg() ==> r' == r.(ops := r.ops[x := Rewired(r.ops[x], i, a.index)]))
  }

  /** When a turn of the argument loop succeeds: the node was converted to an
      island, and a node other than _Arg names a result of the operation the
      island wraps. */
  predicate WireReady(g: Graph, nv: map<nat, nat>, a: OutputTensor, r: Body) {
    && a.node in g.nodes && a.node in nv && nv[a.node] in r.ops && r.ops[nv[a.node]].region.IslandRegion?
    && (!g.nodes[a.node].IsArg() ==> 0 <= a.index < |r.ops[nv[a.node]].region.inner.types|)
  }

  /** The first n turns of the argument loop, body by body. */
  predicate WireTrace(g: Graph, nv: map<nat, nat>, argNodes: seq<OutputTensor>, bs: seq<Body>, n: nat) {
    && n <= |argNodes| && n < |bs|
    && forall k | 0 <= k < n :: WireTurn(g, nv, k, argNodes[k], bs[k], bs[k + 1])
  }

  /** A trace one turn longer. */
  lemma WireTraceSnoc(g: Graph, nv: map<nat, nat>, argNodes: seq<OutputTensor>, bs: seq<Body>, n: nat, r': Body)
    requires WireTrace(g, nv, argNodes, bs, n) && |bs| == n + 1 && n < |argNodes| && WireTurn(g, nv, n, argNodes[n], bs[n], r')
    ensures WireTrace(g, nv, argNodes, bs + [r'], n + 1)
  {
    var bs' := bs + [r'];
    forall k | 0 <= k < n + 1 ensures WireTurn(g, nv, k, argNodes[k], bs'[k], bs'[k + 1]) {
      if k < n {
        assert bs'[k] == bs[k] && bs'[k + 1] == bs[k + 1];
      }
    }
  }

  /** Where the argument loop put the arguments: the operation of argument j's node
      maps to j, for the _Arg nodes (isArg) or for the other input nodes. */
  function ArgTargets(g: Graph, nv: map<nat, nat>, argNodes: seq<OutputTensor>, n: nat, isArg: bool): (t: map<nat, nat>)
    requires n <= |argNodes|
    ensures forall x | x in t ::
              && t[x] < n && argNodes[t[x]].node in g.nodes && argNodes[t[x]].node in nv
              && nv[argNodes[t[x]].node] == x && g.nodes[argNodes[t[x]].node].IsArg() == isArg
    decreases n
  {
    if n == 0 then map[]
    else
      var t := ArgTargets(g, nv, argNodes, n - 1, isArg);
      var a := argNodes[n - 1];
      if a.node in g.nodes && a.node in nv && g.nodes[a.node].IsArg() == isArg then t[nv[a.node] := n - 1] else t
  }

  /** The argument nodes of the first n arguments have distinct operations. */
  predicate ArgsDistinct(nv: map<nat, nat>, argNodes: seq<OutputTensor>, n: nat) {
    forall j, k | 0 <= j < k < n && k < |argNodes| && argNodes[j].node in nv && argNodes[k].node in nv ::
      nv[argNodes[j].node] != nv[argNodes[k].node]
  }

  lemma ArgsDistinctPrefix(nv: map<nat, nat>, argNodes: seq<OutputTensor>, n: nat, m: nat)
    requires ArgsDistinct(nv, argNodes, n) && m <= n
    ensures ArgsDistinct(nv, argNodes, m)
  {
  }

  /** A use after the arguments of am were wired: result 0 of the island of
      an _Arg node becomes its block argument. */
  function Subst(v: Value, am: map<nat, nat>): Value {
    if v.OpResult? && v.index == 0 && v.op in am then BlockArg(am[v.op]) else v
  }

  function SubstOperands(vs: seq<Value>, am: map<nat, nat>): (r: seq<Value>)
    ensures |r| == |vs| && forall i :: 0 <= i < |vs| ==> r[i] == Subst(vs[i], am)
  {
    seq(|vs|, i requires 0 <= i < |vs| => Subst(vs[i], am))
  }

  /** An operation with its uses substituted, in its operands and in the
      operation an island wraps. */
  function SubstOp(op: Op, am: map<nat, nat>): (r: Op)
    ensures r.name == op.name && r.types == op.types && r.attrs == op.attrs
    ensures r.operands == SubstOperands(op.operands, am)
    ensures r.region.IslandRegion? <==> op.region.IslandRegion?
    ensures op.region.IslandRegion? ==>
              && r.region.results == op.region.results
              && r.region.inner == op.region.inner.(operands := SubstOperands(op.region.inner.operands, am))
  {
    var region := match op.region
      case NoRegion => NoRegion
      case IslandRegion(inner, ys) =>
        IslandRegion(inner.(operands := SubstOperands(inner.operands, am)), ys);
    op.(operands := SubstOperands(op.operands, am), region := region)
  }

  /** The island of a non-_Arg input node, rebuilt around the `.input`
      operation that takes block argument j and whose result `index` the
      island yields in every position. */
  function Rewired(op: Op, j: nat, index: int): Op
    requires op.region.IslandRegion?
  {
    op.(region := IslandRegion(InputOp(op.region.inner, j), YieldOnly(index, |op.region.results|)))
  }

  /** The body r after wiring, in terms of the body b before it: the islands
      of the _Arg nodes (am) are gone from the body and the block; the
      islands of the other input nodes (im) are rewired; every other
      operation stays; and every use of result 0 of an _Arg island is now
      its block argument. */
  ghost predicate Wired(b: Body, r: Body, am: map<nat, nat>, im: map<nat, nat>, argNodes: seq<OutputTensor>) {
    && r.nextOpId == b.nextOpId
    && WiredKeys(b.ops.Keys, r.ops.Keys, am, im)
    && WiredBlock(b.block, r.block, am)
    && WiredIslands(b, r, am, im, argNodes)
    && WiredOps(b, r, am, im)
  }

  /** The ids of Wired: the _Arg islands are gone, every other id stays. */
  ghost predicate WiredKeys(old0: set<nat>, now: set<nat>, am: map<nat, nat>, im: map<nat, nat>) {
    && (forall x | x in am :: x in old0 && x !in im && x !in now)
    && (forall x | x in im :: x in old0)
    && (forall x | x in old0 && x !in am :: x in now)
    && (forall x | x in now :: x in old0 && x !in am)
  }

  /** The block of Wired: the _Arg islands are gone, every other id stays. */
  ghost predicate WiredBlock(old0: seq<nat>, now: seq<nat>, am: map<nat, nat>) {
    && (forall x | x in am :: x !in now)
    && (forall x | x in old0 && x !in am :: x in now)
    && (forall x | x in now :: x in old0)
  }

  /** The rewired islands of Wired. */
  ghost predicate WiredIslands(b: Body, r: Body, am: map<nat, nat>, im: map<nat, nat>, argNodes: seq<OutputTensor>) {
    forall x | x in im ::
      && x in b.ops && b.ops[x].region.IslandRegion? && im[x] < |argNodes| && x in r.ops
      && r.ops[x] == SubstOp(Rewired(b.ops[x], im[x], argNodes[im[x]].index), am)
  }

  /** The operations of Wired that are neither wired input islands. */
  ghost predicate WiredOps(b: Body, r: Body, am: map<nat, nat>, im: map<nat, nat>) {
    forall x | x in b.ops && x !in am && x !in im :: x in r.ops && r.ops[x] == SubstOp(b.ops[x], am)
  }

  /** Substituting one more _Arg result is replacing its uses. */
  lemma SubstStep(op: Op, am: map<nat, nat>, x: nat, i: nat)
    requires x !in am
    ensures ReplaceInOp(SubstOp(op, am), OpResult(x, 0), BlockArg(i)) == SubstOp(op, am[x := i])
  {
    forall vs: seq<Value> ensures ReplaceInOperands(SubstOperands(vs, am), OpResult(x, 0), BlockArg(i)) == SubstOperands(vs, am[x := i]) {
    }
  }

  /** Rewiring commutes with substitution. */
  lemma RewiredSubst(op: Op, am: map<nat, nat>, j: nat, index: int)
    requires op.region.IslandRegion?
    ensures Rewired(SubstOp(op, am), j, index) == SubstOp(Rewired(op, j, index), am)
  {
    var inner := op.region.inner;
    assert SubstOperands(inner.operands + [BlockArg(j)], am) == SubstOperands(inner.operands, am) + [BlockArg(j)];
  }

  lemma SubstNone(op: Op)
    ensures SubstOp(op, map[]) == op
  {
    assert SubstOperands(op.operands, map[]) == op.operands;
    if op.region.IslandRegion? {
      assert SubstOperands(op.region.inner.operands, map[]) == op.region.inner.operands;
    }
  }

  lemma WiredKeysArg(old0: set<nat>, now: set<nat>, am: map<nat, nat>, im: map<nat, nat>, x: nat, i: nat)
    requires WiredKeys(old0, now, am, im) && x in now && x !in im
    ensures WiredKeys(old0, now - {x}, am[x := i], im)
  {
  }

  lemma WiredBlockArg(old0: seq<nat>, now: seq<nat>, am: map<nat, nat>, x: nat, i: nat)
    requires WiredBlock(old0, now, am)
    ensures WiredBlock(old0, Erase(now, x), am[x := i])
  {
  }

  lemma WiredKeysInput(old0: set<nat>, now: set<nat>, am: map<nat, nat>, im: map<nat, nat>, x: nat, i: nat)
    requires WiredKeys(old0, now, am, im) && x in now
    ensures WiredKeys(old0, now, am, im[x := i])
  {
  }

  lemma ArgStepIslands(b: Body, r: Body, am: map<nat, nat>, im: map<nat, nat>, argNodes: seq<OutputTensor>,
                       x: nat, i: nat, r': Body, am': map<nat, nat>)
    requires WiredIslands(b, r, am, im, argNodes) && x !in am && x !in im
    requires r'.ops == ReplaceAllUses(r.ops, OpResult(x, 0), BlockArg(i)) - {x} && am' == am[x := i]
    ensures WiredIslands(b, r', am', im, argNodes)
  {
    forall o | o in im ensures o in r'.ops && r'.ops[o] == SubstOp(Rewired(b.ops[o], im[o], argNodes[im[o]].index), am') {
      SubstStep(Rewired(b.ops[o], im[o], argNodes[im[o]].index), am, x, i);
    }
  }

  lemma ArgStepOps(b: Body, r: Body, am: map<nat, nat>, im: map<nat, nat>, x: nat, i: nat, r': Body, am': map<nat, nat>)
    requires WiredOps(b, r, am, im) && x !in am
    requires r'.ops == ReplaceAllUses(r.ops, OpResult(x, 0), BlockArg(i)) - {x} && am' == am[x := i]
    ensures WiredOps(b, r', am', im)
  {
    forall o | o in b.ops && o !in am' && o !in im ensures o in r'.ops && r'.ops[o] == SubstOp(b.ops[o], am') {
      SubstStep(b.ops[o], am, x, i);
    }
  }

  /** Turn n - 1 of the trace wires an _Arg node, and keeps Wired. */
  lemma ArgStep(g: Graph, nv: map<nat, nat>, argNodes: seq<OutputTensor>, bs: seq<Body>, n: nat)
    requires 0 < n && WireTrace(g, nv, argNodes, bs, n)
    requires argNodes[n - 1].node in g.nodes && g.nodes[argNodes[n - 1].node].IsArg()
    requires argNodes[n - 1].node in nv && nv[argNodes[n - 1].node] !in ArgTargets(g, nv, argNodes, n - 1, false)
    requires Wired(bs[0], bs[n - 1], ArgTargets(g, nv, argNodes, n - 1, true), ArgTargets(g, nv, argNodes, n - 1, false), argNodes)
    ensures Wired(bs[0], bs[n], ArgTargets(g, nv, argNodes, n, true), ArgTargets(g, nv, argNodes, n, false), argNodes)
  {
    assert WireTurn(g, nv, n - 1, argNodes[n - 1], bs[n - 1], bs[n]);
    ArgTargetsStep(g, nv, argNodes, n, true);
    ArgTargetsStep(g, nv, argNodes, n, false);
    var x := nv[argNodes[n - 1].node];
    assert bs[n].ops.Keys == bs[n - 1].ops.Keys - {x};
    WiredKeysArg(bs[0].ops.Keys, bs[n - 1].ops.Keys, ArgTargets(g, nv, argNodes, n - 1, true), ArgTargets(g, nv, argNodes, n - 1, false), x, n - 1);
    WiredBlockArg(bs[0].block, bs[n - 1].block, ArgTargets(g, nv, argNodes, n - 1, true), x, n - 1);
    ArgStepIslands(bs[0], bs[n - 1], ArgTargets(g, nv, argNodes, n - 1, true), ArgTargets(g, nv, argNodes, n - 1, false), argNodes,
                   x, n - 1, bs[n], ArgTargets(g, nv, argNodes, n, true));
    ArgStepOps(bs[0], bs[n - 1], ArgTargets(g, nv, argNodes, n - 1, true), ArgTargets(g, nv, argNodes, n - 1, false),
               x, n - 1, bs[n], ArgTargets(g, nv, argNodes, n, true));
  }

  lemma InputStepIslands(b: Body, r: Body, am: map<nat, nat>, im: map<nat, nat>, argNodes: seq<OutputTensor>,
                         x: nat, i: nat, r': Body, im': map<nat, nat>)
    requires WiredIslands(b, r, am, im, argNodes) && x in b.ops && x !in am && x !in im && i < |argNodes|
    requires x in r.ops && r.ops[x] == SubstOp(b.ops[x], am) && b.ops[x].region.IslandRegion?
    requires r'.ops == r.ops[x := Rewired(r.ops[x], i, argNodes[i].index)] && im' == im[x := i]
    ensures WiredIslands(b, r', am, im', argNodes)
  {
    RewiredSubst(b.ops[x], am, i, argNodes[i].index);
    forall o | o in im' ensures o in r'.ops && r'.ops[o] == SubstOp(Rewired(b.ops[o], im'[o], argNodes[im'[o]].index), am) {
      if o != x {
        assert im'[o] == im[o] && r'.ops[o] == r.ops[o];
      }
    }
  }

  /** Turn n - 1 of the trace wires another input node, and keeps Wired. */
  lemma InputStep(g: Graph, nv: map<nat, nat>, argNodes: seq<OutputTensor>, bs: seq<Body>, n: nat)
    requires 0 < n && WireTrace(g, nv, argNodes, bs, n)
    requires argNodes[n - 1].node in g.nodes && !g.nodes[argNodes[n - 1].node].IsArg()
    requires argNodes[n - 1].node in nv && nv[argNodes[n - 1].node] !in ArgTargets(g, nv, argNodes, n - 1, false)
    requires Wired(bs[0], bs[n - 1], ArgTargets(g, nv, argNodes, n - 1, true), ArgTargets(g, nv, argNodes, n - 1, false), argNodes)
    ensures Wired(bs[0], bs[n], ArgTargets(g, nv, argNodes, n, true), ArgTargets(g, nv, argNodes, n, false), argNodes)
  {
    assert WireTurn(g, nv, n - 1, argNodes[n - 1], bs[n - 1], bs[n]);
    ArgTargetsStep(g, nv, argNodes, n, true);
    ArgTargetsStep(g, nv, argNodes, n, false);
    var x := nv[argNodes[n - 1].node];
    assert bs[n].ops.Keys == bs[n - 1].ops.Keys;
    WiredKeysInput(bs[0].ops.Keys, bs[n - 1].ops.Keys, ArgTargets(g, nv, argNodes, n - 1, true), ArgTargets(g, nv, argNodes, n - 1, false), x, n - 1);
    InputStepIslands(bs[0], bs[n - 1], ArgTargets(g, nv, argNodes, n - 1, true), ArgTargets(g, nv, argNodes, n - 1, false), argNodes, x, n - 1, bs[n],
                     ArgTargets(g, nv, argNodes, n, false));
    forall o | o in bs[0].ops && o !in ArgTargets(g, nv, argNodes, n - 1, true) && o !in ArgTargets(g, nv, argNodes, n, false)
      ensures o in bs[n].ops && bs[n].ops[o] == SubstOp(bs[0].ops[o], ArgTargets(g, nv, argNodes, n - 1, true))
    {
      assert o != x && bs[n].ops[o] == bs[n - 1].ops[o];
    }
  }

  /** One more argument of ArgTargets. */
  lemma ArgTargetsStep(g: Graph, nv: map<nat, nat>, argNodes: seq<OutputTensor>, n: nat, isArg: bool)
    requires 0 < n <= |argNodes| && argNodes[n - 1].node in g.nodes && argNodes[n - 1].node in nv
    ensures var a := argNodes[n - 1];
      ArgTargets(g, nv, argNodes, n, isArg) ==
        if g.nodes[a.node].IsArg() == isArg then ArgTargets(g, nv, argNodes, n - 1, isArg)[nv[a.node] := n - 1]
        else ArgTargets(g, nv, argNodes, n - 1, isArg)
  {
  }

  /** The argument loop in terms of the body before it, when the argument
      nodes have distinct operations. */
  lemma {:induction false} TraceWired(g: Graph, nv: map<nat, nat>, argNodes: seq<OutputTensor>, bs: seq<Body>, n: nat)
    requires WireTrace(g, nv, argNodes, bs, n) && ArgsDistinct(nv, argNodes, n)
    ensures Wired(bs[0], bs[n], ArgTargets(g, nv, argNodes, n, true), ArgTargets(g, nv, argNodes, n, false), argNodes)
  {
    if n == 0 {
      WiredNone(bs[0], argNodes);
    } else {
      ArgsDistinctPrefix(nv, argNodes, n, n - 1);
      TraceWired(g, nv, argNodes, bs, n - 1);
      WiredTrace(g, nv, argNodes, bs, n);
    }
  }

  /** The last turn of TraceWired. */
  lemma WiredTrace(g: Graph, nv: map<nat, nat>, argNodes: seq<OutputTensor>, bs: seq<Body>, n: nat)
    requires 0 < n && WireTrace(g, nv, argNodes, bs, n) && ArgsDistinct(nv, argNodes, n)
    requires Wired(bs[0], bs[n - 1], ArgTargets(g, nv, argNodes, n - 1, true), ArgTargets(g, nv, argNodes, n - 1, false), argNodes)
    ensures Wired(bs[0], bs[n], ArgTargets(g, nv, argNodes, n, true), ArgTargets(g, nv, argNodes, n, false), argNodes)
  {
    assert WireTurn(g, nv, n - 1, argNodes[n - 1], bs[n - 1], bs[n]);
    var im := ArgTargets(g, nv, argNodes, n - 1, false);
    forall y | y in im ensures y != nv[argNodes[n - 1].node] {
      assert nv[argNodes[im[y]].node] == y;
    }
    if g.nodes[argNodes[n - 1].node].IsArg() {
      ArgStep(g, nv, argNodes, bs, n);
    } else {
      InputStep(g, nv, argNodes, bs, n);
    }
  }

  /** Nothing wired yet. */
  lemma WiredNone(b: Body, argNodes: seq<OutputTensor>)
    ensures Wired(b, b, map[], map[], argNodes)
  {
    forall o | o in b.ops ensures b.ops[o] == SubstOp(b.ops[o], map[]) {
      SubstNone(b.ops[o]);
    }
  }

  /** A substituted use is never result 0 of an _Arg island. */
  lemma SubstNotUsed(vs: seq<Value>, am: map<nat, nat>, x: nat)
    requires x in am
    ensures OpResult(x, 0) !in SubstOperands(vs, am)
  {
  }

  /** After wiring, nothing uses result 0 of an _Arg island. */
  lemma WiredNoUses(b: Body, r: Body, am: map<nat, nat>, im: map<nat, nat>, argNodes: seq<OutputTensor>, x: nat)
    requires Wired(b, r, am, im, argNodes) && x in am
    ensures NoUses(r.ops, OpResult(x, 0))
  {
    forall o | o in r.ops
      ensures OpResult(x, 0) !in r.ops[o].operands
      ensures r.ops[o].region.IslandRegion? ==> OpResult(x, 0) !in r.ops[o].region.inner.operands
    {
      var op0 := if o in im then Rewired(b.ops[o], im[o], argNodes[im[o]].index) else b.ops[o];
      assert r.ops[o] == SubstOp(op0, am);
      SubstNotUsed(op0.operands, am, x);
      if op0.region.IslandRegion? {
        SubstNotUsed(op0.region.inner.operands, am, x);
      }
    }
  }
}
