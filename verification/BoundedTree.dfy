/** The structure bound on a decoded frame: a worklist against the recursive measure of the tree. */
module BoundedTree {

  const MAX_FRAME := 1024 * 1024
  const MAX_NODES := 16384
  const MAX_DEPTH := 32

  /** A decoded value; strings keep only their encoded size, floats only whether they are finite. */
  datatype Json =
    | Null
    | Bool(b: bool)
    | Int(n: int)
    | Float(finite: bool)
    | Text(size: nat)
    | Array(items: seq<Json>)
    | Object(keys: seq<string>, items: seq<Json>)

  function Children(v: Json): seq<Json> {
    if v.Array? || v.Object? then v.items else []
  }

  /** The bound on one node by itself. */
  predicate Local(v: Json) {
    match v
    case Object(_, items) => |items| <= 128
    case Array(items) => |items| <= 256
    case Text(size) => size <= MAX_FRAME
    case Float(finite) => finite
    case _ => true
  }

  function Nodes(v: Json): nat
    decreases v
  {
    1 + if v.Array? || v.Object? then AllNodes(v.items) else 0
  }

  function AllNodes(vs: seq<Json>): nat
    decreases vs
  {
    if vs == [] then 0 else Nodes(vs[0]) + AllNodes(vs[1..])
  }

  /** Every node at or below v, with v at this depth, is within its own bound and not too deep. */
  predicate Bounded(v: Json, depth: nat)
    decreases v
  {
    depth <= MAX_DEPTH && Local(v) && (v.Array? || v.Object? ==> forall i :: 0 <= i < |v.items| ==> Bounded(v.items[i], depth + 1))
  }

  datatype Pending = Pending(value: Json, depth: nat)

  function PendingNodes(ps: seq<Pending>): nat {
    if ps == [] then 0 else PendingNodes(ps[..|ps| - 1]) + Nodes(ps[|ps| - 1].value)
  }

  predicate PendingBounded(ps: seq<Pending>) {
    forall p :: p in ps ==> Bounded(p.value, p.depth)
  }

  function Pushed(vs: seq<Json>, depth: nat): seq<Pending> {
    seq(|vs|, i requires 0 <= i < |vs| => Pending(vs[i], depth))
  }

  lemma {:induction false} PendingJoins(a: seq<Pending>, b: seq<Pending>)
    ensures PendingNodes(a + b) == PendingNodes(a) + PendingNodes(b)
  {
    if b == [] {
      assert a + b == a;
    } else {
      assert (a + b)[..|a + b| - 1] == a + b[..|b| - 1];
      PendingJoins(a, b[..|b| - 1]);
    }
  }

  lemma {:induction false} PushedNodes(vs: seq<Json>, depth: nat)
    ensures PendingNodes(Pushed(vs, depth)) == AllNodes(vs)
  {
    if vs != [] {
      assert Pushed(vs, depth) == [Pending(vs[0], depth)] + Pushed(vs[1..], depth);
      PendingJoins([Pending(vs[0], depth)], Pushed(vs[1..], depth));
      assert [Pending(vs[0], depth)][..0] == [];
      PushedNodes(vs[1..], depth);
    }
  }

  lemma PushedBounded(v: Json, depth: nat)
    requires depth <= MAX_DEPTH && Local(v)
    ensures Bounded(v, depth) <==> PendingBounded(Pushed(Children(v), depth + 1))
  {
    var ps := Pushed(Children(v), depth + 1);
    if PendingBounded(ps) {
      forall i | 0 <= i < |Children(v)|
        ensures Bounded(Children(v)[i], depth + 1)
      {
        assert ps[i] in ps;
      }
    }
  }

  /** The worklist accepts exactly the trees within every bound, whatever order it visits them in. */
  method BoundTree(value: Json) returns (ok: bool)
    ensures ok <==> Nodes(value) <= MAX_NODES && Bounded(value, 0)
  {
    var pending, count := [Pending(value, 0)], 0;
    assert pending[..0] == [];
    while pending != []
      invariant count + PendingNodes(pending) == Nodes(value) && count <= MAX_NODES
      invariant Bounded(value, 0) <==> PendingBounded(pending)
      decreases PendingNodes(pending)
    {
      var rest, current := pending[..|pending| - 1], pending[|pending| - 1];
      assert pending == rest + [current];
      count := count + 1;
      if count > MAX_NODES || current.depth > MAX_DEPTH || !Local(current.value) {
        Refuses(rest, current);
        return false;
      }
      var more := Pushed(Children(current.value), current.depth + 1);
      Visited(rest, current, more);
      pending := rest + more;
    }
    ok := true;
  }

  /** One node that is out of bounds is enough, and one more node is always counted. */
  lemma Refuses(rest: seq<Pending>, current: Pending)
    ensures current.depth > MAX_DEPTH || !Local(current.value) ==> !PendingBounded(rest + [current])
    ensures 0 < PendingNodes(rest + [current])
  {
    assert (rest + [current])[|rest|] == current;
    assert (rest + [current])[..|rest|] == rest;
  }

  /** A node that is within its own bound gives way to its children. */
  lemma Visited(rest: seq<Pending>, current: Pending, more: seq<Pending>)
    requires current.depth <= MAX_DEPTH && Local(current.value) && more == Pushed(Children(current.value), current.depth + 1)
    ensures PendingNodes(rest + [current]) == 1 + PendingNodes(rest + more)
    ensures PendingBounded(rest + [current]) <==> PendingBounded(rest + more)
  {
    assert (rest + [current])[..|rest|] == rest;
    PushedNodes(Children(current.value), current.depth + 1);
    PushedBounded(current.value, current.depth);
    PendingJoins(rest, more);
    SplitBounded(rest, current, more);
  }

  lemma SplitBounded(rest: seq<Pending>, current: Pending, more: seq<Pending>)
    requires Bounded(current.value, current.depth) <==> PendingBounded(more)
    ensures PendingBounded(rest + [current]) <==> PendingBounded(rest + more)
  {
    if PendingBounded(rest + [current]) {
      assert current in rest + [current];
      assert forall p :: p in rest ==> p in rest + [current];
    }
    if PendingBounded(rest + more) {
      assert forall p :: p in more ==> p in rest + more;
      assert forall p :: p in rest ==> p in rest + more;
    }
  }

  /** The node that a path of child positions leads to. */
  function At(v: Json, path: seq<nat>): (r: seq<Json>)
    ensures |r| <= 1
    decreases |path|
  {
    if path == [] then [v]
    else if path[0] < |Children(v)| then At(Children(v)[path[0]], path[1..]) else []
  }

  /** The bound on one node, spelled out. */
  predicate Small(u: Json) {
    && (u.Object? ==> |u.items| <= 128) && (u.Array? ==> |u.items| <= 256)
    && (u.Text? ==> u.size <= 1048576) && (u.Float? ==> u.finite)
  }

  /** This path leads nowhere, or in at most thirty-two steps from the root to a small node. */
  predicate Fine(v: Json, depth: nat, path: seq<nat>) {
    At(v, path) != [] ==> depth + |path| <= 32 && Small(At(v, path)[0])
  }

  ghost predicate Fits(v: Json, depth: nat) {
    forall path: seq<nat> :: Fine(v, depth, path)
  }

  /** A tree is bounded exactly when every path into it is fine. */
  lemma {:induction false} BoundedExactly(v: Json, depth: nat)
    ensures Bounded(v, depth) <==> Fits(v, depth)
    decreases v
  {
    forall i | 0 <= i < |Children(v)|
      ensures Bounded(Children(v)[i], depth + 1) <==> Fits(Children(v)[i], depth + 1)
    {
      BoundedExactly(Children(v)[i], depth + 1);
    }
    assert Local(v) <==> Small(v);
    assert v.Array? || v.Object? ==> Children(v) == v.items;
    assert Bounded(v, depth) <==> depth <= 32 && Small(v) && forall i :: 0 <= i < |Children(v)| ==> Bounded(Children(v)[i], depth + 1);
    if Fits(v, depth) {
      ChildrenFit(v, depth);
    }
    if depth <= 32 && Small(v) && forall i :: 0 <= i < |Children(v)| ==> Fits(Children(v)[i], depth + 1) {
      FitsOfChildren(v, depth);
    }
  }

  lemma ChildrenFit(v: Json, depth: nat)
    requires Fits(v, depth)
    ensures depth <= 32 && Small(v) && forall i :: 0 <= i < |Children(v)| ==> Fits(Children(v)[i], depth + 1)
  {
    assert Fine(v, depth, []);
    forall i | 0 <= i < |Children(v)|
      ensures Fits(Children(v)[i], depth + 1)
    {
      ChildFits(v, depth, i);
    }
  }

  lemma ChildFits(v: Json, depth: nat, i: nat)
    requires Fits(v, depth) && i < |Children(v)|
    ensures Fits(Children(v)[i], depth + 1)
  {
    var child, below := Children(v)[i], depth + 1;
    forall path: seq<nat>
      ensures Fine(child, below, path)
    {
      StepDown(v, i, path);
      assert Fine(v, depth, [i] + path);
    }
  }

  lemma StepDown(v: Json, i: nat, path: seq<nat>)
    requires i < |Children(v)|
    ensures At(v, [i] + path) == At(Children(v)[i], path)
  {
    assert ([i] + path)[1..] == path;
  }

  lemma FitsOfChildren(v: Json, depth: nat)
    requires depth <= 32 && Small(v) && forall i :: 0 <= i < |Children(v)| ==> Fits(Children(v)[i], depth + 1)
    ensures Fits(v, depth)
  {
    forall path: seq<nat>
      ensures Fine(v, depth, path)
    {
      if path != [] && path[0] < |Children(v)| {
        assert Fine(Children(v)[path[0]], depth + 1, path[1..]);
      }
    }
  }
}
