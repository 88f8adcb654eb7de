/**
 * The accessibility tree both packages walk, and the one pre-order traversal
 * every walker in the core is built from.
 *
 * The source represents a node as a dict with optional keys; here a node has a
 * role and a name (an absent key reads as ""), the remaining keys as an
 * attribute map (`level`, `value`, `expanded`, `disabled`, ...), and its children.
 */
module AccessibilityTree {
  import opened Wrappers
  import opened Values

  datatype Node = Node(role: string, name: string, attrs: map<string, Value>, children: seq<Node>)

  /** `node.get(key)` for an attribute key. */
  function Attr(n: Node, key: string): Option<Value> {
    if key in n.attrs then Some(n.attrs[key]) else None
  }

  /** A node reached by the traversal, with the roles of its ancestors from the root down. */
  datatype Visit = Visit(node: Node, ancestors: seq<string>)

  /** Pre-order listing of the subtree at `n`: the node itself, then each child's subtree in order. */
  function Visits(n: Node, ancestors: seq<string>): (r: seq<Visit>)
    ensures |r| >= 1 && r[0] == Visit(n, ancestors)
    decreases n
  {
    [Visit(n, ancestors)] + VisitsSeq(n.children, ancestors + [n.role])
  }

  function VisitsSeq(cs: seq<Node>, ancestors: seq<string>): seq<Visit>
    decreases cs
  {
    if cs == [] then [] else Visits(cs[0], ancestors) + VisitsSeq(cs[1..], ancestors)
  }

  /** Number of nodes in the tree. */
  function NodeCount(n: Node): nat {
    |Visits(n, [])|
  }

  /** Left fold of `step` over a list of visits. */
  function FoldVisits<A>(vs: seq<Visit>, acc: A, step: (A, Visit) -> A): A {
    if vs == [] then acc else FoldVisits(vs[1..], step(acc, vs[0]), step)
  }

  /**
   * The source's recursive `traverse(node)` helper: process the node, then
   * recurse into its children in order, threading the walker's mutable state
   * (`acc`) through the whole walk.
   */
  function Walk<A>(n: Node, ancestors: seq<string>, acc: A, step: (A, Visit) -> A): A
    decreases n
  {
    WalkSeq(n.children, ancestors + [n.role], step(acc, Visit(n, ancestors)), step)
  }

  function WalkSeq<A>(cs: seq<Node>, ancestors: seq<string>, acc: A, step: (A, Visit) -> A): A
    decreases cs
  {
    if cs == [] then acc else WalkSeq(cs[1..], ancestors, Walk(cs[0], ancestors, acc, step), step)
  }

  lemma {:induction false} FoldConcat<A>(xs: seq<Visit>, ys: seq<Visit>, acc: A, step: (A, Visit) -> A)
    ensures FoldVisits(xs + ys, acc, step) == FoldVisits(ys, FoldVisits(xs, acc, step), step)
  {
    if xs == [] {
      assert xs + ys == ys;
    } else {
      assert (xs + ys)[0] == xs[0] && (xs + ys)[1..] == xs[1..] + ys;
      FoldConcat(xs[1..], ys, step(acc, xs[0]), step);
    }
  }

  /** The recursive walk visits the nodes exactly in pre-order. */
  lemma {:induction false} WalkIsFold<A>(n: Node, ancestors: seq<string>, acc: A, step: (A, Visit) -> A)
    ensures Walk(n, ancestors, acc, step) == FoldVisits(Visits(n, ancestors), acc, step)
    decreases n
  {
    var rest := VisitsSeq(n.children, ancestors + [n.role]);
    WalkSeqIsFold(n.children, ancestors + [n.role], step(acc, Visit(n, ancestors)), step);
    assert ([Visit(n, ancestors)] + rest)[1..] == rest;
  }

  lemma {:induction false} WalkSeqIsFold<A>(cs: seq<Node>, ancestors: seq<string>, acc: A, step: (A, Visit) -> A)
    ensures WalkSeq(cs, ancestors, acc, step) == FoldVisits(VisitsSeq(cs, ancestors), acc, step)
    decreases cs
  {
    if cs != [] {
      WalkIsFold(cs[0], ancestors, acc, step);
      WalkSeqIsFold(cs[1..], ancestors, Walk(cs[0], ancestors, acc, step), step);
      FoldConcat(Visits(cs[0], ancestors), VisitsSeq(cs[1..], ancestors), acc, step);
    }
  }

  /** Concatenation of what `emit` yields for each visit, in order. */
  function FlatMap<T>(vs: seq<Visit>, emit: Visit -> seq<T>): seq<T> {
    if vs == [] then [] else emit(vs[0]) + FlatMap(vs[1..], emit)
  }

  /** Number of visits satisfying `p`. */
  function CountWhere(vs: seq<Visit>, p: Visit -> bool): (r: nat)
    ensures r <= |vs|
  {
    if vs == [] then 0 else (if p(vs[0]) then 1 else 0) + CountWhere(vs[1..], p)
  }

  /** A walker that appends `emit(visit)` to a list for every node (`lst.append(...)` inside `traverse`). */
  function Collect<T>(n: Node, emit: Visit -> seq<T>): seq<T> {
    Walk(n, [], [], (acc: seq<T>, v: Visit) => acc + emit(v))
  }

  /** A walker that increments a counter for every node satisfying `p` (`count += 1` inside `traverse`). */
  function Count(n: Node, p: Visit -> bool): nat {
    Walk<nat>(n, [], 0, (c: nat, v: Visit) => if p(v) then c + 1 else c)
  }

  lemma {:induction false} FoldAppendIsFlatMap<T>(vs: seq<Visit>, acc: seq<T>, emit: Visit -> seq<T>)
    ensures FoldVisits(vs, acc, (a: seq<T>, v: Visit) => a + emit(v)) == acc + FlatMap(vs, emit)
  {
    if vs != [] {
      FoldAppendIsFlatMap(vs[1..], acc + emit(vs[0]), emit);
    }
  }

  lemma {:induction false} FoldCountIsCountWhere(vs: seq<Visit>, c: nat, p: Visit -> bool)
    ensures FoldVisits<nat>(vs, c, (c: nat, v: Visit) => if p(v) then c + 1 else c) == c + CountWhere(vs, p)
  {
    if vs != [] {
      FoldCountIsCountWhere(vs[1..], if p(vs[0]) then c + 1 else c, p);
    }
  }

  /** A collecting walker yields, in pre-order, what `emit` yields for each node. */
  lemma CollectIsFlatMap<T>(n: Node, emit: Visit -> seq<T>)
    ensures Collect(n, emit) == FlatMap(Visits(n, []), emit)
  {
    WalkIsFold(n, [], [], (acc: seq<T>, v: Visit) => acc + emit(v));
    FoldAppendIsFlatMap(Visits(n, []), [], emit);
  }

  /** A counting walker counts the nodes satisfying its predicate, so never more than the tree has. */
  lemma CountIsCountWhere(n: Node, p: Visit -> bool)
    ensures Count(n, p) == CountWhere(Visits(n, []), p)
    ensures Count(n, p) <= NodeCount(n)
  {
    WalkIsFold<nat>(n, [], 0, (c: nat, v: Visit) => if p(v) then c + 1 else c);
    FoldCountIsCountWhere(Visits(n, []), 0, p);
  }

  /** An element of a flat-map comes from some visit. */
  lemma {:induction false} FlatMapMember<T>(vs: seq<Visit>, emit: Visit -> seq<T>, x: T)
    requires x in FlatMap(vs, emit)
    ensures exists i :: 0 <= i < |vs| && x in emit(vs[i])
  {
    if x !in emit(vs[0]) {
      FlatMapMember(vs[1..], emit, x);
      var i :| 0 <= i < |vs[1..]| && x in emit(vs[1..][i]);
      assert x in emit(vs[i + 1]);
    }
  }

  /** When `emit` yields exactly one item for the visits satisfying `p` and none otherwise, the flat-map has one item per such visit. */
  lemma {:induction false} FlatMapLength<T>(vs: seq<Visit>, emit: Visit -> seq<T>, p: Visit -> bool)
    requires forall i :: 0 <= i < |vs| ==> |emit(vs[i])| == if p(vs[i]) then 1 else 0
    ensures |FlatMap(vs, emit)| == CountWhere(vs, p)
  {
    if vs != [] {
      FlatMapLength(vs[1..], emit, p);
    }
  }

  /**
   * A walker that appends a node's role whenever `p` holds collects, in pre-order,
   * one role per visit satisfying `p`, and only roles from `roles`.
   */
  lemma CollectRoles(n: Node, emit: Visit -> seq<string>, p: Visit -> bool, roles: seq<string>)
    requires forall v :: emit(v) == if p(v) then [v.node.role] else []
    requires forall v :: p(v) ==> v.node.role in roles
    ensures Collect(n, emit) == FlatMap(Visits(n, []), emit)
    ensures |Collect(n, emit)| == CountWhere(Visits(n, []), p)
    ensures forall x :: x in Collect(n, emit) ==> x in roles
  {
    CollectIsFlatMap(n, emit);
    var vs := Visits(n, []);
    FlatMapLength(vs, emit, p);
    forall x | x in FlatMap(vs, emit)
      ensures x in roles
    {
      FlatMapMember(vs, emit, x);
    }
  }

  /**
   * A walker whose state carries several lists: when one component of the state
   * grows by `emit(visit)` at each step, that component ends up as the flat-map.
   */
  lemma {:induction false} FoldProjection<A, T>(vs: seq<Visit>, acc: A, step: (A, Visit) -> A, proj: A -> seq<T>, emit: Visit -> seq<T>)
    requires forall a, v :: proj(step(a, v)) == proj(a) + emit(v)
    ensures proj(FoldVisits(vs, acc, step)) == proj(acc) + FlatMap(vs, emit)
  {
    if vs != [] {
      FoldProjection(vs[1..], step(acc, vs[0]), step, proj, emit);
    }
  }

  /** The counting analogue of `FoldProjection`. */
  lemma {:induction false} FoldCounter<A>(vs: seq<Visit>, acc: A, step: (A, Visit) -> A, proj: A -> nat, p: Visit -> bool)
    requires forall a, v :: proj(step(a, v)) == proj(a) + if p(v) then 1 else 0
    ensures proj(FoldVisits(vs, acc, step)) == proj(acc) + CountWhere(vs, p)
  {
    if vs != [] {
      FoldCounter(vs[1..], step(acc, vs[0]), step, proj, p);
    }
  }

  /** Whether some visit's node has role `role`. */
  predicate HasRole(vs: seq<Visit>, role: string) {
    vs != [] && (vs[0].node.role == role || HasRole(vs[1..], role))
  }

  /** The last visit whose node has role `role`. */
  function LastWithRole(vs: seq<Visit>, role: string): (r: Option<Visit>)
    ensures r.Some? <==> HasRole(vs, role)
    ensures r.Some? ==> r.value.node.role == role
  {
    if vs == [] then None
    else match LastWithRole(vs[1..], role)
      case Some(v) => Some(v)
      case None => if vs[0].node.role == role then Some(vs[0]) else None
  }
}
