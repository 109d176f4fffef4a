/**
 * The order in which packages are built: a depth-first walk of the import graph that yields each
 * package after everything it imports, and fails exactly when some import is unresolved or the
 * imports run in a circle.
 */
module TopoOrder {
  import opened Counting

  /** The imports of each package; a target that is not a package is unresolved. */
  type Graph = seq<seq<nat>>

  predicate Edge(g: Graph, a: nat, b: nat) {
    a < |g| && b in g[a]
  }

  predicate Resolved(g: Graph) {
    forall a, i :: 0 <= a < |g| && 0 <= i < |g[a]| ==> g[a][i] < |g|
  }

  /** Packages joined by imports, each to the next. */
  predicate IsPath(g: Graph, path: seq<nat>) {
    forall i :: 0 <= i < |path| - 1 ==> Edge(g, path[i], path[i + 1])
  }

  predicate IsCycle(g: Graph, path: seq<nat>) {
    |path| >= 2 && IsPath(g, path) && path[0] == path[|path| - 1]
  }

  ghost predicate Acyclic(g: Graph) {
    forall path: seq<nat> :: !IsCycle(g, path)
  }

  /** Every package exactly once, and after all its imports. */
  ghost predicate IsOrder(g: Graph, order: seq<nat>) {
    && |order| == |g|
    && (forall p :: 0 <= p < |g| ==> p in order)
    && Ordered(g, order)
  }

  ghost predicate Ordered(g: Graph, order: seq<nat>) {
    && (forall i :: 0 <= i < |order| ==> order[i] < |g|)
    && Distinct(order)
    && (forall i, d :: 0 <= i < |order| && d in g[order[i]] ==> d in order[..i])
  }

  /** The walk's own measure of progress. */
  function Whites(state: seq<nat>): (n: nat)
    ensures n <= |state|
  {
    if state == [] then 0 else (if state[0] == 0 then 1 else 0) + Whites(state[1..])
  }

  lemma {:induction false} WhitesDrop(a: seq<nat>, b: seq<nat>)
    requires |a| == |b| && forall i :: 0 <= i < |a| ==> (b[i] == 0 ==> a[i] == 0)
    ensures Whites(b) <= Whites(a)
    ensures (exists i :: 0 <= i < |a| && a[i] == 0 && b[i] != 0) ==> Whites(b) < Whites(a)
  {
    if a != [] {
      WhitesDrop(a[1..], b[1..]);
      if i :| 0 < i < |a| && a[i] == 0 && b[i] != 0 {
        assert a[1..][i - 1] == 0 && b[1..][i - 1] != 0;
      }
    }
  }

  // ---- an order rules out cycles ------------------------------------------------------------------

  function PositionOf(order: seq<nat>, p: nat): (i: nat)
    requires p in order
    ensures i < |order| && order[i] == p && forall j :: 0 <= j < i ==> order[j] != p
  {
    if order[0] == p then 0 else 1 + PositionOf(order[1..], p)
  }

  lemma EdgeGoesBack(g: Graph, order: seq<nat>, a: nat, b: nat)
    requires IsOrder(g, order) && Edge(g, a, b)
    ensures b in order && PositionOf(order, b) < PositionOf(order, a)
  {
    var i := PositionOf(order, a);
    assert b in order[..i];
    var j :| 0 <= j < i && order[..i][j] == b;
    assert order[j] == b;
  }

  /** Along a path the positions fall. */
  lemma {:induction false} PathGoesBack(g: Graph, order: seq<nat>, path: seq<nat>)
    requires IsOrder(g, order) && IsPath(g, path) && |path| >= 2
    ensures path[0] in order && path[|path| - 1] in order
    ensures PositionOf(order, path[|path| - 1]) < PositionOf(order, path[0])
    decreases |path|
  {
    assert Edge(g, path[0], path[1]);
    EdgeGoesBack(g, order, path[0], path[1]);
    if |path| > 2 {
      var rest := path[1..];
      assert IsPath(g, rest) by {
        forall i | 0 <= i < |rest| - 1
          ensures Edge(g, rest[i], rest[i + 1])
        {
          assert Edge(g, path[i + 1], path[i + 2]);
        }
      }
      PathGoesBack(g, order, rest);
    }
  }

  lemma OrderMeansAcyclic(g: Graph, order: seq<nat>)
    requires IsOrder(g, order)
    ensures Acyclic(g) && Resolved(g)
  {
    forall path: seq<nat> | IsCycle(g, path)
      ensures false
    {
      PathGoesBack(g, order, path);
    }
    forall a, i | 0 <= a < |g| && 0 <= i < |g[a]|
      ensures g[a][i] < |g|
    {
      EdgeGoesBack(g, order, a, g[a][i]);
    }
  }

  // ---- the walk -----------------------------------------------------------------------------------

  /** `marks` is 0 for packages not seen yet, 1 for those on the way from the root to the package
      being visited, and 2 for those already listed. */
  ghost predicate Marked(g: Graph, marks: seq<nat>, listed: seq<nat>, path: seq<nat>) {
    && |marks| == |g| && Ordered(g, listed) && IsPath(g, path)
    && (forall i :: 0 <= i < |path| ==> path[i] < |g|)
    && (forall p :: 0 <= p < |g| ==>
      marks[p] <= 2 && (marks[p] == 2 <==> p in listed) && (marks[p] == 1 <==> p in path))
  }

  /** Nothing is unmarked again, and what is listed stays listed. */
  predicate Advanced(before: seq<nat>, after: seq<nat>) {
    |before| == |after| && forall q :: 0 <= q < |before| ==>
      (after[q] == 0 ==> before[q] == 0) && (before[q] == 2 ==> after[q] == 2)
  }

  class Walk {
    const g: Graph
    const state: array<nat>
    const order: array<nat>
    var orderLen: nat

    ghost predicate Valid(path: seq<nat>)
      reads this, state, order
    {
      state != order && state.Length == |g| == order.Length && orderLen <= |g|
        && Marked(g, state[..], order[..orderLen], path)
    }

    constructor (graph: Graph)
      ensures g == graph && Valid([]) && orderLen == 0 && fresh(state) && fresh(order)
    {
      g := graph;
      state := new nat[|graph|](i => 0);
      order := new nat[|graph|](i => 0);
      orderLen := 0;
    }

    method Visit(p: nat, ghost path: seq<nat>) returns (ok: bool)
      requires Valid(path) && p < |g| && (path != [] ==> Edge(g, path[|path| - 1], p))
      modifies this`orderLen, state, order
      ensures ok ==> Valid(path) && state[p] == 2 && Advanced(old(state[..]), state[..])
      ensures !ok ==> !Resolved(g) || !Acyclic(g)
      decreases Whites(state[..])
    {
      hide Ordered, IsPath, Whites, Acyclic, Resolved;
      if state[p] == 2 {
        return true;
      }
      if state[p] == 1 {
        CycleFound(g, path, p);
        return false;
      }
      ghost var before := state[..];
      Enter(g, before, order[..orderLen], path, p);
      state[p] := 1;
      ghost var path' := path + [p];
      assert state[..] == before[p := 1];
      var i := 0;
      while i < |g[p]|
        invariant 0 <= i <= |g[p]| && Valid(path')
        invariant forall j :: 0 <= j < i ==> g[p][j] < |g| && state[g[p][j]] == 2
        invariant Advanced(before[p := 1], state[..]) && Whites(state[..]) < Whites(before)
      {
        var d := g[p][i];
        if d >= |g| {
          Unresolved(g, p, i);
          return false;
        }
        ghost var mid := state[..];
        ok := Visit(d, path');
        if !ok {
          return;
        }
        WhitesDrop(mid, state[..]);
        i := i + 1;
      }
      ghost var listed := order[..orderLen];
      Leave(g, state[..], listed, path, p);
      ghost var marks := state[..];
      state[p] := 2;
      order[orderLen] := p;
      orderLen := orderLen + 1;
      assert order[..orderLen] == listed + [p] && state[..] == marks[p := 2];
      ok := true;
    }
  }

  lemma Unresolved(g: Graph, p: nat, i: nat)
    requires p < |g| && i < |g[p]| && g[p][i] >= |g|
    ensures !Resolved(g)
  {
  }

  lemma Enter(g: Graph, marks: seq<nat>, listed: seq<nat>, path: seq<nat>, p: nat)
    requires Marked(g, marks, listed, path) && p < |g| && marks[p] == 0 && (path != [] ==> Edge(g, path[|path| - 1], p))
    ensures Marked(g, marks[p := 1], listed, path + [p]) && Whites(marks[p := 1]) < Whites(marks)
  {
    hide Ordered;
    PathGrows(g, path, p);
    WhitesDrop(marks, marks[p := 1]);
  }

  lemma Leave(g: Graph, marks: seq<nat>, listed: seq<nat>, path: seq<nat>, p: nat)
    requires Marked(g, marks, listed, path + [p]) && p < |g| && p !in path
    requires forall j :: 0 <= j < |g[p]| ==> g[p][j] < |g| && marks[g[p][j]] == 2
    ensures |listed| < |g| && Marked(g, marks[p := 2], listed + [p], path)
  {
    assert (path + [p])[|path|] == p && marks[p] == 1;
    RoomLeft(g, listed, p);
    Appended(g, listed, p);
    forall i | 0 <= i < |path| - 1
      ensures Edge(g, path[i], path[i + 1])
    {
      assert Edge(g, (path + [p])[i], (path + [p])[i + 1]);
    }
    forall q | 0 <= q < |g| && q != p
      ensures marks[q] == 1 <==> q in path
    {
      assert q in path + [p] <==> q in path;
    }
    forall i | 0 <= i < |path|
      ensures path[i] < |g|
    {
      assert (path + [p])[i] == path[i];
    }
    assert IsPath(g, path);
    assert p !in listed;
  }

  lemma CycleFound(g: Graph, path: seq<nat>, p: nat)
    requires IsPath(g, path) && p in path && Edge(g, path[|path| - 1], p)
    ensures !Acyclic(g)
  {
    var i :| 0 <= i < |path| && path[i] == p;
    var loop := path[i..] + [p];
    forall j | 0 <= j < |loop| - 1
      ensures Edge(g, loop[j], loop[j + 1])
    {
      if j < |loop| - 2 {
        assert Edge(g, path[i + j], path[i + j + 1]);
      }
    }
    assert IsCycle(g, loop);
  }

  lemma PathGrows(g: Graph, path: seq<nat>, p: nat)
    requires IsPath(g, path) && (path != [] ==> Edge(g, path[|path| - 1], p))
    ensures IsPath(g, path + [p])
  {
    var longer := path + [p];
    forall i | 0 <= i < |longer| - 1
      ensures Edge(g, longer[i], longer[i + 1])
    {
      if i < |path| - 1 {
        assert Edge(g, path[i], path[i + 1]);
      }
    }
  }

  /** A package that is not listed yet still fits. */
  lemma RoomLeft(g: Graph, listed: seq<nat>, p: nat)
    requires Ordered(g, listed) && p < |g| && p !in listed
    ensures |listed| < |g|
  {
    DistinctFit(listed + [p], |g|);
  }

  lemma Appended(g: Graph, listed: seq<nat>, p: nat)
    requires Ordered(g, listed) && p < |g| && p !in listed && forall j :: 0 <= j < |g[p]| ==> g[p][j] in listed
    ensures Ordered(g, listed + [p])
  {
    var longer := listed + [p];
    forall i, d | 0 <= i < |longer| && d in g[longer[i]]
      ensures d in longer[..i]
    {
      if i < |listed| {
        assert longer[..i] == listed[..i];
      } else {
        assert longer[..i] == listed;
      }
    }
  }

  /** Succeeds exactly when all imports resolve and none of them runs in a circle. */
  method BuildPackageTopologicalOrder(g: Graph) returns (order: seq<nat>, ok: bool)
    ensures ok <==> Resolved(g) && Acyclic(g)
    ensures ok ==> IsOrder(g, order)
  {
    var w := new Walk(g);
    var i := 0;
    order := [];
    while i < |g|
      invariant 0 <= i <= |g| && w.g == g && fresh(w) && fresh(w.state) && fresh(w.order) && w.Valid([])
      invariant forall p :: 0 <= p < i ==> w.state[p] == 2
    {
      ok := w.Visit(i, []);
      if !ok {
        return;
      }
      i := i + 1;
    }
    order := w.order[..w.orderLen];
    AllListed(g, order);
    OrderMeansAcyclic(g, order);
    ok := true;
  }

  lemma AllListed(g: Graph, order: seq<nat>)
    requires Ordered(g, order) && forall p :: 0 <= p < |g| ==> p in order
    ensures IsOrder(g, order)
  {
    DistinctFit(order, |g|);
    DistinctCount(order);
    SubsetSize(Below(|g|), Elements(order));
  }
}
