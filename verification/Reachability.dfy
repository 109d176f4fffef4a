/**
 * Which functions are emitted: the worklist that starts from `main` and the exports, the fixpoint
 * loop used for other roots, and that both find the least set closed under calls.
 */
module Reachability {
  import opened Counting
  import opened Words

  /** What each function calls or takes the address of; numbers beyond the last function are ignored. */
  type CallGraph = seq<seq<nat>>

  predicate Calls(g: CallGraph, f: nat, c: nat) {
    f < |g| && c < |g| && c in g[f]
  }

  ghost predicate ClosedOver(g: CallGraph, roots: seq<nat>, s: set<nat>) {
    && (forall i :: 0 <= i < |roots| && roots[i] < |g| ==> roots[i] in s)
    && (forall f: nat, c: nat :: f in s && Calls(g, f, c) ==> c in s)
  }

  /** In every set that contains the roots and is closed under calls. */
  ghost predicate Reached(g: CallGraph, roots: seq<nat>, f: nat) {
    f < |g| && forall s: set<nat> :: ClosedOver(g, roots, s) ==> f in s
  }

  predicate Marked(marks: seq<bool>, f: nat) {
    f < |marks| && marks[f]
  }

  /** The marks are exactly the functions that are reached. */
  ghost predicate MarksReached(g: CallGraph, roots: seq<nat>, marks: seq<bool>) {
    |marks| == |g| && forall f: nat :: Marked(marks, f) <==> Reached(g, roots, f)
  }

  lemma CallIsReached(g: CallGraph, roots: seq<nat>, f: nat, c: nat)
    requires Reached(g, roots, f) && Calls(g, f, c)
    ensures Reached(g, roots, c)
  {
    forall s: set<nat> | ClosedOver(g, roots, s)
      ensures c in s
    {
      assert f in s;
    }
  }

  lemma RootIsReached(g: CallGraph, roots: seq<nat>, i: nat)
    requires i < |roots| && roots[i] < |g|
    ensures Reached(g, roots, roots[i])
  {
  }

  function SetOf(marks: seq<bool>): (s: set<nat>)
    ensures forall f: nat :: f in s <==> Marked(marks, f)
  {
    if marks == [] then {}
    else
      var n := |marks| - 1;
      var s := SetOf(marks[..n]);
      if marks[n] then s + {n} else s
  }

  /** Marks that hold the roots, are closed, and mark nothing unreached, are exactly right. */
  lemma ClosedMarksAreReached(g: CallGraph, roots: seq<nat>, marks: seq<bool>)
    requires |marks| == |g|
    requires forall f: nat :: Marked(marks, f) ==> Reached(g, roots, f)
    requires forall i :: 0 <= i < |roots| && roots[i] < |g| ==> marks[roots[i]]
    requires forall f: nat, c: nat :: Marked(marks, f) && Calls(g, f, c) ==> marks[c]
    ensures MarksReached(g, roots, marks)
  {
    assert ClosedOver(g, roots, SetOf(marks));
  }

  /** More roots reach more, and roots that are reached already add nothing. */
  lemma ReachedFromReached(g: CallGraph, roots: seq<nat>, others: seq<nat>, f: nat)
    requires Reached(g, others, f)
    requires forall i :: 0 <= i < |others| && others[i] < |g| ==> Reached(g, roots, others[i])
    ensures Reached(g, roots, f)
  {
    forall s: set<nat> | ClosedOver(g, roots, s)
      ensures f in s
    {
      assert ClosedOver(g, others, s);
    }
  }

  // ---- the worklist ---------------------------------------------------------------------------

  /** The roots in the order they are queued. */
  function Roots(isMain: seq<bool>, exports: seq<nat>): seq<nat> {
    MainsFrom(isMain, 0) + exports
  }

  function MainsFrom(isMain: seq<bool>, i: nat): seq<nat>
    decreases |isMain| - i
  {
    if i >= |isMain| then [] else (if isMain[i] then [i] else []) + MainsFrom(isMain, i + 1)
  }

  lemma {:induction false} MainsAre(isMain: seq<bool>, i: nat, f: nat)
    ensures f in MainsFrom(isMain, i) <==> i <= f < |isMain| && isMain[f]
    decreases |isMain| - i
  {
    if i < |isMain| {
      MainsAre(isMain, i + 1, f);
    }
  }

  class Worklist {
    const g: CallGraph
    ghost const roots: seq<nat>
    const reachable: array<bool>
    const queue: array<nat>
    var writeIndex: nat

    /** The queue holds every marked function once, and only reached functions. */
    ghost predicate Valid()
      reads this, reachable, queue
    {
      && reachable.Length == queue.Length == |g| && writeIndex <= |g|
      && Queued(g, roots, reachable[..], queue[..writeIndex])
    }

    constructor (graph: CallGraph, ghost from: seq<nat>)
      ensures Valid() && g == graph && roots == from && writeIndex == 0 && fresh(reachable) && fresh(queue)
      ensures forall f :: 0 <= f < |g| ==> !reachable[f]
    {
      g := graph;
      roots := from;
      reachable := new bool[|graph|](i => false);
      queue := new nat[|graph|](i => 0);
      writeIndex := 0;
    }

    /** Marks and queues a function that is not marked yet; there is always room for it. */
    method Enqueue(f: nat)
      requires Valid() && f < |g| && !reachable[f] && Reached(g, roots, f)
      modifies this`writeIndex, reachable, queue
      ensures Valid() && writeIndex == old(writeIndex) + 1 && queue[..writeIndex] == old(queue[..writeIndex]) + [f]
      ensures reachable[..] == old(reachable[..])[f := true]
    {
      ghost var q, marks := queue[..writeIndex], reachable[..];
      RoomInQueue(g, roots, marks, q, f);
      reachable[f] := true;
      queue[writeIndex] := f;
      writeIndex := writeIndex + 1;
      assert queue[..writeIndex] == q + [f] && reachable[..] == marks[f := true];
      QueuedMore(g, roots, marks, q, f);
    }

    /** One pass over a function's instructions. */
    method ScanCallees(f: nat)
      requires Valid() && f < |g| && reachable[f]
      modifies this`writeIndex, reachable, queue
      ensures Valid() && writeIndex >= old(writeIndex)
        && queue[..writeIndex][..old(writeIndex)] == old(queue[..writeIndex])
      ensures forall c: nat :: Calls(g, f, c) ==> reachable[c]
      ensures forall h :: 0 <= h < |g| && old(reachable[h]) ==> reachable[h]
    {
      var pc := 0;
      ghost var start, before := writeIndex, queue[..writeIndex];
      while pc < |g[f]|
        invariant 0 <= pc <= |g[f]| && Valid() && reachable[f]
        invariant writeIndex >= start && queue[..writeIndex][..start] == before
        invariant forall p :: 0 <= p < pc && g[f][p] < |g| ==> reachable[g[f][p]]
        invariant forall h :: 0 <= h < |g| && old(reachable[h]) ==> reachable[h]
      {
        var c := g[f][pc];
        if c < |g| && !reachable[c] {
          assert Marked(reachable[..], f);
          CallIsReached(g, roots, f, c);
          Enqueue(c);
        }
        pc := pc + 1;
      }
    }

    method EnqueueMains(isMain: seq<bool>, ghost exports: seq<nat>)
      requires Valid() && |isMain| == |g| && roots == Roots(isMain, exports) && forall f :: 0 <= f < |g| ==>
        !reachable[f]
      modifies this`writeIndex, reachable, queue
      ensures Valid() && forall f :: 0 <= f < |g| && isMain[f] ==> reachable[f]
    {
      hide Queued, Roots;
      var i := 0;
      while i < |g|
        invariant 0 <= i <= |g| && Valid() && forall f :: 0 <= f < |g| ==> reachable[f] == (f < i && isMain[f])
      {
        if isMain[i] {
          MainIsRoot(isMain, exports, i, g);
          Enqueue(i);
        }
        i := i + 1;
      }
    }

    method EnqueueExports(ghost isMain: seq<bool>, exports: seq<nat>)
      requires Valid() && roots == Roots(isMain, exports)
      modifies this`writeIndex, reachable, queue
      ensures Valid() && forall j :: 0 <= j < |exports| && exports[j] < |g| ==> reachable[exports[j]]
      ensures forall h :: 0 <= h < |g| && old(reachable[h]) ==> reachable[h]
    {
      hide Queued, Roots;
      var i := 0;
      while i < |exports|
        invariant 0 <= i <= |exports| && Valid()
        invariant forall j :: 0 <= j < i && exports[j] < |g| ==> reachable[exports[j]]
        invariant forall h :: 0 <= h < |g| && old(reachable[h]) ==> reachable[h]
      {
        var f := exports[i];
        if f < |g| && !reachable[f] {
          ExportIsRoot(isMain, exports, i, g);
          Enqueue(f);
        }
        i := i + 1;
      }
    }

    /** Scans queued functions, in order, until nothing new is queued. */
    method Drain()
      requires Valid()
      modifies this`writeIndex, reachable, queue
      ensures Valid() && forall j, c: nat :: 0 <= j < writeIndex && Calls(g, queue[j], c) ==> reachable[c]
      ensures forall h :: 0 <= h < |g| && old(reachable[h]) ==> reachable[h]
    {
      hide Queued;
      var readIndex := 0;
      while readIndex < writeIndex
        invariant 0 <= readIndex <= writeIndex && Valid()
        invariant forall j, c: nat :: 0 <= j < readIndex && Calls(g, queue[j], c) ==> reachable[c]
        invariant forall h :: 0 <= h < |g| && old(reachable[h]) ==> reachable[h]
        decreases |g| - readIndex
      {
        var f := queue[readIndex];
        InQueue(g, roots, reachable[..], queue[..writeIndex], readIndex);
        ghost var q, n := queue[..writeIndex], writeIndex;
        ScanCallees(f);
        assert forall j :: 0 <= j < n ==> queue[j] == queue[..writeIndex][..n][j] == q[j];
        readIndex := readIndex + 1;
      }
    }
  }

  lemma InQueue(g: CallGraph, roots: seq<nat>, marks: seq<bool>, q: seq<nat>, i: nat)
    requires Queued(g, roots, marks, q) && i < |q|
    ensures q[i] < |g| && marks[q[i]]
  {
    assert Marked(marks, q[i]);
  }

  ghost predicate Queued(g: CallGraph, roots: seq<nat>, marks: seq<bool>, q: seq<nat>) {
    && |marks| == |g|
    && (forall i :: 0 <= i < |q| ==> Marked(marks, q[i]))
    && Distinct(q)
    && (forall f: nat :: Marked(marks, f) ==> f in q && Reached(g, roots, f))
  }

  lemma RoomInQueue(g: CallGraph, roots: seq<nat>, marks: seq<bool>, q: seq<nat>, f: nat)
    requires Queued(g, roots, marks, q) && f < |g| && !marks[f]
    ensures |q| < |g|
  {
    DistinctFit(q + [f], |g|);
  }

  lemma QueuedMore(g: CallGraph, roots: seq<nat>, marks: seq<bool>, q: seq<nat>, f: nat)
    requires Queued(g, roots, marks, q) && f < |g| && !marks[f] && Reached(g, roots, f)
    ensures Queued(g, roots, marks[f := true], q + [f])
  {
    forall h: nat | Marked(marks[f := true], h)
      ensures h in q + [f] && Reached(g, roots, h)
    {
      if h != f {
        assert Marked(marks, h);
      }
    }
  }

  /** Breadth first from the mains and the exports; the queue never outgrows the functions. */
  method MarkFromRoots(g: CallGraph, isMain: seq<bool>, exports: seq<nat>) returns (reachable: array<bool>)
    requires |isMain| == |g|
    ensures fresh(reachable) && MarksReached(g, Roots(isMain, exports), reachable[..])
  {
    hide Queued, Roots, MarksReached;
    var w := new Worklist(g, Roots(isMain, exports));
    w.EnqueueMains(isMain, exports);
    w.EnqueueExports(isMain, exports);
    w.Drain();
    reachable := w.reachable;
    AllScanned(g, isMain, exports, reachable[..], w.queue[..w.writeIndex]);
  }

  /** What a function does that may end in the platform's panic function: it asserts, allocates with an
      allocator it names, or with the root context's; and whether it gets that allocator. */
  datatype Uses = Uses(asserts: bool, allocates: bool, allocatesFromRoot: bool, getsRootAllocator: bool)

  predicate MayPanic(u: Uses, rootAllocator: bool) {
    u.asserts || u.allocates || (u.allocatesFromRoot && rootAllocator)
  }

  /** Allocations from the root context can fail only if some function that is reached sets it up. */
  ghost predicate RootAllocatorReached(g: CallGraph, roots: seq<nat>, uses: seq<Uses>) {
    exists f: nat :: f < |uses| && uses[f].getsRootAllocator && Reached(g, roots, f)
  }

  ghost predicate PanicReached(g: CallGraph, roots: seq<nat>, uses: seq<Uses>) {
    exists f: nat :: f < |uses| && MayPanic(uses[f], RootAllocatorReached(g, roots, uses)) && Reached(g, roots, f)
  }

  /** What is kept: what is reached, and the platform's panic functions if something may panic. */
  ghost predicate MarksKept(g: CallGraph, roots: seq<nat>, uses: seq<Uses>, panicImports: seq<nat>, marks: seq<bool>) {
    |marks| == |g| && forall f: nat :: f < |g| ==>
      (marks[f] <==> Reached(g, roots, f) || (f in panicImports && PanicReached(g, roots, uses)))
  }

  method NeedsRootAllocator(uses: seq<Uses>, reachable: array<bool>) returns (found: bool)
    requires reachable.Length == |uses|
    ensures found <==> exists f: nat :: f < |uses| && uses[f].getsRootAllocator && reachable[f]
  {
    var f := 0;
    while f < |uses|
      invariant 0 <= f <= |uses| && forall h: nat :: h < f ==> !(uses[h].getsRootAllocator && reachable[h])
    {
      if reachable[f] && uses[f].getsRootAllocator {
        return true;
      }
      f := f + 1;
    }
    found := false;
  }

  method HasPanic(uses: seq<Uses>, rootAllocator: bool, reachable: array<bool>) returns (found: bool)
    requires reachable.Length == |uses|
    ensures found <==> exists f: nat :: f < |uses| && MayPanic(uses[f], rootAllocator) && reachable[f]
  {
    var f := 0;
    while f < |uses|
      invariant 0 <= f <= |uses| && forall h: nat :: h < f ==> !(MayPanic(uses[h], rootAllocator) && reachable[h])
    {
      if reachable[f] && MayPanic(uses[f], rootAllocator) {
        return true;
      }
      f := f + 1;
    }
    found := false;
  }

  /** The imports that are marked as the platform's panic function have no code of their own, so what
      they call need not be followed. */
  method BuildReachableFunctionSet(g: CallGraph, isMain: seq<bool>, exports: seq<nat>, uses: seq<Uses>,
      panicImports: seq<nat>)
    returns (reachable: array<bool>)
    requires |isMain| == |g| == |uses|
    ensures fresh(reachable)
    ensures MarksKept(g, Roots(isMain, exports), uses, panicImports, reachable[..])
  {
    hide Roots, Reached, MayPanic;
    ghost var roots := Roots(isMain, exports);
    reachable := MarkFromRoots(g, isMain, exports);
    ghost var marks := reachable[..];
    assert forall f: nat :: f < |g| ==> (marks[f] <==> Marked(marks, f));
    var rootAllocator := NeedsRootAllocator(uses, reachable);
    var panics := HasPanic(uses, rootAllocator, reachable);
    if panics {
      var i := 0;
      while i < |panicImports|
        invariant 0 <= i <= |panicImports|
        invariant forall f: nat :: f < |g| ==> (reachable[f] <==> marks[f] || f in panicImports[..i])
      {
        if panicImports[i] < |g| {
          reachable[panicImports[i]] := true;
        }
        i := i + 1;
      }
      assert panicImports[..i] == panicImports;
    }
    assert panics <==> PanicReached(g, roots, uses);
  }

  lemma MainIsRoot(isMain: seq<bool>, exports: seq<nat>, i: nat, g: CallGraph)
    requires i < |isMain| == |g| && isMain[i]
    ensures Reached(g, Roots(isMain, exports), i)
  {
    MainsAre(isMain, 0, i);
    var j :| 0 <= j < |MainsFrom(isMain, 0)| && MainsFrom(isMain, 0)[j] == i;
    RootIsReached(g, Roots(isMain, exports), j);
  }

  lemma ExportIsRoot(isMain: seq<bool>, exports: seq<nat>, i: nat, g: CallGraph)
    requires i < |exports| && exports[i] < |g|
    ensures Reached(g, Roots(isMain, exports), exports[i])
  {
    var n := |MainsFrom(isMain, 0)|;
    assert Roots(isMain, exports)[n + i] == exports[i];
    RootIsReached(g, Roots(isMain, exports), n + i);
  }

  lemma AllScanned(g: CallGraph, isMain: seq<bool>, exports: seq<nat>, marks: seq<bool>, q: seq<nat>)
    requires |isMain| == |g| && Queued(g, Roots(isMain, exports), marks, q)
    requires forall f :: 0 <= f < |g| && isMain[f] ==> marks[f]
    requires forall j :: 0 <= j < |exports| && exports[j] < |g| ==> marks[exports[j]]
    requires forall j, c: nat :: 0 <= j < |q| && Calls(g, q[j], c) ==> marks[c]
    ensures MarksReached(g, Roots(isMain, exports), marks)
  {
    var roots := Roots(isMain, exports);
    forall i | 0 <= i < |roots| && roots[i] < |g|
      ensures marks[roots[i]]
    {
      var n := |MainsFrom(isMain, 0)|;
      if i < n {
        MainsAre(isMain, 0, roots[i]);
        assert roots[i] in MainsFrom(isMain, 0);
      } else {
        assert roots[i] == exports[i - n];
      }
    }
    forall f: nat, c: nat | Marked(marks, f) && Calls(g, f, c)
      ensures marks[c]
    {
      var j :| 0 <= j < |q| && q[j] == f;
    }
    ClosedMarksAreReached(g, roots, marks);
  }

  // ---- the fixpoint loop ------------------------------------------------------------------------

  function Unmarked(marks: seq<bool>): (n: nat)
    ensures n <= |marks|
  {
    if marks == [] then 0 else (if marks[0] then 0 else 1) + Unmarked(marks[1..])
  }

  lemma {:induction false} UnmarkedDrops(a: seq<bool>, b: seq<bool>)
    requires |a| == |b| && forall i :: 0 <= i < |a| && a[i] ==> b[i]
    ensures Unmarked(b) <= Unmarked(a) && (a != b ==> Unmarked(b) < Unmarked(a))
  {
    if a != [] {
      UnmarkedDrops(a[1..], b[1..]);
      if a[1..] == b[1..] && a != b {
        assert a[0] != b[0] by {
          assert a == [a[0]] + a[1..] && b == [b[0]] + b[1..];
        }
      }
    }
  }

  /** Only reached functions are marked. */
  ghost predicate OnlyReached(g: CallGraph, roots: seq<nat>, marks: seq<bool>) {
    |marks| == |g| && forall f: nat :: Marked(marks, f) ==> Reached(g, roots, f)
  }

  ghost predicate CalleesMarked(g: CallGraph, marks: seq<bool>, f: nat) {
    forall c: nat :: Calls(g, f, c) ==> Marked(marks, c)
  }

  /** Marks what `f` calls, and says whether anything was new. */
  method MarkCallees(g: CallGraph, ghost roots: seq<nat>, reachable: array<bool>, f: nat) returns (changed: bool)
    requires reachable.Length == |g| && f < |g| && reachable[f] && OnlyReached(g, roots, reachable[..])
    modifies reachable
    ensures OnlyReached(g, roots, reachable[..]) && CalleesMarked(g, reachable[..], f)
    ensures forall h :: 0 <= h < |g| && old(reachable[h]) ==> reachable[h]
    ensures !changed ==> reachable[..] == old(reachable[..])
    ensures changed ==> reachable[..] != old(reachable[..])
  {
    changed := false;
    var pc := 0;
    while pc < |g[f]|
      invariant 0 <= pc <= |g[f]| && reachable[f] && OnlyReached(g, roots, reachable[..])
      invariant forall p :: 0 <= p < pc && g[f][p] < |g| ==> reachable[g[f][p]]
      invariant forall h :: 0 <= h < |g| && old(reachable[h]) ==> reachable[h]
      invariant !changed ==> reachable[..] == old(reachable[..])
      invariant changed ==> exists h :: 0 <= h < |g| && reachable[h] && !old(reachable[h])
    {
      var c := g[f][pc];
      if c < |g| && !reachable[c] {
        assert Marked(reachable[..], f);
        CallIsReached(g, roots, f, c);
        ghost var marks := reachable[..];
        assert !old(reachable[c]);
        reachable[c] := true;
        changed := true;
        assert forall h: nat :: Marked(reachable[..], h) ==> h == c || Marked(marks, h);
      }
      pc := pc + 1;
    }
  }

  /** One sweep over all functions. */
  method Sweep(g: CallGraph, ghost roots: seq<nat>, reachable: array<bool>) returns (changed: bool)
    requires reachable.Length == |g| && OnlyReached(g, roots, reachable[..])
    modifies reachable
    ensures OnlyReached(g, roots, reachable[..])
    ensures forall h :: 0 <= h < |g| && old(reachable[h]) ==> reachable[h]
    ensures changed ==> reachable[..] != old(reachable[..])
    ensures !changed ==> reachable[..] == old(reachable[..]) && forall f: nat :: Marked(reachable[..], f) ==>
      CalleesMarked(g, reachable[..], f)
  {
    hide OnlyReached, CalleesMarked;
    changed := false;
    var f := 0;
    while f < |g|
      invariant 0 <= f <= |g| && OnlyReached(g, roots, reachable[..])
      invariant forall h :: 0 <= h < |g| && old(reachable[h]) ==> reachable[h]
      invariant !changed ==> reachable[..] == old(reachable[..]) && forall h: nat ::
        h < f && Marked(reachable[..], h) ==> CalleesMarked(g, reachable[..], h)
      invariant changed ==> exists h :: 0 <= h < |g| && reachable[h] && !old(reachable[h])
    {
      if reachable[f] {
        ghost var marks := reachable[..];
        var more := MarkCallees(g, roots, reachable, f);
        if more {
          Differ(marks, reachable[..]);
        }
        changed := changed || more;
      }
      f := f + 1;
    }
  }

  lemma Differ(a: seq<bool>, b: seq<bool>)
    requires |a| == |b| && a != b && forall h :: 0 <= h < |a| && a[h] ==> b[h]
    ensures exists h :: 0 <= h < |a| && b[h] && !a[h]
  {
    if forall h :: 0 <= h < |a| ==> a[h] == b[h] {
      assert false;
    }
  }

  /** Adding one root to marks that are right for other roots makes them right for all of them. */
  method MarkReachableClosure(g: CallGraph, ghost roots: seq<nat>, reachable: array<bool>, root: nat)
    requires reachable.Length == |g| && MarksReached(g, roots, reachable[..])
    modifies reachable
    ensures MarksReached(g, roots + [root], reachable[..])
  {
    ghost var all := roots + [root];
    OldAreReached(g, roots, root, reachable[..]);
    if root >= |g| {
      InvalidRoot(g, roots, root, reachable[..]);
      return;
    }
    ghost var before := reachable[..];
    RootIsReached(g, all, |roots|);
    reachable[root] := true;
    assert reachable[..] == before[root := true];
    assert forall f: nat :: Marked(reachable[..], f) ==> f == root || Marked(before, f);
    var changed := true;
    while changed
      invariant OnlyReached(g, all, reachable[..]) && reachable[root]
      invariant forall h :: 0 <= h < |g| && before[h] ==> reachable[h]
      invariant !changed ==> forall f: nat :: Marked(reachable[..], f) ==> CalleesMarked(g, reachable[..], f)
      decreases Unmarked(reachable[..]), changed
    {
      ghost var marks := reachable[..];
      changed := Sweep(g, all, reachable);
      UnmarkedDrops(marks, reachable[..]);
    }
    RootsMarked(g, roots, root, before, reachable[..]);
  }

  lemma OldAreReached(g: CallGraph, roots: seq<nat>, root: nat, marks: seq<bool>)
    requires MarksReached(g, roots, marks)
    ensures OnlyReached(g, roots + [root], marks)
  {
    var all := roots + [root];
    forall f: nat | Marked(marks, f)
      ensures Reached(g, all, f)
    {
      forall i | 0 <= i < |roots| && roots[i] < |g|
        ensures Reached(g, all, roots[i])
      {
        assert all[i] == roots[i];
        RootIsReached(g, all, i);
      }
      ReachedFromReached(g, all, roots, f);
    }
  }

  lemma InvalidRoot(g: CallGraph, roots: seq<nat>, root: nat, marks: seq<bool>)
    requires MarksReached(g, roots, marks) && root >= |g| && OnlyReached(g, roots + [root], marks)
    ensures MarksReached(g, roots + [root], marks)
  {
    var all := roots + [root];
    forall f: nat | Reached(g, all, f)
      ensures Marked(marks, f)
    {
      forall i | 0 <= i < |all| && all[i] < |g|
        ensures Reached(g, roots, all[i])
      {
        RootIsReached(g, roots, i);
      }
      ReachedFromReached(g, roots, all, f);
    }
  }

  lemma RootsMarked(g: CallGraph, roots: seq<nat>, root: nat, before: seq<bool>, marks: seq<bool>)
    requires MarksReached(g, roots, before) && |marks| == |g| && OnlyReached(g, roots + [root], marks)
    requires (root < |g| ==> marks[root]) && forall h :: 0 <= h < |g| && before[h] ==> marks[h]
    requires forall f: nat :: Marked(marks, f) ==> CalleesMarked(g, marks, f)
    ensures MarksReached(g, roots + [root], marks)
  {
    var all := roots + [root];
    forall i | 0 <= i < |all| && all[i] < |g|
      ensures marks[all[i]]
    {
      if i < |roots| {
        RootIsReached(g, roots, i);
        assert Marked(before, roots[i]);
      }
    }
    forall f: nat, c: nat | Marked(marks, f) && Calls(g, f, c)
      ensures marks[c]
    {
      assert CalleesMarked(g, marks, f) && Marked(marks, c);
    }
    ClosedMarksAreReached(g, all, marks);
  }

  /** The worklist and the fixpoint loop, root by root, mark the same functions. */
  method ClosureOfAllRoots(g: CallGraph, roots: seq<nat>) returns (reachable: array<bool>)
    ensures fresh(reachable) && MarksReached(g, roots, reachable[..])
  {
    reachable := new bool[|g|](i => false);
    NoRoots(g, reachable[..]);
    var i := 0;
    assert roots[..0] == [];
    while i < |roots|
      invariant 0 <= i <= |roots| && reachable.Length == |g| && fresh(reachable)
        && MarksReached(g, roots[..i], reachable[..])
    {
      MarkReachableClosure(g, roots[..i], reachable, roots[i]);
      assert roots[..i + 1] == roots[..i] + [roots[i]];
      i := i + 1;
    }
    assert roots[..i] == roots;
  }

  lemma NoRoots(g: CallGraph, marks: seq<bool>)
    requires |marks| == |g| && forall f :: 0 <= f < |g| ==> !marks[f]
    ensures MarksReached(g, [], marks)
  {
    assert ClosedOver(g, [], {});
  }

  lemma MarksAreUnique(g: CallGraph, roots: seq<nat>, a: seq<bool>, b: seq<bool>)
    requires MarksReached(g, roots, a) && MarksReached(g, roots, b)
    ensures a == b
  {
    forall f: nat | f < |g|
      ensures a[f] == b[f]
    {
      assert Marked(a, f) <==> Marked(b, f);
    }
  }
}
