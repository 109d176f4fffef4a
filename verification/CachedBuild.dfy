/** The rebuild loop over the cache directory, and what a successful build guarantees. */
module CachedBuild {
  import opened Words
  import opened Counting
  import opened TopoOrder
  import opened BuildCache

  /** Every object is there, was made by the present toolchain, and is newer than what it is made from. */
  ghost predicate AllUpToDate(s: Store) {
    |s.objects| == |s.sources| && forall p :: 0 <= p < |s.sources| ==> UpToDate(s, p)
  }

  ghost predicate AllCorrect(s: Store, order: seq<nat>) {
    IsOrder(ImportsOf(s.sources), order) && forall p :: 0 <= p < |s.sources| ==> Correct(s, order, p)
  }

  /** No package's object is older than a source that the package imports, directly or not. */
  lemma {:induction false} NoNewerSource(s: Store, path: seq<nat>)
    requires AllUpToDate(s) && |path| > 0 && path[0] < |s.sources| && IsPath(ImportsOf(s.sources), path)
    ensures path[|path| - 1] < |s.sources|
    ensures s.objects[path[0]].Some? && s.sources[path[|path| - 1]].mtime <= s.objects[path[0]].value.mtime
    decreases |path|
  {
    assert UpToDate(s, path[0]);
    if |path| > 1 {
      assert Edge(ImportsOf(s.sources), path[0], path[1]);
      var j :| 0 <= j < |s.sources[path[0]].imports| && s.sources[path[0]].imports[j] == path[1];
      assert ImportOlder(s, path[0], path[1]);
      var rest := path[1..];
      forall i | 0 <= i < |rest| - 1
        ensures Edge(ImportsOf(s.sources), rest[i], rest[i + 1])
      {
        assert Edge(ImportsOf(s.sources), path[i + 1], path[i + 2]);
      }
      NoNewerSource(s, rest);
    }
  }

  /** The packages of `order` before position `i` are up to date and clean. */
  ghost predicate Done(s: Store, order: seq<nat>, i: nat)
    requires IsOrder(ImportsOf(s.sources), order) && i <= |order|
  {
    |s.objects| == |s.sources| && forall j :: 0 <= j < i ==> Correct(s, order, order[j]) && UpToDate(s, order[j])
  }

  lemma ImportsAreDone(s: Store, order: seq<nat>, i: nat)
    requires IsOrder(ImportsOf(s.sources), order) && i < |order| && Done(s, order, i)
    ensures ImportsCorrect(s, order, order[i])
  {
    forall j | 0 <= j < |s.sources[order[i]].imports|
      ensures Correct(s, order, s.sources[order[i]].imports[j])
    {
      var d := s.sources[order[i]].imports[j];
      assert d in ImportsOf(s.sources)[order[i]];
      assert d in order[..i];
      var m :| 0 <= m < i && order[..i][m] == d;
      assert order[m] == d;
    }
  }

  /** Rebuilding a package does not disturb the packages before it. */
  lemma DoneAfterEmit(s: Store, order: seq<nat>, i: nat)
    requires Consistent(s) && IsOrder(ImportsOf(s.sources), order) && i < |order| && Done(s, order, i)
    ensures var t := Emit(s, order[i], Clean(s.tool, s.sources, order, order[i]));
      Consistent(t) && Done(t, order, i + 1)
  {
    var p := order[i];
    var t := Emit(s, p, Clean(s.tool, s.sources, order, p));
    ImportsAreDone(s, order, i);
    EmitKeeps(s, order, p);
    forall j | 0 <= j < i
      ensures Correct(t, order, order[j]) && UpToDate(t, order[j])
    {
      assert Correct(s, order, order[j]) && UpToDate(s, order[j]);
      forall m | 0 <= m < |s.sources[order[j]].imports|
        ensures ImportOlder(t, order[j], s.sources[order[j]].imports[m])
      {
        var d := s.sources[order[j]].imports[m];
        assert ImportOlder(s, order[j], d);
        assert d in ImportsOf(s.sources)[order[j]];
        assert d in order[..j];
        var n :| 0 <= n < j && order[..j][n] == d;
        assert order[n] == d && d != p;
      }
    }
  }

  lemma DoneAfterSkip(s: Store, order: seq<nat>, i: nat)
    requires Consistent(s) && IsOrder(ImportsOf(s.sources), order) && i < |order| && Done(s, order, i)
      && UpToDate(s, order[i])
    ensures Done(s, order, i + 1)
  {
    ImportsAreDone(s, order, i);
    UpToDateIsClean(s, order, order[i]);
  }

  lemma AllDone(s: Store, order: seq<nat>)
    requires IsOrder(ImportsOf(s.sources), order) && Done(s, order, |order|)
    ensures AllCorrect(s, order) && AllUpToDate(s)
  {
    forall p | 0 <= p < |s.sources|
      ensures Correct(s, order, p) && UpToDate(s, p)
    {
      var i := PositionOf(order, p);
      assert order[i] == p;
    }
  }

  // ---- edits that a whole build misses ----------------------------------------------------------------

  /** The package, or something it imports, however far, is `d`. */
  ghost predicate Reaches(g: Graph, q: nat, d: nat) {
    exists path: seq<nat> :: Leads(g, path, q, d)
  }

  ghost predicate Leads(g: Graph, path: seq<nat>, q: nat, d: nat) {
    path != [] && IsPath(g, path) && path[0] == q && path[|path| - 1] == d
  }

  lemma ReachesItself(g: Graph, d: nat)
    ensures Reaches(g, d, d)
  {
    assert Leads(g, [d], d, d);
  }

  lemma ReachesStep(g: Graph, q: nat, e: nat, d: nat)
    requires Edge(g, q, e) && Reaches(g, e, d)
    ensures Reaches(g, q, d)
  {
    var path :| Leads(g, path, e, d);
    var longer := [q] + path;
    forall i | 0 <= i < |longer| - 1
      ensures Edge(g, longer[i], longer[i + 1])
    {
      if i > 0 {
        assert Edge(g, path[i - 1], path[i]);
      }
    }
    assert Leads(g, longer, q, d);
  }

  /** What differs in nothing but `d` has the same clean objects except where `d` is reached. */
  lemma {:induction false} CleanElsewhere(tool: int, a: seq<Source>, b: seq<Source>, before: seq<nat>, after: seq<nat>,
      d: nat, q: nat)
    requires IsOrder(ImportsOf(a), before) && IsOrder(ImportsOf(b), after) && |a| == |b| && q < |b|
    requires forall r :: 0 <= r < |b| && r != d ==> a[r] == b[r]
    requires !Reaches(ImportsOf(b), q, d)
    ensures Clean(tool, a, before, q) == Clean(tool, b, after, q)
    decreases PositionOf(after, q)
  {
    var g := ImportsOf(b);
    ReachesItself(g, d);
    var n := |b[q].imports|;
    var x, y := CleanAll(tool, a, before, q, n), CleanAll(tool, b, after, q, n);
    forall j | 0 <= j < n
      ensures x[j] == y[j]
    {
      var e := b[q].imports[j];
      CleanAllAt(tool, a, before, q, n, j);
      CleanAllAt(tool, b, after, q, n, j);
      EdgeGoesBack(g, after, q, e);
      if Reaches(g, e, d) {
        ReachesStep(g, q, e, d);
      }
      CleanElsewhere(tool, a, b, before, after, d, e);
    }
    assert x == y;
  }

  lemma {:induction false} CleanBehind(tool: int, a: seq<Source>, b: seq<Source>, before: seq<nat>, after: seq<nat>,
      d: nat, path: seq<nat>)
    requires IsOrder(ImportsOf(a), before) && IsOrder(ImportsOf(b), after) && |a| == |b| && d < |b|
    requires forall r :: 0 <= r < |b| && r != d ==> a[r] == b[r]
    requires a[d].imports != b[d].imports || a[d].body != b[d].body
    requires path != [] && path[0] < |b| && Leads(ImportsOf(b), path, path[0], d)
    ensures Clean(tool, a, before, path[0]) != Clean(tool, b, after, path[0])
    decreases |path|
  {
    var q := path[0];
    if q != d {
      var e := path[1];
      var rest := path[1..];
      assert Edge(ImportsOf(b), path[0], path[1]);
      var j :| 0 <= j < |b[q].imports| && b[q].imports[j] == e;
      forall i | 0 <= i < |rest| - 1
        ensures Edge(ImportsOf(b), rest[i], rest[i + 1])
      {
        assert Edge(ImportsOf(b), path[i + 1], path[i + 2]);
      }
      CleanAllAt(tool, a, before, q, |b[q].imports|, j);
      CleanAllAt(tool, b, after, q, |b[q].imports|, j);
      CleanBehind(tool, a, b, before, after, d, rest);
    }
  }

  /** From a build in which all is clean, an edit with the stamp `m` passes every check, in the package
      and in all that import it, exactly when `m` is no later than the object's stamp and what is
      imported now has no newer object. The stale objects are those of the packages that reach it. */
  lemma MissedEditExactly(s: Store, order: seq<nat>, d: nat, imports: seq<nat>, body: int, m: nat, after: seq<nat>)
    requires AllUpToDate(s) && AllCorrect(s, order) && d < |s.sources| && Changes(s, d, imports, body)
    requires IsOrder(ImportsOf(StampedEdit(s, d, imports, body, m).sources), after)
    ensures var t := StampedEdit(s, d, imports, body, m);
      && UpToDate(s, d) && (AllUpToDate(t) <==>
          m <= s.objects[d].value.mtime && forall j :: 0 <= j < |imports| ==> ImportOlder(s, d, imports[j]))
      && (forall q :: 0 <= q < |t.sources| && q != d ==> UpToDate(t, q))
      && (forall q :: 0 <= q < |t.sources| ==> (Correct(t, after, q) <==> !Reaches(ImportsOf(t.sources), q, d)))
  {
    var t := StampedEdit(s, d, imports, body, m);
    var g := ImportsOf(t.sources);
    EditNoticedExactly(s, order, d, imports, body, m, after);
    forall q | 0 <= q < |t.sources| && q != d
      ensures UpToDate(t, q)
    {
      assert UpToDate(s, q);
      forall j | 0 <= j < |t.sources[q].imports|
        ensures ImportOlder(t, q, t.sources[q].imports[j])
      {
        assert ImportOlder(s, q, s.sources[q].imports[j]);
      }
    }
    forall q | 0 <= q < |t.sources|
      ensures Correct(t, after, q) <==> !Reaches(g, q, d)
    {
      assert Correct(s, order, q);
      if Reaches(g, q, d) {
        var path :| Leads(g, path, q, d);
        CleanBehind(s.tool, s.sources, t.sources, order, after, d, path);
      } else {
        CleanElsewhere(s.tool, s.sources, t.sources, order, after, d, q);
      }
    }
  }

  // ---- which packages a build compiles -------------------------------------------------------------------

  /** The package, or something it imports, however far, is not up to date. */
  ghost predicate Stale(s: Store, p: nat)
    requires |s.objects| == |s.sources|
  {
    exists q: nat :: q < |s.sources| && Reaches(ImportsOf(s.sources), p, q) && !UpToDate(s, q)
  }

  /** How many of the packages are stale. */
  ghost function StaleCount(s: Store, order: seq<nat>): nat
    requires |s.objects| == |s.sources| && forall i :: 0 <= i < |order| ==> order[i] < |s.sources|
  {
    if order == [] then 0
    else StaleCount(s, order[..|order| - 1]) + if Stale(s, order[|order| - 1]) then 1 else 0
  }

  /** A package is stale because of itself or of one of its imports. */
  lemma StaleBecause(s: Store, p: nat)
    requires |s.objects| == |s.sources| && p < |s.sources| && Resolved(ImportsOf(s.sources))
    ensures Stale(s, p) <==>
      !UpToDate(s, p) || exists j :: 0 <= j < |s.sources[p].imports| && Stale(s, s.sources[p].imports[j])
  {
    var g := ImportsOf(s.sources);
    if !UpToDate(s, p) {
      ReachesItself(g, p);
    }
    if exists j :: 0 <= j < |s.sources[p].imports| && Stale(s, s.sources[p].imports[j]) {
      var j :| 0 <= j < |s.sources[p].imports| && Stale(s, s.sources[p].imports[j]);
      var q: nat :| q < |s.sources| && Reaches(g, s.sources[p].imports[j], q) && !UpToDate(s, q);
      ReachesStep(g, p, s.sources[p].imports[j], q);
    }
    if Stale(s, p) && UpToDate(s, p) {
      var q: nat :| q < |s.sources| && Reaches(g, p, q) && !UpToDate(s, q);
      var path :| Leads(g, path, p, q);
      var j := FirstStep(s, path, q);
      assert Stale(s, s.sources[p].imports[j]);
    }
  }

  /** A path that is not over begins with an import. */
  lemma FirstStep(s: Store, path: seq<nat>, q: nat) returns (j: nat)
    requires path != [] && Leads(ImportsOf(s.sources), path, path[0], q) && path[0] < |s.sources| && path[0] != q
    ensures j < |s.sources[path[0]].imports| && Reaches(ImportsOf(s.sources), s.sources[path[0]].imports[j], q)
  {
    var g := ImportsOf(s.sources);
    var rest := path[1..];
    assert Edge(g, path[0], path[1]);
    j :| 0 <= j < |s.sources[path[0]].imports| && s.sources[path[0]].imports[j] == path[1];
    forall i | 0 <= i < |rest| - 1
      ensures Edge(g, rest[i], rest[i + 1])
    {
      assert Edge(g, path[i + 1], path[i + 2]);
    }
    assert Leads(g, rest, path[1], q);
  }

  /** After the first `i` packages of the order: the stale ones have new objects, later than all that were
      there before, and all other objects are as they were. */
  ghost predicate RebuiltSoFar(was: Store, s: Store, order: seq<nat>, i: nat)
    requires i <= |order| && |was.objects| == |was.sources|
      && forall j :: 0 <= j < |order| ==> order[j] < |was.sources|
  {
    && s.sources == was.sources && s.tool == was.tool && |s.objects| == |was.objects| && was.clock <= s.clock
    && (forall j :: 0 <= j < i ==> if Stale(was, order[j]) then New(was, s, order[j]) else Same(was, s, order[j]))
    && (forall j :: i <= j < |order| ==> Same(was, s, order[j]))
  }

  ghost predicate New(was: Store, s: Store, p: nat) {
    p < |s.objects| && s.objects[p].Some? && was.clock < s.objects[p].value.mtime
  }

  ghost predicate Same(was: Store, s: Store, p: nat) {
    p < |s.objects| && p < |was.objects| && s.objects[p] == was.objects[p]
  }

  /** When its imports have been looked at, a package fails the check exactly when it was stale. */
  lemma StaleSeen(was: Store, s: Store, order: seq<nat>, i: nat)
    requires InClock(was) && IsOrder(ImportsOf(was.sources), order) && Resolved(ImportsOf(was.sources))
    requires i < |order| && RebuiltSoFar(was, s, order, i)
    ensures UpToDate(s, order[i]) <==> !Stale(was, order[i])
  {
    hide Stale;
    var p := order[i];
    assert Same(was, s, p);
    StaleBecause(was, p);
    forall j | 0 <= j < |was.sources[p].imports|
      ensures var d := was.sources[p].imports[j];
        s.objects[p].Some? ==> (ImportOlder(s, p, d) <==> !Stale(was, d) && ImportOlder(was, p, d))
    {
      var d := was.sources[p].imports[j];
      assert d in ImportsOf(was.sources)[p];
      assert d in order[..i];
      var n :| 0 <= n < i && order[..i][n] == d;
      assert order[n] == d;
    }
    if UpToDate(s, p) {
      forall j | 0 <= j < |was.sources[p].imports|
        ensures ImportOlder(was, p, was.sources[p].imports[j]) && !Stale(was, was.sources[p].imports[j])
      {
        assert ImportOlder(s, p, s.sources[p].imports[j]);
      }
    } else if !Stale(was, p) {
      forall j | 0 <= j < |s.sources[p].imports|
        ensures ImportOlder(s, p, s.sources[p].imports[j])
      {
        assert ImportOlder(was, p, was.sources[p].imports[j]);
      }
    }
  }

  lemma NextRebuilt(was: Store, s: Store, t: Store, order: seq<nat>, i: nat)
    requires InClock(was) && IsOrder(ImportsOf(was.sources), order) && i < |order| && RebuiltSoFar(was, s, order, i)
    requires (t == s && !Stale(was, order[i])) || (exists content ::
      t == Emit(s, order[i], content) && Stale(was, order[i]))
    ensures RebuiltSoFar(was, t, order, i + 1)
    ensures StaleCount(was, order[..i + 1]) == StaleCount(was, order[..i]) + if Stale(was, order[i]) then 1 else 0
  {
    hide Stale;
    assert order[..i + 1][..i] == order[..i];
    assert Same(was, s, order[i]);
    forall j | 0 <= j < |order| && j != i
      ensures order[j] != order[i] && (New(was, s, order[j]) ==> New(was, t, order[j]))
        && (Same(was, s, order[j]) ==> Same(was, t, order[j]))
    {
    }
  }

  /** The number does not depend on the order. */
  lemma StaleCountIs(s: Store, order: seq<nat>)
    requires |s.objects| == |s.sources| && IsOrder(ImportsOf(s.sources), order)
    ensures StaleCount(s, order) == |set p | 0 <= p < |s.sources| && Stale(s, p)|
  {
    hide Stale;
    CountedSet(s, order);
    assert (set p | 0 <= p < |s.sources| && Stale(s, p)) == StaleIn(s, order);
  }

  ghost function StaleIn(s: Store, order: seq<nat>): set<nat>
    requires |s.objects| == |s.sources|
  {
    set p | p in order && Stale(s, p)
  }

  lemma {:induction false} CountedSet(s: Store, order: seq<nat>)
    requires |s.objects| == |s.sources| && Distinct(order) && forall i :: 0 <= i < |order| ==> order[i] < |s.sources|
    ensures StaleCount(s, order) == |StaleIn(s, order)|
    decreases |order|
  {
    hide Stale;
    if order != [] {
      CountedSet(s, order[..|order| - 1]);
      OneMore(s, order);
    }
  }

  lemma OneMore(s: Store, order: seq<nat>)
    requires |s.objects| == |s.sources| && order != [] && Distinct(order)
    ensures var p, front := order[|order| - 1], order[..|order| - 1];
      |StaleIn(s, order)| == |StaleIn(s, front)| + if Stale(s, p) then 1 else 0
  {
    hide Stale;
    var p, front := order[|order| - 1], order[..|order| - 1];
    assert p !in front;
    assert forall q :: q in order <==> q in front || q == p by {
      assert order == front + [p];
    }
    if Stale(s, p) {
      assert StaleIn(s, order) == StaleIn(s, front) + {p};
    } else {
      assert StaleIn(s, order) == StaleIn(s, front);
    }
  }

  /** A stale package of this build, as it is to be compiled, is refused by the compiler. */
  ghost predicate FailsToCompile(s: Store, compiles: Artifact -> bool, order: seq<nat>, p: nat) {
    && |s.objects| == |s.sources| && IsOrder(ImportsOf(s.sources), order) && p < |s.sources|
    && !compiles(Clean(s.tool, s.sources, order, p)) && Stale(s, p)
  }

  class Cache {
    var store: Store

    constructor (tool: int, sources: seq<Source>)
      ensures Consistent(store) && store.tool == tool && |store.sources| == |sources|
      ensures forall p :: 0 <= p < |sources| ==>
        store.sources[p].imports == sources[p].imports && store.sources[p].body == sources[p].body
    {
      store := Store(0, tool, seq(|sources|, p requires 0 <= p < |sources| => sources[p].(mtime := 0)),
        seq(|sources|, p => None));
    }

    /** `objMtime` holds the time stamps already looked up in this build, 0 for the others. */
    method IsPackageArtifactUpToDate(p: nat, objMtime: seq<nat>) returns (usable: bool)
      requires InClock(store) && p < |store.sources| && |objMtime| == |store.objects|
      requires forall d :: 0 <= d < |objMtime| ==>
        objMtime[d] == 0 || (store.objects[d].Some? && store.objects[d].value.mtime == objMtime[d])
      ensures usable == UpToDate(store, p)
    {
      if store.objects[p].None? || store.objects[p].value.signature != store.tool
         || store.sources[p].mtime > store.objects[p].value.mtime {
        return false;
      }
      var i := 0;
      while i < |store.sources[p].imports|
        invariant 0 <= i <= |store.sources[p].imports|
        invariant forall j :: 0 <= j < i ==> ImportOlder(store, p, store.sources[p].imports[j])
      {
        var d := store.sources[p].imports[i];
        if d >= |store.objects| {
          return false;
        }
        var depMtime := objMtime[d];
        if depMtime == 0 {
          if store.objects[d].None? {
            return false;
          }
          depMtime := store.objects[d].value.mtime;
        }
        if depMtime > store.objects[p].value.mtime {
          return false;
        }
        i := i + 1;
      }
      usable := true;
    }

    /** `compiles` says for which packages the compiler succeeds; a build stops at the first failure. */
    method BuildCachedPackageArtifacts(compiles: Artifact -> bool) returns (ok: bool, rebuilt: nat)
      requires Consistent(store)
      modifies this
      ensures Consistent(store) && store.sources == old(store.sources) && store.tool == old(store.tool)
      ensures ok ==> AllUpToDate(store) && exists order :: AllCorrect(store, order)
      ensures !ok ==>
        || !Resolved(ImportsOf(store.sources)) || !Acyclic(ImportsOf(store.sources))
        || exists order, p :: FailsToCompile(old(store), compiles, order, p)
      ensures ok ==> |store.objects| == |store.sources| == |old(store.objects)|
      ensures ok ==> forall p :: 0 <= p < |store.objects| ==>
        (store.objects[p] != old(store.objects)[p] <==> Stale(old(store), p))
      ensures ok ==> rebuilt == |set p | 0 <= p < |store.sources| && Stale(old(store), p)|
      ensures old(AllUpToDate(store)) && ok ==> rebuilt == 0
      ensures rebuilt == 0 ==> store == old(store)
    {
      hide Stale, RebuiltSoFar, StaleCount;
      rebuilt := 0;
      ghost var was := store;
      var order;
      order, ok := BuildPackageTopologicalOrder(ImportsOf(store.sources));
      if !ok {
        return;
      }
      var objMtime: seq<nat> := seq(|store.objects|, p => 0);
      var i := 0;
      NothingRebuilt(was, order);
      while i < |order|
        invariant 0 <= i <= |order| && store.sources == was.sources && store.tool == was.tool
        invariant Consistent(store) && Done(store, order, i)
        invariant RebuiltSoFar(was, store, order, i) && rebuilt == StaleCount(was, order[..i])
        invariant rebuilt == 0 ==> store == was
        invariant old(AllUpToDate(store)) ==> rebuilt == 0
        invariant |objMtime| == |store.objects|
        invariant forall d :: 0 <= d < |objMtime| ==>
          objMtime[d] == 0 || (store.objects[d].Some? && store.objects[d].value.mtime == objMtime[d])
      {
        var p := order[i];
        ghost var before := store;
        var usable := IsPackageArtifactUpToDate(p, objMtime);
        StaleSeen(was, store, order, i);
        if usable {
          DoneAfterSkip(store, order, i);
        } else {
          var content := Clean(store.tool, store.sources, order, p);
          if !compiles(content) {
            assert FailsToCompile(was, compiles, order, p);
            ok := false;
            return;
          }
          DoneAfterEmit(store, order, i);
          store := Emit(store, p, content);
          rebuilt := rebuilt + 1;
        }
        NextRebuilt(was, before, store, order, i);
        objMtime := objMtime[p := store.objects[p].value.mtime];
        i := i + 1;
      }
      assert order[..i] == order;
      AllDone(store, order);
      StaleCountIs(was, order);
      AllRebuilt(was, store, order);
      ok := true;
    }
  }

  lemma NothingRebuilt(s: Store, order: seq<nat>)
    requires |s.objects| == |s.sources| && forall j :: 0 <= j < |order| ==> order[j] < |s.sources|
    ensures RebuiltSoFar(s, s, order, 0) && StaleCount(s, order[..0]) == 0
  {
  }

  lemma AllRebuilt(was: Store, s: Store, order: seq<nat>)
    requires InClock(was) && IsOrder(ImportsOf(was.sources), order) && RebuiltSoFar(was, s, order, |order|)
    ensures forall p :: 0 <= p < |s.objects| ==> (s.objects[p] != was.objects[p] <==> Stale(was, p))
  {
    hide Stale;
    forall p | 0 <= p < |s.objects|
      ensures s.objects[p] != was.objects[p] <==> Stale(was, p)
    {
      var j := PositionOf(order, p);
      assert order[j] == p;
      assert if Stale(was, order[j]) then New(was, s, order[j]) else Same(was, s, order[j]);
    }
  }

  /** Two build orders give the same clean objects. */
  lemma {:induction false} CleanIsUnique(tool: int, sources: seq<Source>, a: seq<nat>, b: seq<nat>, p: nat)
    requires IsOrder(ImportsOf(sources), a) && IsOrder(ImportsOf(sources), b) && p < |sources|
    ensures Clean(tool, sources, a, p) == Clean(tool, sources, b, p)
    decreases PositionOf(a, p)
  {
    var n := |sources[p].imports|;
    var x, y := CleanAll(tool, sources, a, p, n), CleanAll(tool, sources, b, p, n);
    forall j | 0 <= j < n
      ensures x[j] == y[j]
    {
      CleanAllAt(tool, sources, a, p, n, j);
      CleanAllAt(tool, sources, b, p, n, j);
      EdgeGoesBack(ImportsOf(sources), a, p, sources[p].imports[j]);
      CleanIsUnique(tool, sources, a, b, sources[p].imports[j]);
    }
    assert x == y;
  }
}
