/**
 * The incremental package build: objects are kept between builds and rebuilt when the toolchain,
 * a source or an imported object is newer. Over every history of edits, toolchain changes and
 * builds, a build that succeeds leaves exactly the objects a build from scratch would make.
 */
module BuildCache {
  import opened Words
  import opened TopoOrder

  /** What is known about a package directory: its contents, and the newest time stamp in it. */
  datatype Source = Source(imports: seq<nat>, body: int, mtime: nat)

  /** A compiled package: a function of the toolchain, its own sources and everything it imports.
      Two of them are equal only if all of that is equal. */
  datatype Artifact = Artifact(tool: int, body: int, imports: seq<nat>, deps: seq<Artifact>)

  /** An object file, and the toolchain signature stored beside it. */
  datatype Object = Object(content: Artifact, mtime: nat, signature: int)

  /** The file system as the build sees it; every write takes a later time stamp than all before. */
  datatype Store = Store(clock: nat, tool: int, sources: seq<Source>, objects: seq<Option<Object>>)

  function ImportsOf(sources: seq<Source>): (g: Graph)
    ensures |g| == |sources| && forall p :: 0 <= p < |g| ==> g[p] == sources[p].imports
  {
    seq(|sources|, p requires 0 <= p < |sources| => sources[p].imports)
  }

  // ---- building from scratch ------------------------------------------------------------------

  /** The object of `p` in a clean build; `order` only bounds the recursion. */
  function Clean(tool: int, sources: seq<Source>, order: seq<nat>, p: nat): Artifact
    requires IsOrder(ImportsOf(sources), order) && p < |sources|
    decreases PositionIn(sources, order, p), 1
  {
    Artifact(tool, sources[p].body, sources[p].imports, CleanAll(tool, sources, order, p, |sources[p].imports|))
  }

  /** The clean objects of the first `n` imports of `p`. */
  function CleanAll(tool: int, sources: seq<Source>, order: seq<nat>, p: nat, n: nat): (r: seq<Artifact>)
    requires IsOrder(ImportsOf(sources), order) && p < |sources| && n <= |sources[p].imports|
    ensures |r| == n
    decreases PositionIn(sources, order, p), 0, n
  {
    if n == 0 then []
    else
      var d := sources[p].imports[n - 1];
      EdgeGoesBack(ImportsOf(sources), order, p, d);
      CleanAll(tool, sources, order, p, n - 1) + [Clean(tool, sources, order, d)]
  }

  ghost function PositionIn(sources: seq<Source>, order: seq<nat>, p: nat): nat
    requires IsOrder(ImportsOf(sources), order) && p < |sources|
  {
    PositionOf(order, p)
  }

  lemma {:induction false} CleanAllAt(tool: int, sources: seq<Source>, order: seq<nat>, p: nat, n: nat, j: nat)
    requires IsOrder(ImportsOf(sources), order) && p < |sources| && j < n <= |sources[p].imports|
    ensures sources[p].imports[j] < |sources|
    ensures CleanAll(tool, sources, order, p, n)[j] == Clean(tool, sources, order, sources[p].imports[j])
    decreases n
  {
    EdgeGoesBack(ImportsOf(sources), order, p, sources[p].imports[j]);
    if j < n - 1 {
      CleanAllAt(tool, sources, order, p, n - 1, j);
    }
  }

  // ---- what holds at all times ----------------------------------------------------------------

  ghost predicate InClock(s: Store) {
    && |s.objects| == |s.sources|
    && (forall p :: 0 <= p < |s.sources| ==> s.sources[p].mtime <= s.clock)
    && (forall p :: 0 <= p < |s.objects| && s.objects[p].Some? ==> s.objects[p].value.mtime <= s.clock)
  }

  /** An object still says what was compiled: its own sources, unless they were edited since, and
      the imported objects, unless they were rebuilt since. */
  ghost predicate Faithful(s: Store, p: nat)
    requires p < |s.objects| == |s.sources|
  {
    s.objects[p].Some? ==>
      var o := s.objects[p].value;
      && o.content.tool == o.signature && |o.content.deps| == |o.content.imports|
      && (s.sources[p].mtime <= o.mtime ==>
        o.content.body == s.sources[p].body && o.content.imports == s.sources[p].imports)
      && (forall j :: 0 <= j < |o.content.imports| ==> ImportKept(s, o, j))
  }

  ghost predicate ImportKept(s: Store, o: Object, j: nat)
    requires j < |o.content.imports| == |o.content.deps|
  {
    var d := o.content.imports[j];
    d < |s.objects| && s.objects[d].Some? && s.objects[d].value.mtime <= o.mtime ==>
      o.content.deps[j] == s.objects[d].value.content
  }

  ghost predicate Consistent(s: Store) {
    InClock(s) && forall p :: 0 <= p < |s.objects| ==> Faithful(s, p)
  }

  // ---- the steps of a history -----------------------------------------------------------------

  /** Any change to the files of a package, its imports included. */
  function Edit(s: Store, p: nat, imports: seq<nat>, body: int): Store
    requires p < |s.sources|
  {
    s.(clock := s.clock + 1, sources := s.sources[p := Source(imports, body, s.clock + 1)])
  }

  function ChangeTool(s: Store, tool: int): Store {
    s.(clock := s.clock + 1, tool := tool)
  }

  /** Deleting an object from the cache directory. */
  function Evict(s: Store, p: nat): Store
    requires p < |s.objects|
  {
    s.(objects := s.objects[p := None])
  }

  /** Compiling `p` and writing its object and signature. */
  function Emit(s: Store, p: nat, content: Artifact): Store
    requires p < |s.objects|
  {
    s.(clock := s.clock + 1, objects := s.objects[p := Some(Object(content, s.clock + 1, s.tool))])
  }

  /** Whether the cached object can be used as it is. */
  predicate UpToDate(s: Store, p: nat)
    requires p < |s.objects| == |s.sources|
  {
    && s.objects[p].Some?
    && s.objects[p].value.signature == s.tool
    && s.sources[p].mtime <= s.objects[p].value.mtime
    && forall j :: 0 <= j < |s.sources[p].imports| ==> ImportOlder(s, p, s.sources[p].imports[j])
  }

  predicate ImportOlder(s: Store, p: nat, d: nat)
    requires p < |s.objects| && s.objects[p].Some?
  {
    d < |s.objects| && s.objects[d].Some? && s.objects[d].value.mtime <= s.objects[p].value.mtime
  }

  lemma EditKeeps(s: Store, p: nat, imports: seq<nat>, body: int)
    requires Consistent(s) && p < |s.sources|
    ensures Consistent(Edit(s, p, imports, body))
  {
    var t := Edit(s, p, imports, body);
    forall q | 0 <= q < |t.objects|
      ensures Faithful(t, q)
    {
      assert Faithful(s, q);
      if s.objects[q].Some? {
        OthersKept(s, t, q);
      }
    }
  }

  lemma ChangeToolKeeps(s: Store, tool: int)
    requires Consistent(s)
    ensures Consistent(ChangeTool(s, tool))
  {
    var t := ChangeTool(s, tool);
    forall q | 0 <= q < |t.objects|
      ensures Faithful(t, q)
    {
      assert Faithful(s, q);
      if s.objects[q].Some? {
        OthersKept(s, t, q);
      }
    }
  }

  lemma EvictKeeps(s: Store, p: nat)
    requires Consistent(s) && p < |s.objects|
    ensures Consistent(Evict(s, p))
  {
    var t := Evict(s, p);
    forall q | 0 <= q < |t.objects|
      ensures Faithful(t, q)
    {
      assert Faithful(s, q);
      if q != p && s.objects[q].Some? {
        var o := s.objects[q].value;
        forall j | 0 <= j < |o.content.imports|
          ensures ImportKept(t, o, j)
        {
          assert ImportKept(s, o, j);
        }
      }
    }
  }

  lemma OthersKept(s: Store, t: Store, q: nat)
    requires t.objects == s.objects && q < |s.objects| && s.objects[q].Some?
    requires |s.objects[q].value.content.imports| == |s.objects[q].value.content.deps|
    requires forall j :: 0 <= j < |s.objects[q].value.content.imports| ==> ImportKept(s, s.objects[q].value, j)
    ensures forall j :: 0 <= j < |s.objects[q].value.content.imports| ==> ImportKept(t, s.objects[q].value, j)
  {
    forall j | 0 <= j < |s.objects[q].value.content.imports|
      ensures ImportKept(t, s.objects[q].value, j)
    {
      assert ImportKept(s, s.objects[q].value, j);
    }
  }

  // ---- one build ------------------------------------------------------------------------------

  ghost predicate Correct(s: Store, order: seq<nat>, p: nat)
    requires IsOrder(ImportsOf(s.sources), order)
  {
    && p < |s.sources| == |s.objects| && s.objects[p].Some?
    && s.objects[p].value.content == Clean(s.tool, s.sources, order, p)
  }

  ghost predicate ImportsCorrect(s: Store, order: seq<nat>, p: nat)
    requires IsOrder(ImportsOf(s.sources), order) && p < |s.sources|
  {
    forall j :: 0 <= j < |s.sources[p].imports| ==> Correct(s, order, s.sources[p].imports[j])
  }

  /** An object that passes the time stamp checks is the object a clean build would make. */
  lemma UpToDateIsClean(s: Store, order: seq<nat>, p: nat)
    requires Consistent(s) && IsOrder(ImportsOf(s.sources), order) && p < |s.sources| && UpToDate(s, p)
      && ImportsCorrect(s, order, p)
    ensures Correct(s, order, p)
  {
    assert Faithful(s, p);
    var o, src := s.objects[p].value, s.sources[p];
    var clean := CleanAll(s.tool, s.sources, order, p, |src.imports|);
    forall j | 0 <= j < |src.imports|
      ensures o.content.deps[j] == clean[j]
    {
      CleanAllAt(s.tool, s.sources, order, p, |src.imports|, j);
      assert ImportKept(s, o, j) && ImportOlder(s, p, src.imports[j]) && Correct(s, order, src.imports[j]);
    }
    assert o.content.deps == clean;
  }

  /** Writing a clean object keeps everything else as it was. */
  lemma EmitKeeps(s: Store, order: seq<nat>, p: nat)
    requires Consistent(s) && IsOrder(ImportsOf(s.sources), order) && p < |s.sources| && ImportsCorrect(s, order, p)
    ensures var t := Emit(s, p, Clean(s.tool, s.sources, order, p));
      && Consistent(t) && Correct(t, order, p) && UpToDate(t, p)
      && forall q :: 0 <= q < |s.sources| && q != p ==> t.objects[q] == s.objects[q]
  {
    var t := Emit(s, p, Clean(s.tool, s.sources, order, p));
    forall j | 0 <= j < |s.sources[p].imports|
      ensures ImportOlder(t, p, s.sources[p].imports[j]) && s.sources[p].imports[j] != p
    {
      assert Correct(s, order, s.sources[p].imports[j]);
      EdgeGoesBack(ImportsOf(s.sources), order, p, s.sources[p].imports[j]);
    }
    forall q | 0 <= q < |t.objects|
      ensures Faithful(t, q)
    {
      assert Faithful(s, q);
      if q == p {
        NewIsFaithful(s, order, p);
      } else if s.objects[q].Some? {
        OldStaysFaithful(s, t, p, q);
      }
    }
  }

  lemma NewIsFaithful(s: Store, order: seq<nat>, p: nat)
    requires InClock(s) && IsOrder(ImportsOf(s.sources), order) && p < |s.sources| && ImportsCorrect(s, order, p)
    requires forall j :: 0 <= j < |s.sources[p].imports| ==> s.sources[p].imports[j] != p
    ensures var t := Emit(s, p, Clean(s.tool, s.sources, order, p)); Faithful(t, p)
  {
    var t := Emit(s, p, Clean(s.tool, s.sources, order, p));
    var o := t.objects[p].value;
    forall j | 0 <= j < |o.content.imports|
      ensures ImportKept(t, o, j)
    {
      CleanAllAt(s.tool, s.sources, order, p, |s.sources[p].imports|, j);
      assert Correct(s, order, s.sources[p].imports[j]);
    }
  }

  /** A rebuilt import is newer than the objects that used the old one. */
  lemma OldStaysFaithful(s: Store, t: Store, p: nat, q: nat)
    requires InClock(s) && p < |s.objects| && q < |s.objects| && q != p && s.objects[q].Some? && Faithful(s, q)
    requires t.sources == s.sources && |t.objects| == |s.objects| && t.objects[p].Some?
      && t.objects[p].value.mtime == s.clock + 1
    requires forall r :: 0 <= r < |s.objects| && r != p ==> t.objects[r] == s.objects[r]
    ensures Faithful(t, q)
  {
    var o := s.objects[q].value;
    forall j | 0 <= j < |o.content.imports|
      ensures ImportKept(t, o, j)
    {
      assert ImportKept(s, o, j);
    }
  }

  // ---- whole histories ------------------------------------------------------------------------

  ghost predicate Next(s: Store, t: Store) {
    || (exists p, imports, body :: 0 <= p < |s.sources| && t == Edit(s, p, imports, body))
    || (exists tool :: t == ChangeTool(s, tool))
    || (exists p :: 0 <= p < |s.objects| && t == Evict(s, p))
    || (exists order, p :: EmitStep(s, t, order, p))
  }

  /** A build compiles a package only when all its imports have been brought up to date. */
  ghost predicate EmitStep(s: Store, t: Store, order: seq<nat>, p: nat) {
    && IsOrder(ImportsOf(s.sources), order) && p < |s.sources| == |s.objects| && ImportsCorrect(s, order, p)
    && t == Emit(s, p, Clean(s.tool, s.sources, order, p))
  }

  /** Whatever is edited, deleted or rebuilt in whatever order, the cache stays consistent. */
  lemma {:induction false} HistoriesStayConsistent(run: seq<Store>, n: nat)
    requires n < |run| && Consistent(run[0]) && forall i :: 0 <= i < |run| - 1 ==> Next(run[i], run[i + 1])
    ensures Consistent(run[n])
    decreases n
  {
    if n > 0 {
      HistoriesStayConsistent(run, n - 1);
      NextKeeps(run[n - 1], run[n]);
    }
  }

  lemma NextKeeps(s: Store, t: Store)
    requires Consistent(s) && Next(s, t)
    ensures Consistent(t)
  {
    if p, imports, body :| 0 <= p < |s.sources| && t == Edit(s, p, imports, body) {
      EditKeeps(s, p, imports, body);
    } else if tool :| t == ChangeTool(s, tool) {
      ChangeToolKeeps(s, tool);
    } else if p :| 0 <= p < |s.objects| && t == Evict(s, p) {
      EvictKeeps(s, p);
    } else {
      var order, p :| EmitStep(s, t, order, p);
      EmitKeeps(s, order, p);
    }
  }

  // ---- edits and their time stamps ------------------------------------------------------------

  /** An edit whose files carry the stamp `m`, whatever the clock says. */
  function StampedEdit(s: Store, p: nat, imports: seq<nat>, body: int, m: nat): Store
    requires p < |s.sources|
  {
    s.(clock := if m > s.clock then m else s.clock, sources := s.sources[p := Source(imports, body, m)])
  }

  predicate Changes(s: Store, p: nat, imports: seq<nat>, body: int)
    requires p < |s.sources|
  {
    imports != s.sources[p].imports || body != s.sources[p].body
  }

  /** An edit of a package's sources is noticed exactly when its stamp is later than the object's, or
      when it imports what has no object or a newer one; in either case the object is stale. */
  lemma EditNoticedExactly(s: Store, order: seq<nat>, p: nat, imports: seq<nat>, body: int, m: nat, after: seq<nat>)
    requires IsOrder(ImportsOf(s.sources), order) && p < |s.sources| == |s.objects|
    requires UpToDate(s, p) && Correct(s, order, p)
    requires Changes(s, p, imports, body) && IsOrder(ImportsOf(StampedEdit(s, p, imports, body, m).sources), after)
    ensures var t := StampedEdit(s, p, imports, body, m);
      && (UpToDate(t, p) <==>
          m <= s.objects[p].value.mtime && forall j :: 0 <= j < |imports| ==> ImportOlder(s, p, imports[j]))
      && (imports == s.sources[p].imports ==> (UpToDate(t, p) <==> m <= s.objects[p].value.mtime))
      && !Correct(t, after, p)
  {
    var t := StampedEdit(s, p, imports, body, m);
    forall d: nat
      ensures ImportOlder(t, p, d) == ImportOlder(s, p, d)
    {
    }
  }

  /** So only an edit that is stamped later than its object keeps the cache consistent. */
  lemma StampedEditKeepsExactly(s: Store, p: nat, imports: seq<nat>, body: int, m: nat)
    requires Consistent(s) && p < |s.sources| && s.objects[p].Some? && Changes(s, p, imports, body)
    requires s.sources[p].mtime <= s.objects[p].value.mtime
    ensures Consistent(StampedEdit(s, p, imports, body, m)) <==> m > s.objects[p].value.mtime
  {
    var t := StampedEdit(s, p, imports, body, m);
    assert Faithful(s, p);
    if m <= s.objects[p].value.mtime {
      assert !Faithful(t, p);
    } else {
      forall q | 0 <= q < |t.objects|
        ensures Faithful(t, q)
      {
        assert Faithful(s, q);
        if s.objects[q].Some? {
          OthersKept(s, t, q);
        }
      }
    }
  }

  /** With a clock that stands still between an edit and the object before it, a stale object passes. */
  lemma SameTickIsStale()
    ensures var s := Store(1, 0, [Source([], 1, 0)], [Some(Object(Artifact(0, 1, [], []), 1, 0))]);
      var t := s.(sources := [Source([], 2, 1)]);
      && Consistent(s) && UpToDate(t, 0)
      && IsOrder(ImportsOf(t.sources), [0]) && t.objects[0].value.content != Clean(t.tool, t.sources, [0], 0)
  {
    var s := Store(1, 0, [Source([], 1, 0)], [Some(Object(Artifact(0, 1, [], []), 1, 0))]);
    var t := s.(sources := [Source([], 2, 1)]);
    assert Faithful(s, 0);
  }
}
