/** How stacks and locals of MIR values are laid out as WebAssembly values. */
module Slots {
  import opened Words
  import M = Mir
  import W = Wasm
  import opened StackMap
  import opened Emitter

  lemma ExpandPush(a: seq<M.Value>, v: M.Value)
    ensures W.Expand(a + [v]) == W.Expand(a) + W.Slots(v)
  {
    assert (a + [v])[..|a|] == a;
  }

  lemma {:induction false} ExpandConcat(a: seq<M.Value>, b: seq<M.Value>)
    ensures W.Expand(a + b) == W.Expand(a) + W.Expand(b)
    decreases |b|
  {
    hide W.Slots;
    if b == [] {
      assert a + b == a;
    } else {
      var front, last := b[..|b| - 1], b[|b| - 1];
      assert a + b == (a + front) + [last] && b == front + [last];
      ExpandConcat(a, front);
      ExpandPush(a + front, last);
      ExpandPush(front, last);
      Associate(W.Expand(a), W.Expand(front), W.Slots(last));
    }
  }

  lemma Associate<T>(a: seq<T>, b: seq<T>, c: seq<T>)
    ensures (a + b) + c == a + (b + c)
  {
  }

  lemma ExpandTypesPush(a: Kinds, k: M.Kind)
    ensures W.ExpandTypes(a + [k]) == W.ExpandTypes(a) + W.SlotTypes(k)
  {
    assert (a + [k])[..|a|] == a;
  }

  lemma {:induction false} ExpandTypesConcat(a: Kinds, b: Kinds)
    ensures W.ExpandTypes(a + b) == W.ExpandTypes(a) + W.ExpandTypes(b)
    decreases |b|
  {
    hide W.SlotTypes;
    if b == [] {
      assert a + b == a;
    } else {
      var front, last := b[..|b| - 1], b[|b| - 1];
      assert a + b == (a + front) + [last] && b == front + [last];
      ExpandTypesConcat(a, front);
      ExpandTypesPush(a + front, last);
      ExpandTypesPush(front, last);
      Associate(W.ExpandTypes(a), W.ExpandTypes(front), W.SlotTypes(last));
    }
  }

  lemma SlotsTyped(v: M.Value)
    ensures W.TypesOf(W.Slots(v)) == W.SlotTypes(M.KindOf(v))
    ensures W.FromSlots(M.KindOf(v), W.Slots(v)) == v
  {
  }

  lemma KindsOfTake(vs: seq<M.Value>, n: nat)
    requires n <= |vs|
    ensures M.KindsOf(vs[..n]) == M.KindsOf(vs)[..n] && M.KindsOf(vs[n..]) == M.KindsOf(vs)[n..]
  {
  }

  /** An expanded stack has exactly the types of its kinds. */
  lemma {:induction false} ExpandTyped(vs: seq<M.Value>)
    ensures W.TypesOf(W.Expand(vs)) == W.ExpandTypes(M.KindsOf(vs))
    decreases |vs|
  {
    if vs != [] {
      var n := |vs| - 1;
      ExpandTyped(vs[..n]);
      KindsOfTake(vs, n);
      SlotsTyped(vs[n]);
      assert W.TypesOf(W.Expand(vs[..n]) + W.Slots(vs[n])) == W.TypesOf(W.Expand(vs[..n])) + W.TypesOf(W.Slots(vs[n]));
    }
  }

  lemma {:induction false} CollapseExpand(vs: seq<M.Value>)
    ensures W.TypesOf(W.Expand(vs)) == W.ExpandTypes(M.KindsOf(vs))
    ensures W.Collapse(M.KindsOf(vs), W.Expand(vs)) == vs
    decreases |vs|
  {
    ExpandTyped(vs);
    if vs != [] {
      var n := |vs| - 1;
      var front, last := vs[..n], vs[n];
      CollapseExpand(front);
      KindsOfTake(vs, n);
      SlotsTyped(last);
      var ws := W.Expand(vs);
      var m := |ws| - |W.SlotTypes(M.KindOf(last))|;
      assert ws[..m] == W.Expand(front) && ws[m..] == W.Slots(last);
    }
  }

  // ---- locals ---------------------------------------------------------------------------

  predicate NeedsCallScratch(fn: M.Function) {
    exists pc :: 0 <= pc < |fn.insts| && fn.insts[pc].CallFn? && fn.insts[pc].argc > 0
  }

  /** How many locals the emitted function has, parameters included. */
  ghost function LocalCount(fn: M.Function): nat {
    if NeedsCallScratch(fn) then ScratchI64(fn) + CALL_SCRATCH_I64 else ScratchI32(fn)
  }

  /** Without a frame, the MIR locals are laid out from local 0 on; the call scratch area after
      them is arbitrary. */
  ghost predicate LocalsMatch(fn: M.Function, locals: seq<M.Value>, wlocals: seq<W.Value>) {
    fn.frame.None? && M.KindsOf(locals) == fn.localKinds && |wlocals| == LocalCount(fn) && W.Expand(locals) <= wlocals
  }

  lemma LocalSlice(fn: M.Function, locals: seq<M.Value>, i: nat)
    requires fn.frame.None? && M.KindsOf(locals) == fn.localKinds && i < |locals|
    ensures LocalIndex(fn, i) + |W.Slots(locals[i])| <= |W.Expand(locals)| == ScratchI32(fn)
    ensures W.Expand(locals)[LocalIndex(fn, i)..LocalIndex(fn, i) + |W.Slots(locals[i])|] == W.Slots(locals[i])
    ensures W.Expand(locals) == W.Expand(locals[..i]) + W.Slots(locals[i]) + W.Expand(locals[i + 1..])
    ensures |W.Expand(locals[..i])| == LocalIndex(fn, i)
  {
    hide W.Slots, W.Expand, W.ExpandTypes;
    var pre, v, post := locals[..i], locals[i], locals[i + 1..];
    ExpandTyped(locals);
    ExpandTyped(pre);
    assert fn.localKinds[..|fn.localKinds|] == fn.localKinds;
    KindsOfTake(locals, i);
    assert locals == pre + [v] + post;
    ExpandPush(pre, v);
    ExpandConcat(pre + [v], post);
    Middle(W.Expand(pre), W.Slots(v), W.Expand(post));
  }

  lemma Middle<T>(pre: seq<T>, mid: seq<T>, post: seq<T>)
    ensures (pre + mid + post)[|pre|..|pre| + |mid|] == mid
  {
  }

  lemma LocalUpdate(fn: M.Function, locals: seq<M.Value>, i: nat, v: M.Value, wlocals: seq<W.Value>,
      wlocals': seq<W.Value>)
    requires LocalsMatch(fn, locals, wlocals) && i < |locals| && M.KindOf(v) == fn.localKinds[i]
    requires |wlocals'| == |wlocals| && LocalIndex(fn, i) + |W.Slots(v)| <= |wlocals|
    requires wlocals' == wlocals[..LocalIndex(fn, i)] + W.Slots(v) + wlocals[LocalIndex(fn, i) + |W.Slots(v)|..]
    ensures LocalsMatch(fn, locals[i := v], wlocals')
  {
    hide W.Expand, W.ExpandTypes;
    var n := LocalIndex(fn, i);
    var after := locals[i := v];
    assert M.KindsOf(after) == fn.localKinds;
    LocalSlice(fn, locals, i);
    LocalSlice(fn, after, i);
    assert after[..i] == locals[..i] && after[i + 1..] == locals[i + 1..];
    assert |W.Slots(v)| == |W.Slots(locals[i])|;
    Splice(W.Expand(locals[..i]), W.Slots(locals[i]), W.Expand(locals[i + 1..]), W.Slots(v), wlocals, wlocals');
  }

  lemma Splice(pre: seq<W.Value>, mid: seq<W.Value>, post: seq<W.Value>, mid': seq<W.Value>, w: seq<W.Value>,
      w': seq<W.Value>)
    requires pre + mid + post <= w && |mid'| == |mid|
    requires w' == w[..|pre|] + mid' + w[|pre| + |mid'|..]
    ensures pre + mid' + post <= w'
  {
    assert w[..|pre|] == pre;
    assert forall i :: |pre| + |mid| <= i < |pre + mid + post| ==>
      w'[i] == w[i] == (pre + mid + post)[i] == (pre + mid' + post)[i];
  }
}
