/**
 * The bump allocator that is emitted as a WebAssembly thunk for the root context: 32-bit
 * arithmetic on a heap pointer, and a byte-by-byte zeroing loop.
 */
module RootAllocator {
  import opened Bits
  import opened Words

  type Word = x: int | 0 <= x < TWO32 witness 0

  /** `size` is what the caller's size cell holds; the cell itself is at `sizePtr`. */
  datatype Request = Request(addr: Word, align: Word, curSize: Word, sizePtr: Word, size: Word, flags: Word)

  predicate Rejected(r: Request) {
    r.sizePtr == 0 || r.addr != 0 || r.curSize != 0 || r.flags != 0 || r.align == 0 || r.size == 0
  }

  function Alignment(r: Request): Word {
    if r.align < 4 then 4 else r.align
  }

  /** `(heap + (align - 1)) & (0 - align)`, in 32-bit arithmetic. */
  function Base(heap: Word, align: Word): int {
    AndBits((heap + (align - 1)) % TWO32, (0 - align) % TWO32)
  }

  // ---- one request ---------------------------------------------------------------------------------

  /** No 32-bit sum of the request wraps. */
  predicate Fits(heap: Word, r: Request) {
    heap + Alignment(r) - 1 + r.size < TWO32
  }

  /** Whatever the alignment asked for, the block starts at or above the heap pointer. */
  lemma BaseBounds(heap: Word, r: Request)
    requires Fits(heap, r)
    ensures heap <= Base(heap, Alignment(r)) <= heap + Alignment(r) - 1
    ensures Base(heap, Alignment(r)) == (heap + Alignment(r) - 1) - AndBits(heap + Alignment(r) - 1, Alignment(r) - 1)
  {
    hide Pow2, AndBits;
    var a := Alignment(r);
    WordSizes();
    AndComplement(32, heap + a - 1, a - 1);
    AndBelow(heap + a - 1, a - 1);
    NegativeWord(a);
  }

  lemma NegativeWord(a: Word)
    requires a > 0
    ensures (0 - a) % TWO32 == TWO32 - a
  {
  }

  /** The block is aligned when the alignment is a power of two. */
  lemma BaseAligned(heap: Word, r: Request, k: nat)
    requires Fits(heap, r) && Alignment(r) == Pow2(k)
    ensures Base(heap, Alignment(r)) >= 0 && RemNat(Base(heap, Alignment(r)), Pow2(k)) == 0
  {
    hide Pow2, AndBits, RemNat;
    var x := heap + Alignment(r) - 1;
    BaseBounds(heap, r);
    AndLowBits(k, x);
    RoundedDown(x, Pow2(k));
  }

  datatype Step = Step(ptr: int, heap: int)

  function Serve(heap: Word, r: Request): Step {
    if Rejected(r) then Step(0, heap)
    else Step(Base(heap, Alignment(r)), (Base(heap, Alignment(r)) + r.size) % TWO32)
  }

  lemma ServeBounds(heap: Word, r: Request)
    requires Rejected(r) || Fits(heap, r)
    ensures var s := Serve(heap, r);
      && 0 <= heap <= s.heap < TWO32
      && (Rejected(r) ==> s == Step(0, heap))
      && (!Rejected(r) ==> heap <= s.ptr && s.ptr + r.size == s.heap)
  {
    if !Rejected(r) {
      BaseBounds(heap, r);
    }
  }

  // ---- any sequence of requests ----------------------------------------------------------------------

  datatype Block = Block(start: int, size: int)

  /** The blocks handed out, oldest first, and the heap pointer afterwards. */
  function Blocks(heap: Word, rs: seq<Request>): seq<Block>
    decreases |rs|
  {
    if rs == [] then []
    else
      var s := Serve(heap, rs[0]);
      var rest := if 0 <= s.heap < TWO32 then Blocks(s.heap, rs[1..]) else [];
      if Rejected(rs[0]) then rest else [Block(s.ptr, rs[0].size)] + rest
  }

  function HeapAfter(heap: Word, rs: seq<Request>): int
    decreases |rs|
  {
    if rs == [] then heap
    else
      var s := Serve(heap, rs[0]);
      if 0 <= s.heap < TWO32 then HeapAfter(s.heap, rs[1..]) else s.heap
  }

  predicate AllFit(heap: Word, rs: seq<Request>)
    decreases |rs|
  {
    rs == [] || ((Rejected(rs[0]) || Fits(heap, rs[0]))
      && (var s := Serve(heap, rs[0]); 0 <= s.heap < TWO32 && AllFit(s.heap, rs[1..])))
  }

  predicate Apart(a: Block, b: Block) {
    a.start + a.size <= b.start || b.start + b.size <= a.start
  }

  /** Blocks lie one after the other between the heap pointer before and after: they never overlap. */
  lemma {:induction false} BlocksAreDisjoint(heap: Word, rs: seq<Request>)
    requires AllFit(heap, rs)
    ensures heap <= HeapAfter(heap, rs) < TWO32
    ensures forall i :: 0 <= i < |Blocks(heap, rs)| ==>
      var b := Blocks(heap, rs)[i]; heap <= b.start && b.size > 0 && b.start + b.size <= HeapAfter(heap, rs)
    ensures forall i, j :: 0 <= i < j < |Blocks(heap, rs)| ==> Apart(Blocks(heap, rs)[i], Blocks(heap, rs)[j])
    decreases |rs|
  {
    if rs != [] {
      hide Base, Alignment, Fits;
      ServeBounds(heap, rs[0]);
      var s := Serve(heap, rs[0]);
      BlocksAreDisjoint(s.heap, rs[1..]);
      var all, rest := Blocks(heap, rs), Blocks(s.heap, rs[1..]);
      if !Rejected(rs[0]) {
        assert all == [Block(s.ptr, rs[0].size)] + rest;
        assert forall i :: 1 <= i < |all| ==> all[i] == rest[i - 1];
      }
    }
  }

  // ---- the thunk, with its memory ----------------------------------------------------------------------

  class Heap {
    const memory: array<Byte>
    var pointer: Word

    constructor (size: nat, base: Word)
      ensures memory.Length == size && pointer == base && fresh(memory)
    {
      memory := new Byte[size](i => 0);
      pointer := base;
    }

    /** Answers the block's address, or 0 and leaves everything as it was; None is a trap. */
    method Allocate(r: Request) returns (ptr: Option<int>)
      requires Rejected(r) || Fits(pointer, r)
      modifies this, memory
      ensures var s := Serve(old(pointer), r);
        && pointer == s.heap
        && (ptr.Some? ==> ptr.value == s.ptr)
        && (Rejected(r) ==> ptr.Some? && memory[..] == old(memory[..]))
        && (!Rejected(r) ==> (ptr.Some? <==> s.ptr + r.size <= memory.Length))
        && (!Rejected(r) && ptr.Some? ==>
              && (forall i :: s.ptr <= i < s.ptr + r.size ==> memory[i] == 0)
              && (forall i :: 0 <= i < memory.Length && !(s.ptr <= i < s.ptr + r.size) ==> memory[i] == old(memory[i])))
    {
      if r.sizePtr == 0 {
        return Some(0);
      }
      if r.addr != 0 {
        return Some(0);
      }
      if r.curSize != 0 {
        return Some(0);
      }
      if r.flags != 0 {
        return Some(0);
      }
      if r.align == 0 {
        return Some(0);
      }
      if r.size == 0 {
        return Some(0);
      }
      var align := r.align;
      if align < 4 {
        align := 4;
      }
      ServeBounds(pointer, r);
      ghost var s := Serve(pointer, r);
      var base := Base(pointer, align);
      pointer := (base + r.size) % TWO32;
      var cursor := base;
      while cursor < (base + r.size) % TWO32
        invariant base <= cursor <= base + r.size && pointer == s.heap && (cursor > base ==> cursor <= memory.Length)
        invariant forall i :: base <= i < cursor && i < memory.Length ==> memory[i] == 0
        invariant forall i :: 0 <= i < memory.Length && !(base <= i < cursor) ==> memory[i] == old(memory[i])
      {
        if cursor >= memory.Length {
          return None;
        }
        memory[cursor] := 0;
        cursor := cursor + 1;
      }
      ptr := Some(base);
    }
  }
}
