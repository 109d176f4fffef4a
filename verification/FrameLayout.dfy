/**
 * The stack frame of a function: the planner lays out locals, temporaries, the allocation cell and
 * closure environments in one pass each; emission finds temporaries and environments again by
 * walking the instructions itself, and advances differently. All cells are nevertheless apart.
 */
module FrameLayout {
  import opened Words

  /** A local's slot, and whether it keeps an eight-byte auxiliary cell. */
  datatype Local = Local(size: nat, aux: bool)

  /** What an instruction needs in the frame. */
  datatype Need = Need(temp: Option<nat>, alloc: bool, closure: Option<nat>)

  datatype Cell = Cell(start: nat, size: nat)

  function Align4(n: nat): (r: nat)
    ensures n <= r < n + 4 && r % 4 == 0
  {
    (n + 3) / 4 * 4
  }

  // ---- cells in a row ---------------------------------------------------------------------------

  /** Cells one after the other inside [from, to), each at a multiple of four. */
  predicate Stacked(cells: seq<Cell>, from: nat, to: nat) {
    if cells == [] then from <= to
    else from <= cells[0].start && cells[0].start % 4 == 0 && Stacked(cells[1..], cells[0].start + cells[0].size, to)
  }

  predicate Apart(a: Cell, b: Cell) {
    a.start + a.size <= b.start || b.start + b.size <= a.start
  }

  lemma {:induction false} StackedInside(cells: seq<Cell>, from: nat, to: nat)
    requires Stacked(cells, from, to)
    ensures from <= to && forall i :: 0 <= i < |cells| ==>
      from <= cells[i].start && cells[i].start % 4 == 0 && cells[i].start + cells[i].size <= to
    decreases |cells|
  {
    if cells != [] {
      StackedInside(cells[1..], cells[0].start + cells[0].size, to);
      assert forall i :: 1 <= i < |cells| ==> cells[i] == cells[1..][i - 1];
    }
  }

  /** Stacked cells do not overlap. */
  lemma {:induction false} StackedApart(cells: seq<Cell>, from: nat, to: nat)
    requires Stacked(cells, from, to)
    ensures forall i, j :: 0 <= i < j < |cells| ==> Apart(cells[i], cells[j])
    decreases |cells|
  {
    if cells != [] {
      StackedInside(cells[1..], cells[0].start + cells[0].size, to);
      StackedApart(cells[1..], cells[0].start + cells[0].size, to);
      assert forall i :: 1 <= i < |cells| ==> cells[i] == cells[1..][i - 1];
    }
  }

  lemma {:induction false} StackedJoin(a: seq<Cell>, b: seq<Cell>, from: nat, mid: nat, to: nat)
    requires Stacked(a, from, mid) && Stacked(b, mid, to)
    ensures Stacked(a + b, from, to)
    decreases |a|
  {
    if a == [] {
      assert a + b == b;
      StackedFrom(b, mid, from, to);
    } else {
      StackedJoin(a[1..], b, a[0].start + a[0].size, mid, to);
      assert (a + b)[1..] == a[1..] + b;
    }
  }

  lemma {:induction false} StackedFrom(cells: seq<Cell>, from: nat, lower: nat, to: nat)
    requires Stacked(cells, from, to) && lower <= from
    ensures Stacked(cells, lower, to)
  {
  }

  lemma {:induction false} StackedTo(cells: seq<Cell>, from: nat, to: nat, higher: nat)
    requires Stacked(cells, from, to) && to <= higher
    ensures Stacked(cells, from, higher)
    decreases |cells|
  {
    if cells != [] {
      StackedTo(cells[1..], cells[0].start + cells[0].size, to, higher);
    }
  }

  // ---- the planner --------------------------------------------------------------------------------

  function AfterLocal(size: nat, l: Local): nat {
    if l.aux then Align4(Align4(size) + l.size) + 8 else Align4(size) + l.size
  }

  function LocalCells(size: nat, l: Local): seq<Cell> {
    [Cell(Align4(size), l.size)] + if l.aux then [Cell(Align4(Align4(size) + l.size), 8)] else []
  }

  /** The frame size after the first `n` locals. */
  function LocalsEnd(locals: seq<Local>, n: nat): nat
    requires n <= |locals|
  {
    if n == 0 then 0 else AfterLocal(LocalsEnd(locals, n - 1), locals[n - 1])
  }

  function LocalsCells(locals: seq<Local>, n: nat): seq<Cell>
    requires n <= |locals|
  {
    if n == 0 then [] else LocalsCells(locals, n - 1) + LocalCells(LocalsEnd(locals, n - 1), locals[n - 1])
  }

  function TempStart(locals: seq<Local>): nat {
    Align4(LocalsEnd(locals, |locals|))
  }

  /** The planner's running offset after `n` instructions; an empty temporary still takes a byte. */
  function TempsEnd(start: nat, needs: seq<Need>, n: nat): nat
    requires n <= |needs|
  {
    if n == 0 then start
    else match needs[n - 1].temp
      case None => TempsEnd(start, needs, n - 1)
      case Some(size) => Align4(TempsEnd(start, needs, n - 1)) + if size == 0 then 1 else size
  }

  predicate HasAlloc(needs: seq<Need>) {
    exists i :: 0 <= i < |needs| && needs[i].alloc
  }

  function AllocEnd(offset: nat, needs: seq<Need>): nat {
    if HasAlloc(needs) then Align4(offset) + 4 else offset
  }

  function ClosuresEnd(start: nat, needs: seq<Need>, n: nat): nat
    requires n <= |needs|
  {
    if n == 0 then start
    else match needs[n - 1].closure
      case None => ClosuresEnd(start, needs, n - 1)
      case Some(captures) => Align4(ClosuresEnd(start, needs, n - 1)) + captures * 4
  }

  datatype Plan = Plan(frameOffsets: seq<nat>, auxOffsets: seq<Option<nat>>, tempStart: nat, allocOffset: Option<nat>,
    closureStart: nat, frameSize: nat)

  lemma LocalsStep(locals: seq<Local>, i: nat)
    ensures LocalsEnd(locals, 0) == 0
    ensures i < |locals| ==> LocalsEnd(locals, i + 1) == AfterLocal(LocalsEnd(locals, i), locals[i])
  {
  }

  method PlanLocals(locals: seq<Local>) returns (offsets: seq<nat>, aux: seq<Option<nat>>, size: nat)
    ensures |offsets| == |aux| == |locals| && size == LocalsEnd(locals, |locals|)
    ensures forall i :: 0 <= i < |locals| ==> offsets[i] == Align4(LocalsEnd(locals, i))
    ensures forall i :: 0 <= i < |locals| ==>
      aux[i] == if locals[i].aux then Some(Align4(Align4(LocalsEnd(locals, i)) + locals[i].size)) else None
  {
    hide Align4, LocalsEnd;
    LocalsStep(locals, 0);
    size, offsets, aux := 0, [], [];
    var i := 0;
    while i < |locals|
      invariant 0 <= i <= |locals| && size == LocalsEnd(locals, i) && |offsets| == |aux| == i
      invariant forall j :: 0 <= j < i ==> offsets[j] == Align4(LocalsEnd(locals, j))
      invariant forall j :: 0 <= j < i ==>
        aux[j] == if locals[j].aux then Some(Align4(Align4(LocalsEnd(locals, j)) + locals[j].size)) else None
    {
      LocalsStep(locals, i);
      var offset := Align4(size);
      offsets := offsets + [offset];
      size := offset + locals[i].size;
      if locals[i].aux {
        aux := aux + [Some(Align4(size))];
        size := Align4(size) + 8;
      } else {
        aux := aux + [None];
      }
      i := i + 1;
    }
  }

  method PlanTemps(start: nat, needs: seq<Need>) returns (size: nat)
    ensures size == TempsEnd(start, needs, |needs|)
  {
    size := start;
    var i := 0;
    while i < |needs|
      invariant 0 <= i <= |needs| && size == TempsEnd(start, needs, i)
    {
      if needs[i].temp.Some? {
        size := Align4(size);
        size := size + if needs[i].temp.value == 0 then 1 else needs[i].temp.value;
      }
      i := i + 1;
    }
  }

  /** One cell serves all allocations. */
  method PlanAlloc(start: nat, needs: seq<Need>) returns (alloc: Option<nat>, size: nat)
    ensures alloc == (if HasAlloc(needs) then Some(Align4(start)) else None) && size == AllocEnd(start, needs)
  {
    var i := 0;
    while i < |needs|
      invariant 0 <= i <= |needs| && forall j :: 0 <= j < i ==> !needs[j].alloc
    {
      if needs[i].alloc {
        return Some(Align4(start)), Align4(start) + 4;
      }
      i := i + 1;
    }
    return None, start;
  }

  method PlanClosures(start: nat, needs: seq<Need>) returns (size: nat)
    ensures size == ClosuresEnd(start, needs, |needs|)
  {
    size := start;
    var i := 0;
    while i < |needs|
      invariant 0 <= i <= |needs| && size == ClosuresEnd(start, needs, i)
    {
      if needs[i].closure.Some? {
        size := Align4(size) + needs[i].closure.value * 4;
      }
      i := i + 1;
    }
  }

  /** One phase after the other over the locals and the instructions. */
  method PlanFrame(locals: seq<Local>, needs: seq<Need>) returns (plan: Plan)
    ensures |plan.frameOffsets| == |plan.auxOffsets| == |locals|
    ensures forall i :: 0 <= i < |locals| ==> plan.frameOffsets[i] == Align4(LocalsEnd(locals, i))
    ensures forall i :: 0 <= i < |locals| ==>
      plan.auxOffsets[i] == if locals[i].aux then Some(Align4(Align4(LocalsEnd(locals, i)) + locals[i].size)) else None
    ensures plan.tempStart == TempStart(locals)
    ensures var temps := TempsEnd(plan.tempStart, needs, |needs|);
      && plan.allocOffset == (if HasAlloc(needs) then Some(Align4(temps)) else None)
      && plan.closureStart == AllocEnd(temps, needs)
    ensures plan.frameSize == FrameSize(locals, needs)
  {
    hide Align4, LocalsEnd, TempsEnd, ClosuresEnd, HasAlloc;
    var offsets, aux, size := PlanLocals(locals);
    var tempStart := Align4(size);
    var temps := PlanTemps(tempStart, needs);
    var alloc, closureStart := PlanAlloc(temps, needs);
    var end := PlanClosures(closureStart, needs);
    plan := Plan(offsets, aux, tempStart, alloc, closureStart, Align4(end));
  }

  // ---- what emission looks up -----------------------------------------------------------------------

  /** Emission's own running offset: an empty temporary takes nothing. */
  function TempWalk(start: nat, needs: seq<Need>, n: nat): nat
    requires n <= |needs|
  {
    if n == 0 then start
    else match needs[n - 1].temp
      case None => TempWalk(start, needs, n - 1)
      case Some(size) => Align4(TempWalk(start, needs, n - 1)) + size
  }

  method TempOffsetForPc(start: nat, needs: seq<Need>, pc: nat) returns (offset: Option<nat>)
    requires pc < |needs|
    ensures offset == if needs[pc].temp.None? then None else Some(Align4(TempWalk(start, needs, pc)))
  {
    var at := start;
    var scan := 0;
    while scan <= pc
      invariant 0 <= scan <= pc + 1 && at == TempWalk(start, needs, scan)
      invariant scan == pc + 1 ==> needs[pc].temp.None?
    {
      if needs[scan].temp.Some? {
        at := Align4(at);
        if scan == pc {
          return Some(at);
        }
        at := at + needs[scan].temp.value;
      }
      scan := scan + 1;
    }
    offset := None;
  }

  method ClosureOffsetForPc(start: nat, needs: seq<Need>, pc: nat) returns (offset: Option<nat>)
    requires pc < |needs|
    ensures offset == if needs[pc].closure.None? then None else Some(Align4(ClosuresEnd(start, needs, pc)))
  {
    var at := start;
    var scan := 0;
    while scan <= pc
      invariant 0 <= scan <= pc + 1 && at == ClosuresEnd(start, needs, scan)
      invariant scan == pc + 1 ==> needs[pc].closure.None?
    {
      if needs[scan].closure.Some? {
        at := Align4(at);
        if scan == pc {
          return Some(at);
        }
        at := at + needs[scan].closure.value * 4;
      }
      scan := scan + 1;
    }
    offset := None;
  }

  function TempCells(start: nat, needs: seq<Need>, n: nat): seq<Cell>
    requires n <= |needs|
  {
    if n == 0 then []
    else
      var last :=
        match needs[n - 1].temp
        case None => []
        case Some(size) => [Cell(Align4(TempWalk(start, needs, n - 1)), size)];
      TempCells(start, needs, n - 1) + last
  }

  function ClosureCells(start: nat, needs: seq<Need>, n: nat): seq<Cell>
    requires n <= |needs|
  {
    if n == 0 then []
    else
      var last :=
        match needs[n - 1].closure
        case None => []
        case Some(captures) => [Cell(Align4(ClosuresEnd(start, needs, n - 1)), captures * 4)];
      ClosureCells(start, needs, n - 1) + last
  }

  // ---- the frame ------------------------------------------------------------------------------------

  /** Emission never gets ahead of the planner. */
  lemma {:induction false} WalkBehindPlan(start: nat, needs: seq<Need>, n: nat)
    requires n <= |needs|
    ensures start <= TempWalk(start, needs, n) <= TempsEnd(start, needs, n)
    decreases n
  {
    if n > 0 {
      WalkBehindPlan(start, needs, n - 1);
      AlignMonotone(TempWalk(start, needs, n - 1), TempsEnd(start, needs, n - 1));
    }
  }

  lemma AlignMonotone(a: nat, b: nat)
    requires a <= b
    ensures Align4(a) <= Align4(b)
  {
  }

  /** A cell placed at the aligned end of a row. */
  lemma StackedPush(cells: seq<Cell>, from: nat, to: nat, size: nat)
    requires Stacked(cells, from, to)
    ensures Stacked(cells + [Cell(Align4(to), size)], from, Align4(to) + size)
  {
    var c := [Cell(Align4(to), size)];
    assert c[1..] == [];
    assert Stacked(c, to, Align4(to) + size);
    StackedJoin(cells, c, from, to, Align4(to) + size);
  }

  lemma {:induction false} LocalsStacked(locals: seq<Local>, n: nat)
    requires n <= |locals|
    ensures Stacked(LocalsCells(locals, n), 0, LocalsEnd(locals, n))
    decreases n
  {
    if n > 0 {
      LocalsStacked(locals, n - 1);
      var l, size, cells := locals[n - 1], LocalsEnd(locals, n - 1), LocalsCells(locals, n - 1);
      StackedPush(cells, 0, size, l.size);
      if l.aux {
        StackedPush(cells + [Cell(Align4(size), l.size)], 0, Align4(size) + l.size, 8);
        assert cells + [Cell(Align4(size), l.size)] + [Cell(Align4(Align4(size) + l.size), 8)]
          == cells + LocalCells(size, l);
      } else {
        assert cells + LocalCells(size, l) == cells + [Cell(Align4(size), l.size)];
      }
    }
  }

  lemma {:induction false} TempsStacked(start: nat, needs: seq<Need>, n: nat)
    requires n <= |needs|
    ensures Stacked(TempCells(start, needs, n), start, TempWalk(start, needs, n))
    decreases n
  {
    if n > 0 {
      TempsStacked(start, needs, n - 1);
      if needs[n - 1].temp.Some? {
        StackedPush(TempCells(start, needs, n - 1), start, TempWalk(start, needs, n - 1), needs[n - 1].temp.value);
      } else {
        assert TempCells(start, needs, n - 1) + [] == TempCells(start, needs, n - 1);
      }
    }
  }

  lemma {:induction false} ClosuresStacked(start: nat, needs: seq<Need>, n: nat)
    requires n <= |needs|
    ensures Stacked(ClosureCells(start, needs, n), start, ClosuresEnd(start, needs, n))
    decreases n
  {
    if n > 0 {
      ClosuresStacked(start, needs, n - 1);
      if needs[n - 1].closure.Some? {
        StackedPush(ClosureCells(start, needs, n - 1), start, ClosuresEnd(start, needs, n - 1),
          needs[n - 1].closure.value * 4);
      } else {
        assert ClosureCells(start, needs, n - 1) + [] == ClosureCells(start, needs, n - 1);
      }
    }
  }

  /** Every cell that emission ever addresses. */
  function FrameCells(locals: seq<Local>, needs: seq<Need>): seq<Cell> {
    var start := TempStart(locals);
    var temps := TempsEnd(start, needs, |needs|);
    LocalsCells(locals, |locals|)
    + TempCells(start, needs, |needs|)
    + (if HasAlloc(needs) then [Cell(Align4(temps), 4)] else [])
    + ClosureCells(AllocEnd(temps, needs), needs, |needs|)
  }

  function FrameSize(locals: seq<Local>, needs: seq<Need>): nat {
    Align4(ClosuresEnd(AllocEnd(TempsEnd(TempStart(locals), needs, |needs|), needs), needs, |needs|))
  }

  /** Local slots, auxiliary cells, temporaries as emission finds them, the allocation cell and the
      environments lie inside the planned frame, do not overlap, and are at multiples of four, in every one
      of several frames end to end. */
  lemma FrameIsSound(locals: seq<Local>, needs: seq<Need>)
    ensures FrameSize(locals, needs) % 4 == 0
    ensures var cells := FrameCells(locals, needs);
      && (forall i :: 0 <= i < |cells| ==> cells[i].start % 4 == 0)
      && (forall i :: 0 <= i < |cells| ==> cells[i].start + cells[i].size <= FrameSize(locals, needs))
      && (forall i, j :: 0 <= i < j < |cells| ==> Apart(cells[i], cells[j]))
  {
    hide Stacked, Apart, Align4;
    var n := |needs|;
    var start := TempStart(locals);
    var temps := TempsEnd(start, needs, n);
    var closures := AllocEnd(temps, needs);
    var end := ClosuresEnd(closures, needs, n);
    LocalsStacked(locals, |locals|);
    StackedTo(LocalsCells(locals, |locals|), 0, LocalsEnd(locals, |locals|), start);
    TempsStacked(start, needs, n);
    WalkBehindPlan(start, needs, n);
    StackedTo(TempCells(start, needs, n), start, TempWalk(start, needs, n), temps);
    StackedJoin(LocalsCells(locals, |locals|), TempCells(start, needs, n), 0, start, temps);
    var most := LocalsCells(locals, |locals|) + TempCells(start, needs, n);
    if HasAlloc(needs) {
      StackedPush(most, 0, temps, 4);
    }
    var more := most + if HasAlloc(needs) then [Cell(Align4(temps), 4)] else [];
    assert more == most || HasAlloc(needs);
    ClosuresStacked(closures, needs, n);
    StackedJoin(more, ClosureCells(closures, needs, n), 0, closures, end);
    var cells := FrameCells(locals, needs);
    StackedTo(cells, 0, end, Align4(end));
    StackedInside(cells, 0, Align4(end));
    StackedApart(cells, 0, Align4(end));
  }
}
