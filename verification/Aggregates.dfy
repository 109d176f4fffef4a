/**
 * Aggregate layout: sizes, alignments and field offsets, and the search for a field by name through
 * nested aggregates. Fields never overlap and never leave their owner, however deep they are nested.
 */
module Aggregates {
  import opened Bits
  import opened Words

  /** `Plain` is everything whose size alone decides its alignment: integers, pointers, references,
      fixed arrays. A `Text` is a string kept in place: its bytes follow its eight-byte header. A `Tail`
      is an array whose length is the field at offset `count`. Neither's contents count for its size. */
  datatype Type =
    | Plain(size: nat)
    | Wide
    | Text
    | Tail(width: nat, count: nat)
    | Aggregate(fields: seq<Field>)
    | Unknown

  datatype Field = Field(name: string, ty: Type)

  /** What rounding `offset` up gives: `(offset + (a - 1)) & ~(a - 1)`, for any alignment. */
  function RoundUp(offset: nat, a: nat): (r: nat)
    requires a > 0
    ensures offset <= r < offset + a
  {
    AndBelow(offset + (a - 1), a - 1);
    offset + (a - 1) - AndBits(offset + (a - 1), a - 1)
  }

  // ---- sizes and alignments -------------------------------------------------------------------------------

  /** The size in bytes; None where the layout is refused. */
  function Size(t: Type): Option<nat>
    decreases t, 1
  {
    match t
    case Plain(n) => Some(n)
    case Wide => Some(8)
    case Text => Some(8)
    case Tail(_, _) => Some(0)
    case Unknown => None
    case Aggregate(fields) =>
      match Walk(fields, |fields|)
      case None => None
      case Some(w) => Some(if w.align > 1 then RoundUp(w.end, w.align) else w.end)
  }

  /** Alignments stop at 4, except for 64-bit integers; what has no size has no alignment. */
  function Align(t: Type): Option<nat>
    ensures Align(t).Some? ==> Align(t).value > 0
    decreases t, 2
  {
    match t
    case Tail(width, _) => if width == 0 then None else Some(if width >= 4 then 4 else width)
    case Wide => Some(8)
    case _ =>
      var size := Size(t);
      if size.None? || size.value == 0 then None else Some(if size.value >= 4 then 4 else size.value)
  }

  /** Where the first fields of an aggregate end, and the largest of their alignments. */
  datatype Walked = Walked(end: nat, align: nat)

  function Walk(fields: seq<Field>, n: nat): (r: Option<Walked>)
    requires n <= |fields|
    ensures r.Some? ==> r.value.align > 0
    decreases fields, 0, n
  {
    if n == 0 then Some(Walked(0, 1))
    else
      var f := fields[n - 1];
      var before, size, align := Walk(fields, n - 1), Size(f.ty), Align(f.ty);
      if before.None? || size.None? || align.None? then None
      else
        Some(Walked(
          RoundUp(before.value.end, align.value) + size.value,
          if align.value > before.value.align then align.value else before.value.align))
  }

  /** The fields before `i` have a layout, and so has `i`. */
  predicate LaidOut(fields: seq<Field>, i: nat) {
    i < |fields| && Walk(fields, i + 1).Some?
  }

  function FieldOffset(fields: seq<Field>, i: nat): nat
    requires LaidOut(fields, i)
  {
    RoundUp(Walk(fields, i).value.end, Align(fields[i].ty).value)
  }

  function FieldEnd(fields: seq<Field>, i: nat): nat
    requires LaidOut(fields, i)
  {
    Walk(fields, i + 1).value.end
  }

  lemma FieldSpan(fields: seq<Field>, i: nat)
    requires LaidOut(fields, i)
    ensures Size(fields[i].ty).Some? && FieldEnd(fields, i) == FieldOffset(fields, i) + Size(fields[i].ty).value
  {
  }

  lemma {:induction false} EndsGrow(fields: seq<Field>, i: nat, n: nat)
    requires i <= n <= |fields| && Walk(fields, n).Some?
    ensures Walk(fields, i).Some? && Walk(fields, i).value.end <= Walk(fields, n).value.end
    decreases n
  {
    if i < n {
      EndsGrow(fields, i, n - 1);
    }
  }

  /** Fields of one aggregate lie one after the other, inside it. */
  lemma FieldsApart(fields: seq<Field>, i: nat, j: nat)
    requires i < j < |fields| && LaidOut(fields, j)
    ensures LaidOut(fields, i) && FieldEnd(fields, i) <= FieldOffset(fields, j)
  {
    EndsGrow(fields, i + 1, j);
    EndsGrow(fields, j, j + 1);
  }

  lemma FieldInside(fields: seq<Field>, i: nat)
    requires i < |fields| && Size(Aggregate(fields)).Some?
    ensures LaidOut(fields, i) && FieldEnd(fields, i) <= Size(Aggregate(fields)).value
  {
    EndsGrow(fields, i + 1, |fields|);
  }

  // ---- alignment ----------------------------------------------------------------------------------------

  /** Every alignment there is; that of an integer is its own size. */
  lemma Alignments(t: Type)
    ensures Align(t).Some? ==> Align(t).value in {1, 2, 3, 4, 8}
    ensures t.Wide? || (t.Plain? && t.size in {1, 2, 4}) ==> Align(t) == Size(t)
  {
  }

  /** Rounding up to a power of two gives a multiple of it. A size of three is an alignment of three, and
      then rounding only clears one bit. */
  lemma RoundedIsMultiple(offset: nat, k: nat)
    ensures Pow2(k) > 0 && RemNat(RoundUp(offset, Pow2(k)), Pow2(k)) == 0
  {
    hide AndBits, RemNat, Pow2;
    Pow2Positive(k);
    AndLowBits(k, offset + (Pow2(k) - 1));
    RoundedDown(offset + (Pow2(k) - 1), Pow2(k));
  }

  lemma RoundOneToThree()
    ensures RoundUp(1, 3) == 1
  {
    assert AndBits(3, 2) == 2 by {
      assert AndBits(1, 1) == 1;
    }
  }

  ghost predicate RoundsToMultiples(a: nat)
    requires a > 0
  {
    forall x: nat :: RemNat(RoundUp(x, a), a) == 0
  }

  /** Rounding to an alignment gives multiples of it if and only if the alignment is not three. */
  lemma RoundingExact(t: Type)
    requires Align(t).Some?
    ensures RoundsToMultiples(Align(t).value) <==> Align(t).value != 3
  {
    var a := Align(t).value;
    Alignments(t);
    if a == 3 {
      RoundOneToThree();
      assert RemNat(RoundUp(1, 3), 3) != 0;
    } else {
      var k: nat := if a == 1 then 0 else if a == 2 then 1 else if a == 4 then 2 else 3;
      assert Pow2(k) == a by {
        assert Pow2(1) == 2 && Pow2(2) == 4 && Pow2(3) == 8;
      }
      forall x: nat
        ensures RemNat(RoundUp(x, a), a) == 0
      {
        RoundedIsMultiple(x, k);
      }
    }
  }

  lemma {:induction false} WalkOfPrefix(before: seq<Field>, f: Field, n: nat)
    requires n <= |before|
    ensures Walk(before + [f], n) == Walk(before, n)
    decreases n
  {
    hide Size, Align, RoundUp;
    if n > 0 {
      WalkOfPrefix(before, f, n - 1);
    }
  }

  /** A field that follows `before` has a place, which is where `before` ends, rounded up. */
  lemma PlacedAfter(before: seq<Field>, f: Field)
    requires Walk(before, |before|).Some? && Align(f.ty).Some?
    ensures LaidOut(before + [f], |before|)
    ensures FieldOffset(before + [f], |before|) == RoundUp(Walk(before, |before|).value.end, Align(f.ty).value)
  {
    WalkOfPrefix(before, f, |before|);
  }

  /** After whatever fields that have a layout, the field's offset is a multiple of its alignment. */
  ghost predicate AlwaysAligned(f: Field)
    requires Align(f.ty).Some?
  {
    forall before: seq<Field> {:trigger Walk(before, |before|)} | Walk(before, |before|).Some? ::
      LaidOut(before + [f], |before|) && RemNat(FieldOffset(before + [f], |before|), Align(f.ty).value) == 0
  }

  /** A field is at a multiple of its alignment after every prefix if and only if that is not three. */
  lemma FieldsAlignedExactly(f: Field)
    requires Align(f.ty).Some?
    ensures AlwaysAligned(f) <==> Align(f.ty).value != 3
  {
    hide Walk, RoundUp, Align, RemNat, FieldOffset, LaidOut;
    var a := Align(f.ty).value;
    RoundingExact(f.ty);
    if a == 3 {
      ThreeIsNoAlignment(f);
    } else {
      forall before: seq<Field> | Walk(before, |before|).Some?
        ensures LaidOut(before + [f], |before|) && RemNat(FieldOffset(before + [f], |before|), a) == 0
      {
        PlacedAfter(before, f);
      }
    }
  }

  lemma OneByte()
    ensures Walk([Field("a", Plain(1))], 1) == Some(Walked(1, 1)) && Align(Plain(3)) == Some(3)
  {
    var before := [Field("a", Plain(1))];
    assert Walk(before, 0) == Some(Walked(0, 1));
    assert RoundUp(0, 1) == 0;
  }

  /** The failing layout: what has an alignment of three, behind one byte, is at offset 1. */
  lemma ThreeIsNoAlignment(f: Field)
    requires Align(f.ty) == Some(3)
    ensures var before := [Field("a", Plain(1))];
      && Walk(before, 1) == Some(Walked(1, 1)) && LaidOut(before + [f], 1)
      && FieldOffset(before + [f], 1) == 1 && RemNat(1, 3) == 1
    ensures Align(Plain(3)) == Some(3) && !AlwaysAligned(f)
  {
    hide Walk, RoundUp, Align, FieldOffset, LaidOut;
    OneByte();
    PlacedAfter([Field("a", Plain(1))], f);
    RoundOneToThree();
  }

  // ---- the size of an aggregate -----------------------------------------------------------------------------

  /** The largest alignment of any field; 1 where there are none. */
  ghost predicate IsLargestAlignment(fields: seq<Field>, a: nat) {
    && (forall i :: 0 <= i < |fields| ==> Align(fields[i].ty).Some? && Align(fields[i].ty).value <= a)
    && (if fields == [] then a == 1 else exists i :: 0 <= i < |fields| && Align(fields[i].ty) == Some(a))
  }

  lemma {:induction false} WalkedAlign(fields: seq<Field>, n: nat)
    requires n <= |fields| && Walk(fields, n).Some?
    ensures forall i :: 0 <= i < n ==>
      Align(fields[i].ty).Some? && Align(fields[i].ty).value <= Walk(fields, n).value.align
    ensures if n == 0 then Walk(fields, n).value.align == 1
      else exists i :: 0 <= i < n && Align(fields[i].ty) == Some(Walk(fields, n).value.align)
    decreases n
  {
    hide Size, Align, RoundUp;
    if n > 0 {
      AlignPositive(fields[n - 1].ty);
      WalkedAlign(fields, n - 1);
      var a := Walk(fields, n).value.align;
      if a == Walk(fields, n - 1).value.align && n > 1 {
        var i :| 0 <= i < n - 1 && Align(fields[i].ty) == Some(a);
        assert 0 <= i < n;
      } else {
        assert Align(fields[n - 1].ty) == Some(a);
      }
    }
  }

  lemma AlignPositive(t: Type)
    ensures Align(t).Some? ==> Align(t).value >= 1
  {
  }

  /** There is just one, and it is the one that the walk finds. */
  lemma LargestIsWalked(fields: seq<Field>, a: nat)
    requires Walk(fields, |fields|).Some? && IsLargestAlignment(fields, a)
    ensures Walk(fields, |fields|).value.align == a
  {
    hide Walk, Align;
    WalkedAlign(fields, |fields|);
  }

  lemma SizeIs(fields: seq<Field>, a: nat)
    requires Size(Aggregate(fields)).Some? && IsLargestAlignment(fields, a)
    ensures a in {1, 2, 3, 4, 8} && Walk(fields, |fields|).Some?
    ensures Size(Aggregate(fields)).value == RoundUp(Walk(fields, |fields|).value.end, a)
  {
    hide Walk, Align, RoundUp;
    LargestIsWalked(fields, a);
    if fields != [] {
      var i :| 0 <= i < |fields| && Align(fields[i].ty) == Some(a);
      Alignments(fields[i].ty);
    }
    RoundUpToOne(Walk(fields, |fields|).value.end);
  }

  lemma RoundUpToOne(x: nat)
    ensures RoundUp(x, 1) == x
  {
  }

  /** When the largest alignment is not three, the size is the least multiple of it that no field's end is
      beyond. */
  lemma SizeIsLeast(fields: seq<Field>, a: nat)
    requires Size(Aggregate(fields)).Some? && IsLargestAlignment(fields, a) && a != 3
    ensures a > 0
    ensures var size := Size(Aggregate(fields)).value;
      && RemNat(size, a) == 0
      && (forall i: nat :: i < |fields| ==> LaidOut(fields, i) && FieldEnd(fields, i) <= size)
      && forall m: nat :: RemNat(m, a) == 0 && (forall i: nat :: i < |fields| ==> FieldEnd(fields, i) <= m) ==>
        size <= m
  {
    hide Walk, Align, RoundUp, Size, FieldEnd, RemNat;
    SizeIs(fields, a);
    var end := Walk(fields, |fields|).value.end;
    var size := Size(Aggregate(fields)).value;
    RoundedSize(end, a);
    forall i: nat | i < |fields|
      ensures LaidOut(fields, i) && FieldEnd(fields, i) <= size
    {
      FieldInside(fields, i);
    }
    forall m: nat | RemNat(m, a) == 0 && forall i: nat :: i < |fields| ==> FieldEnd(fields, i) <= m
      ensures size <= m
    {
      LastEnd(fields);
      LeastMultiple(size, m, a);
    }
  }

  lemma LastEnd(fields: seq<Field>)
    requires Walk(fields, |fields|).Some?
    ensures if fields == [] then Walk(fields, |fields|).value.end == 0
      else LaidOut(fields, |fields| - 1) && FieldEnd(fields, |fields| - 1) == Walk(fields, |fields|).value.end
  {
  }

  /** Two multiples are at least `a` apart. */
  lemma {:induction false} LeastMultiple(size: nat, m: nat, a: nat)
    requires a > 0 && RemNat(size, a) == 0 && RemNat(m, a) == 0 && size < m + a
    ensures size <= m
    decreases m
  {
    if m >= a && size >= a {
      LeastMultiple(size - a, m - a, a);
    }
  }

  lemma RoundedSize(end: nat, a: nat)
    requires a in {1, 2, 4, 8}
    ensures RemNat(RoundUp(end, a), a) == 0 && RoundUp(end, a) < end + a
  {
    hide AndBits, Pow2, RemNat;
    PowersOfTwo();
    var k: nat := if a == 1 then 0 else if a == 2 then 1 else if a == 4 then 2 else 3;
    RoundedIsMultiple(end, k);
  }

  lemma PowersOfTwo()
    ensures Pow2(0) == 1 && Pow2(1) == 2 && Pow2(2) == 4 && Pow2(3) == 8
  {
  }

  lemma {:induction false} SumOfMultiples(x: nat, y: nat, n: nat)
    requires n > 0 && RemNat(x, n) == 0 && RemNat(y, n) == 0
    ensures RemNat(x + y, n) == 0
    decreases x
  {
    if x >= n {
      SumOfMultiples(x - n, y, n);
      assert x + y - n == (x - n) + y;
    }
  }

  /** `k` times `size`. */
  function Repeated(k: nat, size: nat): nat {
    if k == 0 then 0 else Repeated(k - 1, size) + size
  }

  lemma {:induction false} RepeatedIsProduct(k: nat, size: nat)
    ensures Repeated(k, size) == k * size
  {
    if k > 0 {
      RepeatedIsProduct(k - 1, size);
    }
  }

  lemma {:induction false} RepeatedMultiple(k: nat, size: nat, n: nat)
    requires n > 0 && RemNat(size, n) == 0
    ensures RemNat(Repeated(k, size), n) == 0
    decreases k
  {
    hide RemNat;
    if k > 0 {
      RepeatedMultiple(k - 1, size, n);
      SumOfMultiples(Repeated(k - 1, size), size, n);
    } else {
      ZeroMultiple(n);
    }
  }

  lemma ZeroMultiple(n: nat)
    requires n > 0
    ensures RemNat(0, n) == 0
  {
  }

  lemma {:induction false} HalfDivides(x: nat, h: nat)
    requires h > 0 && RemNat(x, h + h) == 0
    ensures RemNat(x, h) == 0
    decreases x
  {
    if x >= h + h {
      HalfDivides(x - (h + h), h);
      assert RemNat(x - h, h) == RemNat(x - h - h, h);
    }
  }

  /** A smaller power of two divides what a larger one divides. */
  lemma DividesToo(x: nat, a: nat, b: nat)
    requires a in {1, 2, 4, 8} && b in {1, 2, 4, 8} && b <= a && RemNat(x, a) == 0
    ensures RemNat(x, b) == 0
  {
    hide RemNat;
    if a == 8 {
      HalfDivides(x, 4);
    }
    if a >= 4 {
      HalfDivides(x, 2);
    }
    RemainderOfOne(x);
  }

  /** So of several such aggregates end to end, every field of every one is at a multiple of its alignment. */
  lemma ArraysStayAligned(fields: seq<Field>, a: nat, k: nat, j: nat)
    requires Size(Aggregate(fields)).Some? && IsLargestAlignment(fields, a) && a != 3
    requires j < |fields| && Align(fields[j].ty) != Some(3)
    ensures LaidOut(fields, j) && Align(fields[j].ty).Some? && Align(fields[j].ty).value > 0
    ensures k * Size(Aggregate(fields)).value >= 0
    ensures RemNat(k * Size(Aggregate(fields)).value + FieldOffset(fields, j), Align(fields[j].ty).value) == 0
  {
    hide Walk, RoundUp, Size, Align, RemNat;
    SizeIs(fields, a);
    var size, aj := Size(Aggregate(fields)).value, Align(fields[j].ty).value;
    SizeIsLeast(fields, a);
    Alignments(fields[j].ty);
    DividesToo(size, a, aj);
    RepeatedMultiple(k, size, aj);
    RepeatedIsProduct(k, size);
    EarlierLaid(fields, j);
    RoundedSize(Walk(fields, j).value.end, aj);
    SumOfMultiples(Repeated(k, size), FieldOffset(fields, j), aj);
  }

  // ---- fields of fields -------------------------------------------------------------------------------------

  function Owner(fields: seq<Field>): Field { Field("owner", Aggregate(fields)) }

  /** Wherever an aggregate is a field, behind whatever fields, its own field `j` is at a multiple of its
      alignment. */
  ghost predicate AlwaysAlignedInside(fields: seq<Field>, j: nat)
    requires LaidOut(fields, j) && Align(fields[j].ty).Some? && Align(fields[j].ty).value > 0
  {
    forall before: seq<Field> {:trigger Walk(before, |before|)} | Walk(before, |before|).Some? ::
      && LaidOut(before + [Owner(fields)], |before|)
      && RemNat(FieldOffset(before + [Owner(fields)], |before|) + FieldOffset(fields, j), Align(fields[j].ty).value)
        == 0
  }

  lemma {:induction false} RemainderShifts(x: nat, c: nat, n: nat)
    requires n > 0 && RemNat(x, n) == 0
    ensures RemNat(x + c, n) == RemNat(c, n)
    decreases x
  {
    if x >= n {
      RemainderShifts(x - n, c, n);
      assert x + c - n == (x - n) + c;
    }
  }

  lemma SmallRemainders()
    ensures RemNat(4, 8) == 4 && RemNat(4, 3) == 1
  {
    assert RemNat(1, 3) == 1;
  }

  /** Where the owner is when it comes first, and when it comes behind four bytes. */
  lemma OwnerPlaces(fields: seq<Field>)
    requires Align(Aggregate(fields)) == Some(4)
    ensures var none, four: seq<Field> := [], [Field("a", Plain(4))];
      && Walk(none, 0).Some? && LaidOut(none + [Owner(fields)], 0) && FieldOffset(none + [Owner(fields)], 0) == 0
      && Walk(four, 1).Some? && LaidOut(four + [Owner(fields)], 1) && FieldOffset(four + [Owner(fields)], 1) == 4
  {
    hide Size, FieldOffset, LaidOut, RoundUp, Align;
    var none, four: seq<Field> := [], [Field("a", Plain(4))];
    Alignments(Plain(4));
    assert Size(Plain(4)) == Some(4) by { PlainSize(4); }
    RoundedZero();
    assert Walk(none, 0) == Some(Walked(0, 1)) && Walk(four, 0) == Some(Walked(0, 1));
    assert Walk(four, 1) == Some(Walked(4, 4));
    PlacedAfter(none, Owner(fields));
    PlacedAfter(four, Owner(fields));
  }

  lemma PlainSize(n: nat)
    ensures Size(Plain(n)) == Some(n)
  {
  }

  lemma RoundedZero()
    ensures RoundUp(0, 4) == 0 && RoundUp(4, 4) == 4
  {
    hide RemNat;
    RoundedSize(0, 4); RoundedSize(4, 4);
    FourApart(RoundUp(0, 4)); FourApart(RoundUp(4, 4));
  }

  lemma FourApart(x: nat)
    requires RemNat(x, 4) == 0 && x < 8
    ensures x == 0 || x == 4
  {
  }

  /** Alignments stop at four for what holds fields, so a 64-bit integer in an aggregate in an aggregate is
      not always at a multiple of eight; what has an alignment of one, two or four is. */
  lemma InsideAlignedExactly(fields: seq<Field>, a: nat, j: nat)
    requires Size(Aggregate(fields)).Some? && Size(Aggregate(fields)).value > 0
    requires IsLargestAlignment(fields, a) && a != 3 && j < |fields|
    ensures LaidOut(fields, j) && Align(fields[j].ty).Some? && Align(fields[j].ty).value > 0
    ensures AlwaysAlignedInside(fields, j) <==> Align(fields[j].ty).value !in {3, 8}
  {
    hide Walk, RoundUp, Size, Align, RemNat, FieldOffset, LaidOut;
    FieldInside(fields, j);
    AlignPositive(fields[j].ty);
    Alignments(fields[j].ty);
    assert Align(fields[j].ty).Some? && Align(fields[j].ty).value <= a;
    var size, aj, o := Size(Aggregate(fields)).value, Align(fields[j].ty).value, FieldOffset(fields, j);
    SizeIs(fields, a);
    SizeIsLeast(fields, a);
    OwnerAlign(fields);
    if aj in {3, 8} {
      assert RemNat(size, 4) == 0 by { DividesToo(size, a, 4); }
      assert size >= 4 by { AtLeastFour(size); }
      OwnerPlaces(fields);
      SmallRemainders();
      if AlwaysAlignedInside(fields, j) {
        var none, four: seq<Field> := [], [Field("a", Plain(4))];
        assert Walk(none, |none|).Some? && Walk(four, |four|).Some?;
        RemainderShifts(o, 4, aj);
      }
    } else {
      InsideAligned(fields, a, j);
    }
  }

  lemma AtLeastFour(size: nat)
    requires size > 0 && RemNat(size, 4) == 0
    ensures size >= 4
  {
  }

  lemma OwnerAlign(fields: seq<Field>)
    requires Size(Aggregate(fields)).Some? && Size(Aggregate(fields)).value > 0
    ensures var size := Size(Aggregate(fields)).value; Align(Aggregate(fields)) == Some(if size >= 4 then 4 else size)
  {
    hide Size;
  }

  lemma InsideAligned(fields: seq<Field>, a: nat, j: nat)
    requires Size(Aggregate(fields)).Some? && Size(Aggregate(fields)).value > 0
    requires IsLargestAlignment(fields, a) && a != 3 && j < |fields| && LaidOut(fields, j)
    requires Align(fields[j].ty).Some? && Align(fields[j].ty).value in {1, 2, 4}
    ensures AlwaysAlignedInside(fields, j)
  {
    hide Walk, RoundUp, Size, Align, RemNat, FieldOffset, LaidOut;
    var size, aj, o := Size(Aggregate(fields)).value, Align(fields[j].ty).value, FieldOffset(fields, j);
    var owner := Owner(fields);
    SizeIs(fields, a);
    SizeIsLeast(fields, a);
    OwnerAlign(fields);
    DividesToo(size, a, aj);
    SmallMultiples(size, aj);
    assert RemNat(o, aj) == 0 by { PlacedAligned(fields, j); }
    forall before: seq<Field> | Walk(before, |before|).Some?
      ensures LaidOut(before + [owner], |before|) && RemNat(FieldOffset(before + [owner], |before|) + o, aj) == 0
    {
      PlacedAfter(before, owner);
      var x := Walk(before, |before|).value.end;
      if aj > 1 {
        RoundedSize(x, Align(owner.ty).value);
        DividesToo(RoundUp(x, Align(owner.ty).value), Align(owner.ty).value, aj);
      } else {
        RemainderOfOne(RoundUp(x, Align(owner.ty).value));
      }
      SumOfMultiples(FieldOffset(before + [owner], |before|), o, aj);
    }
  }

  lemma SmallMultiples(size: nat, aj: nat)
    requires size > 0 && aj in {1, 2, 4} && RemNat(size, aj) == 0
    ensures size >= aj && (aj == 2 && size < 4 ==> size == 2)
  {
    assert RemNat(3, 2) == RemNat(1, 2) == 1;
  }

  lemma PlacedAligned(fields: seq<Field>, j: nat)
    requires LaidOut(fields, j) && Align(fields[j].ty).Some? && Align(fields[j].ty).value in {1, 2, 4, 8}
    ensures RemNat(FieldOffset(fields, j), Align(fields[j].ty).value) == 0
  {
    hide Walk, RoundUp, Size, Align, RemNat;
    EndsGrow(fields, j, j + 1);
    RoundedSize(Walk(fields, j).value.end, Align(fields[j].ty).value);
  }

  /** The failing layout: four bytes, and an aggregate of one 64-bit integer, which is at offset 4. */
  lemma WideInside()
    ensures var fields := [Field("w", Wide)];
      && Size(Aggregate(fields)) == Some(8) && IsLargestAlignment(fields, 8) && LaidOut(fields, 0)
      && FieldOffset(fields, 0) == 0 && LaidOut([Field("a", Plain(4))] + [Owner(fields)], 1)
      && FieldOffset([Field("a", Plain(4))] + [Owner(fields)], 1) == 4
  {
    hide RoundUp, RemNat;
    var fields := [Field("w", Wide)];
    assert Walk(fields, 0) == Some(Walked(0, 1));
    RoundedEight();
    assert Walk(fields, 1) == Some(Walked(8, 8));
    assert Align(fields[0].ty) == Some(8);
    OwnerPlaces(fields);
  }

  lemma RoundedEight()
    ensures RoundUp(0, 8) == 0 && RoundUp(8, 8) == 8
  {
    hide RoundUp;
    RoundedSize(0, 8); RoundedSize(8, 8);
    EightApart(RoundUp(0, 8)); EightApart(RoundUp(8, 8));
  }

  lemma EightApart(x: nat)
    requires RemNat(x, 8) == 0 && x < 16
    ensures x == 0 || x == 8
  {
  }

  // An alignment of three again: only one bit is cleared.

  lemma RoundedToThree(x: nat)
    ensures RoundUp(x, 3) == if x % 4 < 2 then x else x + 2
  {
    AndStep(x + 2, 2);
    AndStep((x + 2) / 2, 1);
  }

  /** When it is three, the size is the end of the fields or two bytes more, and a multiple of three exactly
      for these ends. */
  lemma SizeAtThree(fields: seq<Field>)
    requires Size(Aggregate(fields)).Some? && IsLargestAlignment(fields, 3)
    ensures Walk(fields, |fields|).Some?
    ensures var end, size := Walk(fields, |fields|).value.end, Size(Aggregate(fields)).value;
      && size == (if end % 4 < 2 then end else end + 2)
      && (RemNat(size, 3) == 0 <==> RemNat(end, 12) in {0, 7, 9, 10})
  {
    hide Walk, Align, RoundUp, Size, RemNat;
    SizeIs(fields, 3);
    RoundedToThree(Walk(fields, |fields|).value.end);
    ThreeExactly(Walk(fields, |fields|).value.end);
  }

  lemma {:induction false} ThreeExactly(end: nat)
    ensures RemNat(if end % 4 < 2 then end else end + 2, 3) == 0 <==> RemNat(end, 12) in {0, 7, 9, 10}
    decreases end
  {
    if end >= 12 {
      ThreeExactly(end - 12);
      assert (end - 12) % 4 == end % 4;
      var x := if end % 4 < 2 then end else end + 2;
      assert RemNat(x, 3) == RemNat(x - 3, 3) == RemNat(x - 6, 3) == RemNat(x - 9, 3) == RemNat(x - 12, 3);
    } else {
      SmallThrees();
      assert RemNat(end, 12) == end;
    }
  }

  lemma SmallThrees()
    ensures RemNat(0, 3) == RemNat(3, 3) == RemNat(6, 3) == RemNat(9, 3) == RemNat(12, 3) == 0
    ensures RemNat(1, 3) == RemNat(4, 3) == RemNat(7, 3) == RemNat(10, 3) == RemNat(13, 3) == 1
    ensures RemNat(2, 3) == RemNat(5, 3) == RemNat(8, 3) == RemNat(11, 3) == 2
  {
    assert RemNat(3, 3) == RemNat(0, 3) && RemNat(4, 3) == RemNat(1, 3) && RemNat(5, 3) == RemNat(2, 3);
    assert RemNat(6, 3) == RemNat(3, 3) && RemNat(7, 3) == RemNat(4, 3) && RemNat(8, 3) == RemNat(5, 3);
    assert RemNat(9, 3) == RemNat(6, 3) && RemNat(10, 3) == RemNat(7, 3) && RemNat(11, 3) == RemNat(8, 3);
  }

  /** One byte and three: four bytes, so the next one's three bytes begin at 5. */
  lemma ThreeInArrays()
    ensures var fields := [Field("a", Plain(1)), Field("b", Plain(3))];
      && IsLargestAlignment(fields, 3) && Size(Aggregate(fields)) == Some(4)
      && LaidOut(fields, 1) && FieldOffset(fields, 1) == 1
  {
    hide RoundUp;
    var fields := [Field("a", Plain(1)), Field("b", Plain(3))];
    assert Walk(fields, 0) == Some(Walked(0, 1));
    RoundUpToOne(0);
    assert Walk(fields, 1) == Some(Walked(1, 1));
    RoundedToThree(1);
    RoundedToThree(4);
    assert Walk(fields, 2) == Some(Walked(4, 3));
    assert Align(fields[1].ty) == Some(3);
  }

  // ---- nested fields --------------------------------------------------------------------------------------

  type Path = seq<nat>

  /** The path leads from an aggregate's fields to a field. */
  predicate Leads(fields: seq<Field>, path: Path)
    decreases |path|
  {
    && path != [] && LaidOut(fields, path[0])
    && (|path| > 1 ==> fields[path[0]].ty.Aggregate? && Leads(fields[path[0]].ty.fields, path[1..]))
  }

  function FieldAt(fields: seq<Field>, path: Path): Field
    requires Leads(fields, path)
    decreases |path|
  {
    if |path| == 1 then fields[path[0]] else FieldAt(fields[path[0]].ty.fields, path[1..])
  }

  function OffsetAt(fields: seq<Field>, path: Path): nat
    requires Leads(fields, path)
    decreases |path|
  {
    FieldOffset(fields, path[0]) + if |path| == 1 then 0 else OffsetAt(fields[path[0]].ty.fields, path[1..])
  }

  function EndAt(fields: seq<Field>, path: Path): nat
    requires Leads(fields, path)
    decreases |path|
  {
    if |path| == 1 then FieldEnd(fields, path[0])
    else FieldOffset(fields, path[0]) + EndAt(fields[path[0]].ty.fields, path[1..])
  }

  lemma {:induction false} PathSpan(fields: seq<Field>, path: Path)
    requires Leads(fields, path)
    ensures var size := Size(FieldAt(fields, path).ty);
      size.Some? && EndAt(fields, path) == OffsetAt(fields, path) + size.value
    decreases |path|
  {
    FieldSpan(fields, path[0]);
    if |path| > 1 {
      PathSpan(fields[path[0]].ty.fields, path[1..]);
    }
  }

  /** A nested field lies inside the field that holds it. */
  lemma {:induction false} PathWithin(fields: seq<Field>, path: Path)
    requires Leads(fields, path)
    ensures FieldOffset(fields, path[0]) <= OffsetAt(fields, path) <= EndAt(fields, path) <= FieldEnd(fields, path[0])
    decreases |path|
  {
    FieldSpan(fields, path[0]);
    if |path| > 1 {
      var inner := fields[path[0]].ty.fields;
      PathWithin(inner, path[1..]);
      FieldInside(inner, path[1]);
    }
  }

  /** At any depth a field lies inside its owner. */
  lemma NestedInside(fields: seq<Field>, path: Path)
    requires Size(Aggregate(fields)).Some? && Leads(fields, path)
    ensures OffsetAt(fields, path) <= EndAt(fields, path) <= Size(Aggregate(fields)).value
  {
    PathWithin(fields, path);
    FieldInside(fields, path[0]);
  }

  predicate Diverge(p: Path, q: Path) {
    !(p <= q) && !(q <= p)
  }

  /** Fields neither of which holds the other are disjoint, at whatever depths they are. */
  lemma {:induction false} NestedApart(fields: seq<Field>, p: Path, q: Path)
    requires Leads(fields, p) && Leads(fields, q) && Diverge(p, q)
    ensures EndAt(fields, p) <= OffsetAt(fields, q) || EndAt(fields, q) <= OffsetAt(fields, p)
    decreases |p|
  {
    if p[0] != q[0] {
      PathWithin(fields, p);
      PathWithin(fields, q);
      if p[0] < q[0] {
        FieldsApart(fields, p[0], q[0]);
      } else {
        FieldsApart(fields, q[0], p[0]);
      }
    } else {
      assert p == [p[0]] + p[1..] && q == [q[0]] + q[1..];
      assert Diverge(p[1..], q[1..]);
      assert |p| > 1 && |q| > 1;
      NestedApart(fields[p[0]].ty.fields, p[1..], q[1..]);
    }
  }

  // ---- the search for a field -------------------------------------------------------------------------------

  const MAX_DEPTH := 16

  /** A search at the depth may find the path: it ends within the limit, at a field of that name. */
  predicate Candidate(fields: seq<Field>, name: string, depth: nat, path: Path) {
    depth + |path| <= MAX_DEPTH + 1 && path != [] && path[0] < |fields| && Leads(fields, path)
      && FieldAt(fields, path).name == name
  }

  /** One field of the walk, which goes on while fields have a layout. */
  lemma WalkStep(fields: seq<Field>, i: nat)
    requires i < |fields| && Walk(fields, i).Some?
    ensures LaidOut(fields, i) <==> Size(fields[i].ty).Some? && Align(fields[i].ty).Some?
    ensures LaidOut(fields, i) ==>
      && FieldOffset(fields, i) == RoundUp(Walk(fields, i).value.end, Align(fields[i].ty).value)
      && Walk(fields, i + 1).Some?
      && Walk(fields, i + 1).value.end == FieldOffset(fields, i) + Size(fields[i].ty).value
      && (fields[i].ty.Aggregate? ==> Walk(fields[i].ty.fields, |fields[i].ty.fields|).Some?)
  {
    hide RoundUp;
  }

  /** Behind a field without a layout there is none. */
  lemma NoneBehind(fields: seq<Field>, i: nat)
    requires i < |fields| && !LaidOut(fields, i)
    ensures Walk(fields, |fields|).None?
    ensures forall j: nat :: i <= j ==> !LaidOut(fields, j)
  {
    if Walk(fields, |fields|).Some? {
      EndsGrow(fields, i + 1, |fields|);
    }
    forall j: nat | i <= j
      ensures !LaidOut(fields, j)
    {
      if LaidOut(fields, j) {
        EndsGrow(fields, i + 1, j + 1);
      }
    }
  }

  lemma EarlierLaid(fields: seq<Field>, i: nat)
    requires i < |fields| && Walk(fields, |fields|).Some?
    ensures LaidOut(fields, i) && Walk(fields, i).Some?
  {
    EndsGrow(fields, i + 1, |fields|);
    EndsGrow(fields, i, i + 1);
  }

  lemma NothingWalked(fields: seq<Field>)
    ensures Walk(fields, 0) == Some(Walked(0, 1))
  {
  }

  /** A field of the aggregate itself, before any nested one; the search gives up at the first field
      that has no layout. */
  method FindDirect(fields: seq<Field>, name: string) returns (r: Option<nat>, offset: nat, complete: bool)
    ensures r.Some? ==>
      r.value < |fields| && LaidOut(fields, r.value) && fields[r.value].name == name
      && offset == FieldOffset(fields, r.value)
    ensures r.Some? ==> forall j :: 0 <= j < r.value ==> fields[j].name != name
    ensures r.None? ==> forall j :: 0 <= j < |fields| && LaidOut(fields, j) ==> fields[j].name != name
    ensures r.None? ==> complete == Walk(fields, |fields|).Some?
  {
    hide Walk, RoundUp, Size, Align, FieldOffset, LaidOut;
    NothingWalked(fields);
    var end := 0;
    var i := 0;
    offset := 0;
    while i < |fields|
      invariant 0 <= i <= |fields| && Walk(fields, i).Some? && end == Walk(fields, i).value.end
      invariant forall j :: 0 <= j < i ==> fields[j].name != name
    {
      WalkStep(fields, i);
      var size, align := Size(fields[i].ty), Align(fields[i].ty);
      if size.None? || align.None? {
        NoneBehind(fields, i);
        return None, 0, false;
      }
      offset := RoundUp(end, align.value);
      if fields[i].name == name {
        return Some(i), offset, true;
      }
      end := offset + size.value;
      i := i + 1;
    }
    r, complete := None, true;
  }

  lemma DirectPath(fields: seq<Field>, i: nat)
    requires i < |fields| && LaidOut(fields, i)
    ensures Leads(fields, [i]) && FieldAt(fields, [i]) == fields[i] && OffsetAt(fields, [i]) == FieldOffset(fields, i)
  {
  }

  lemma NestedPath(fields: seq<Field>, i: nat, path: Path)
    requires i < |fields| && LaidOut(fields, i) && fields[i].ty.Aggregate? && Leads(fields[i].ty.fields, path)
    ensures Leads(fields, [i] + path) && FieldAt(fields, [i] + path) == FieldAt(fields[i].ty.fields, path)
    ensures OffsetAt(fields, [i] + path) == FieldOffset(fields, i) + OffsetAt(fields[i].ty.fields, path)
  {
    assert ([i] + path)[1..] == path;
  }

  /** Fields of the aggregate itself are candidates if they have a layout and the name. */
  lemma DirectCandidates(fields: seq<Field>, name: string, depth: nat)
    requires forall j :: 0 <= j < |fields| && LaidOut(fields, j) ==> fields[j].name != name
    ensures forall i: nat :: !Candidate(fields, name, depth, [i])
  {
    hide LaidOut;
    forall i: nat
      ensures !Candidate(fields, name, depth, [i])
    {
      if Candidate(fields, name, depth, [i]) {
        CandidateLaid(fields, name, depth, [i]);
      }
    }
  }

  lemma CandidateLaid(fields: seq<Field>, name: string, depth: nat, path: Path)
    requires Candidate(fields, name, depth, path)
    ensures LaidOut(fields, path[0]) && (|path| == 1 ==> fields[path[0]].name == name)
  {
    hide LaidOut;
  }

  /**
   * The search goes through the aggregate's own fields, and then into each that is an aggregate. It
   * finds a field of the name, with its offset, if there is one down to the depth limit; in an
   * aggregate without a layout, only among its own fields before the first that has none.
   */
  method FindField(fields: seq<Field>, name: string, depth: nat) returns (r: Option<Path>, offset: nat)
    ensures r.Some? ==> Candidate(fields, name, depth, r.value) && offset == OffsetAt(fields, r.value)
    ensures r.Some? && |r.value| > 1 ==>
      Walk(fields, |fields|).Some? && forall i: nat :: !Candidate(fields, name, depth, [i])
    ensures r.None? && depth <= MAX_DEPTH ==> forall i: nat :: !Candidate(fields, name, depth, [i])
    ensures r.None? && depth <= MAX_DEPTH && Walk(fields, |fields|).Some? ==>
      forall path: Path :: !Candidate(fields, name, depth, path)
    decreases fields
  {
    hide Walk, RoundUp, Size, Align, FieldOffset, LaidOut, Leads, FieldAt, OffsetAt, Candidate;
    if depth > MAX_DEPTH {
      return None, 0;
    }
    var direct, at, complete := FindDirect(fields, name);
    if direct.Some? {
      DirectFound(fields, name, depth, direct.value);
      return Some([direct.value]), at;
    }
    DirectCandidates(fields, name, depth);
    if !complete {
      return None, 0;
    }
    NothingWalked(fields);
    var end := 0;
    var i := 0;
    while i < |fields|
      invariant 0 <= i <= |fields| && Walk(fields, i).Some? && end == Walk(fields, i).value.end
      invariant forall path: Path :: Candidate(fields, name, depth, path) ==> path == [] || path[0] >= i
    {
      EarlierLaid(fields, i);
      WalkStep(fields, i);
      var start := RoundUp(end, Align(fields[i].ty).value);
      if fields[i].ty.Aggregate? {
        var inner := fields[i].ty.fields;
        var nested, nestedAt := FindField(inner, name, depth + 1);
        if nested.Some? {
          NestedFound(fields, name, depth, i, nested.value);
          return Some([i] + nested.value), start + nestedAt;
        }
      }
      NotThrough(fields, name, depth, depth + 1, i);
      end := start + Size(fields[i].ty).value;
      i := i + 1;
    }
    AllIndices(fields, name, depth);
    r, offset := None, 0;
  }

  lemma DirectFound(fields: seq<Field>, name: string, depth: nat, i: nat)
    requires depth <= MAX_DEPTH && i < |fields| && LaidOut(fields, i) && fields[i].name == name
    ensures Candidate(fields, name, depth, [i]) && OffsetAt(fields, [i]) == FieldOffset(fields, i)
  {
    hide LaidOut, FieldOffset;
    DirectPath(fields, i);
  }

  lemma NestedFound(fields: seq<Field>, name: string, depth: nat, i: nat, path: Path)
    requires i < |fields| && LaidOut(fields, i) && fields[i].ty.Aggregate?
    requires Candidate(fields[i].ty.fields, name, depth + 1, path)
    ensures Candidate(fields, name, depth, [i] + path) && Leads(fields[i].ty.fields, path)
    ensures OffsetAt(fields, [i] + path) == FieldOffset(fields, i) + OffsetAt(fields[i].ty.fields, path)
  {
    hide LaidOut, FieldOffset, Leads, FieldAt, OffsetAt;
    NestedPath(fields, i, path);
  }

  lemma AllIndices(fields: seq<Field>, name: string, depth: nat)
    requires forall path: Path :: Candidate(fields, name, depth, path) ==> path == [] || path[0] >= |fields|
    ensures forall path: Path :: !Candidate(fields, name, depth, path)
  {
    forall path: Path
      ensures !Candidate(fields, name, depth, path)
    {
      if Candidate(fields, name, depth, path) {
        CandidateLaid(fields, name, depth, path);
      }
    }
  }

  /** Where neither the field nor what it holds has the name, no candidate leads through it. */
  lemma NotThrough(fields: seq<Field>, name: string, depth: nat, next: nat, i: nat)
    requires depth <= MAX_DEPTH && next == depth + 1 && i < |fields| && fields[i].name != name
    requires fields[i].ty.Aggregate? && depth < MAX_DEPTH ==>
      forall path: Path :: !Candidate(fields[i].ty.fields, name, next, path)
    ensures forall path: Path :: Candidate(fields, name, depth, path) ==> path != [] && path[0] != i
  {
    forall path: Path | Candidate(fields, name, depth, path)
      ensures path != [] && path[0] != i
    {
      if |path| > 1 && path[0] == i {
        Inner(fields, name, depth, path);
      }
    }
  }

  lemma Inner(fields: seq<Field>, name: string, depth: nat, path: Path)
    requires Candidate(fields, name, depth, path) && |path| > 1
    ensures depth < MAX_DEPTH && Candidate(fields[path[0]].ty.fields, name, depth + 1, path[1..])
  {
    hide Walk, RoundUp, Size, Align;
    assert Leads(fields[path[0]].ty.fields, path[1..]);
  }
}
