/** Exactly when `serialize_copy` leaves every leaf where the serialized type, under which the buffer is shared,
    has it. */
module SerializePlaced {
  import opened Alignment
  import opened Datatypes
  import opened DensifyAlgebra
  import opened DenseCopy
  import opened Leaves
  import opened Serialize
  import opened SerializeLeaves
  import opened SerializeWrites
  import opened SerializeRoundTrip
  import opened SerializeExact

  // ----- the layout of the serialized type -----

  /** Where the serialized type has the leaf. */
  ghost function SerialOffset(t: Type, p: Path): (o: nat)
    requires Reaches(t, p)
    ensures o == Position(Laid, t, 0, p)
  {
    SerialLeaf(t, 0, p);
    OffsetOf(SerializeType(t), p)
  }

  /** `ser` holds at `s`, laid out as `SerializeType(t)`, the leaves of the value at `a`. */
  ghost predicate SerialImage(t: Type, ser: seq<Byte>, s: nat, memory: seq<Byte>, a: nat) {
    forall p | Reaches(t, p) :: SameAt(ser, s + SerialOffset(t, p), memory, Source(t, memory, a, p))
  }

  /** Every leaf is written where the serialized type has it. */
  ghost predicate InLayout(t: Type) {
    forall p | Reaches(t, p) :: Position(Written, t, 0, p) == SerialOffset(t, p)
  }

  /** The serialized type has each leaf at a place of its own. */
  lemma {:induction false} LaidApart(t: Type, x: nat, p: Path, q: Path)
    requires WellFormed(t) && Aligned(x, SerialAlignment(t)) && Reaches(t, p) && Reaches(t, q)
    requires Position(Laid, t, x, p) == Position(Laid, t, x, q)
    ensures p == q
    decreases t, 0
  {
    hide Span, Aligned, Padding;
    match t
    case Scalar(_, _, _) =>
    case Pointer(target) => LaidApart(target, x, p, q);
    case Array(element, _, _, subsize) =>
      ElementLaidInside(element, x, p.i, subsize, p.rest);
      ElementLaidInside(element, x, q.i, subsize, q.rest);
      var b := SerialSize(element);
      SameIndex(p.i, q.i, b, Position(Laid, element, x + Span(p.i, b), p.rest) - x - Span(p.i, b),
                Position(Laid, element, x + Span(q.i, b), q.rest) - x - Span(q.i, b));
      LaidApart(element, x + Span(p.i, b), p.rest, q.rest);
    case Compound(_, fields, _) =>
      PackKeeps(SerializeEach(fields), 0, 0);
      FieldsLaidApart(fields, 0, x, p.i, p.rest, q.i, q.rest);
  }

  lemma ElementLaidInside(t: Type, x: nat, i: nat, n: nat, p: Path)
    requires WellFormed(t) && Aligned(x, SerialAlignment(t)) && Reaches(t, p) && i < n
    ensures var from := x + Span(i, SerialSize(t));
      Aligned(from, SerialAlignment(t)) && from <= Position(Laid, t, from, p) < from + SerialSize(t)
  {
    hide Span, Aligned, WellFormed, Reaches, Position, SerialAlignment, SerialSize;
    ElementDue(Laid, t, x, x, i, n);
    var from := x + Span(i, SerialSize(t));
    PositionBound(Laid, t, from, from, p);
  }

  lemma {:induction false} FieldsLaidApart(fs: Fields, at: nat, x: nat, i: nat, p: Path, j: nat, q: Path)
    requires FieldsWellFormed(fs) && Aligned(x, FieldsAlignment(SerializeEach(fs)))
    requires FieldReaches(fs, i, p) && FieldReaches(fs, j, q)
    requires FieldPosition(Laid, fs, at, x, i, p) == FieldPosition(Laid, fs, at, x, j, q)
    ensures i == j && p == q
    decreases fs, 1
  {
    hide Padding, Aligned, WellFormed, Position, Reaches, SerializeType, AlignmentOf, Buffersize;
    var f, rest := fs.head, fs.tail;
    var offset := AlignUp(at, SerialAlignment(f.typ));
    var next := offset + SerialSize(f.typ);
    FieldDue(f, rest, at, x);
    if i == 0 { PositionBound(Laid, f.typ, x + offset, x + offset, p); } else { LaidAfter(rest, next, x, i - 1, p); }
    if j == 0 { PositionBound(Laid, f.typ, x + offset, x + offset, q); } else { LaidAfter(rest, next, x, j - 1, q); }
    if i == 0 && j == 0 {
      LaidApart(f.typ, x + offset, p, q);
    } else if i > 0 && j > 0 {
      FieldsLaidApart(rest, next, x, i - 1, p, j - 1, q);
    }
  }

  lemma {:induction false} LaidAfter(fs: Fields, at: nat, x: nat, i: nat, p: Path)
    requires FieldsWellFormed(fs) && FieldReaches(fs, i, p) && Aligned(x, FieldsAlignment(SerializeEach(fs)))
    ensures x + at <= FieldPosition(Laid, fs, at, x, i, p)
    decreases fs
  {
    hide Padding, Aligned, WellFormed, Position, Reaches, SerializeType, AlignmentOf, Buffersize;
    var f, rest := fs.head, fs.tail;
    var offset := AlignUp(at, SerialAlignment(f.typ));
    AlignUpBounds(at, SerialAlignment(f.typ));
    FieldDue(f, rest, at, x);
    if i == 0 {
      PositionBound(Laid, f.typ, x + offset, x + offset, p);
    } else {
      LaidAfter(rest, offset + SerialSize(f.typ), x, i - 1, p);
    }
  }

  // ----- every leaf in its place -----

  ghost predicate Gathered(t: Type, a: nat, memory: seq<Byte>, dst: seq<Byte>, base: nat, to: nat) {
    var ser := SerializeCopy(t, dst, base, to, memory, a);
    ser.Counted? && |ser.bytes| == |dst| && SerialImage(t, ser.bytes, to, memory, a)
  }

  /** Every leaf of the value at `a` is placed, whatever the leaves hold, as long as the pointers are those of
      `memory`. */
  ghost predicate PlacesEveryLeaf(t: Type, memory: seq<Byte>, a: nat) {
    forall m: seq<Byte>, dst: seq<Byte>, base, to ::
      SlotsKept(t, memory, a, m) && Suits(t, dst, base, to) ==> Gathered(t, a, m, dst, base, to)
  }

  lemma SerializeCopyGathers(t: Type, a: nat, memory: seq<Byte>, dst: seq<Byte>, base: nat, to: nat)
    requires WellFormed(t) && InLayout(t) && InMemory(t, memory, a) && Suits(t, dst, base, to)
    ensures Gathered(t, a, memory, dst, base, to)
  {
    hide WellFormed, InMemory, SerializeCopy, Reaches, Position, Source, Writer, SerialAlignment, SerialSize,
      SerialData, Aligned, SerialOffset;
    var ser := SerializeCopy(t, dst, base, to, memory, a);
    var x := base + to;
    SerializeFills(t, dst, base, to, x, memory, a, 0);
    forall p | Reaches(t, p)
      ensures SameAt(ser.bytes, to + SerialOffset(t, p), memory, Source(t, memory, a, p))
    {
      var y := to + SerialOffset(t, p);
      PositionBound(Written, t, x, x, p);
      PositionShift(Written, t, x, 0, p);
      SerializeFills(t, dst, base, to, x, memory, a, y);
      LeafHasWriter(t, x, p);
      var q := Writer(t, x, base + y).value;
      PositionShift(Written, t, x, 0, q);
      AlignUpZero(SerialAlignment(t));
      LaidApart(t, 0, p, q);
      SourceInside(t, memory, a, p);
    }
  }

  /** For a plain value, behind any nest of pointers: whatever its leaves hold, `serialize_copy` places every one
      exactly when its type is in layout. */
  lemma PlacesIff(t: Type, memory: seq<Byte>, a: nat)
    requires WellFormed(t) && InMemory(t, memory, a) && Plain(t, memory, a)
    ensures PlacesEveryLeaf(t, memory, a) <==> InLayout(t)
  {
    hide WellFormed, InMemory, Reaches, Source, Position, SlotAt, SerialSize, Plain, SlotsKept, Gathered, Suits,
      SerialOffset;
    if InLayout(t) {
      forall m: seq<Byte>, dst: seq<Byte>, base, to | SlotsKept(t, memory, a, m) && Suits(t, dst, base, to)
        ensures Gathered(t, a, m, dst, base, to)
      {
        ShapeKept(t, memory, a, m);
        SerializeCopyGathers(t, a, m, dst, base, to);
      }
    }
    if PlacesEveryLeaf(t, memory, a) {
      forall p | Reaches(t, p)
        ensures Position(Written, t, 0, p) == SerialOffset(t, p)
      {
        PlacedMark(t, memory, a, p);
      }
    }
  }

  lemma PlacedMark(t: Type, memory: seq<Byte>, a: nat, p: Path)
    requires WellFormed(t) && InMemory(t, memory, a) && Plain(t, memory, a) && PlacesEveryLeaf(t, memory, a)
    requires Reaches(t, p)
    ensures Position(Written, t, 0, p) == SerialOffset(t, p)
  {
    hide WellFormed, InMemory, Reaches, Source, Position, SlotAt, SerialSize, SerialAlignment, Plain, SlotsKept, Suits,
      Marked, SerialOffset, SerializeCopy, Aligned;
    AlignUpZero(SerialAlignment(t));
    PositionBound(Laid, t, 0, 0, p);
    MarkLands(t, memory, a, p, SerialOffset(t, p));
    MarkedAt(t, memory, a, p, p);
    var w := MarkedTrip(t, memory, a, p);
    assert Gathered(t, a, w.memory, w.dst, 0, 0);
    assert SameAt(SerializeCopy(t, w.dst, 0, 0, w.memory, a).bytes, 0 + SerialOffset(t, p), w.memory,
                  Source(t, w.memory, a, p));
  }

  // ----- elements without padding -----

  /** When no array element needs padding, all three places are the same. */
  lemma {:induction false} PaddingFreeAgrees(how: Place, t: Type, x: nat, p: Path)
    requires WellFormed(t) && ElementsPaddingFree(t) && Aligned(x, SerialAlignment(t)) && Reaches(t, p)
    ensures Position(how, t, x, p) == Position(Laid, t, x, p)
    decreases t, 0
  {
    hide Span, Aligned, Padding;
    match t
    case Scalar(_, _, _) =>
    case Pointer(target) => PaddingFreeAgrees(how, target, x, p);
    case Array(element, _, _, subsize) =>
      AlignUpIdle(x, SerialAlignment(element));
      ElementDue(Laid, element, x, x, p.i, subsize);
      PaddingFreeAgrees(how, element, x + Span(p.i, SerialSize(element)), p.rest);
    case Compound(_, fields, _) =>
      PackKeeps(SerializeEach(fields), 0, 0);
      FieldsPaddingFreeAgree(how, fields, 0, x, p.i, p.rest);
  }

  lemma {:induction false} FieldsPaddingFreeAgree(how: Place, fs: Fields, at: nat, x: nat, i: nat, p: Path)
    requires FieldsWellFormed(fs) && FieldElementsPaddingFree(fs) && FieldReaches(fs, i, p)
    requires Aligned(x, FieldsAlignment(SerializeEach(fs)))
    ensures FieldPosition(how, fs, at, x, i, p) == FieldPosition(Laid, fs, at, x, i, p)
    decreases fs, 1
  {
    hide Padding, Aligned, WellFormed, ElementsPaddingFree, Position, Reaches, SerializeType, AlignmentOf, Buffersize;
    var f, rest := fs.head, fs.tail;
    var offset := AlignUp(at, SerialAlignment(f.typ));
    FieldDue(f, rest, at, x);
    if i == 0 {
      PaddingFreeAgrees(how, f.typ, x + offset, p);
    } else {
      FieldsPaddingFreeAgree(how, rest, offset + SerialSize(f.typ), x, i - 1, p);
    }
  }

  lemma PaddingFreeIsLossless(t: Type)
    requires WellFormed(t) && ElementsPaddingFree(t)
    ensures InLayout(t) && Lossless(t)
  {
    hide WellFormed, ElementsPaddingFree, Reaches, Position, SerialAlignment, SerialOffset, Aligned;
    AlignUpZero(SerialAlignment(t));
    forall p | Reaches(t, p)
      ensures Position(Written, t, 0, p) == Position(Read, t, 0, p) == SerialOffset(t, p)
    {
      PaddingFreeAgrees(Written, t, 0, p);
      PaddingFreeAgrees(Read, t, 0, p);
    }
    forall p, q | Reaches(t, p) && Reaches(t, q) && Position(Read, t, 0, p) == Position(Read, t, 0, q)
      ensures p == q
    {
      LaidApart(t, 0, p, q);
    }
  }

  // ----- arrays of such elements -----

  /** Writing from any multiple of `m` leaves the leaf where the type laid out there has it. */
  ghost predicate Steady(t: Type, m: Pow2, p: Path)
    requires Reaches(t, p)
  {
    forall y :: Aligned(y, m) ==> Position(Written, t, y, p) == Position(Laid, t, y, p)
  }

  ghost predicate FieldSteady(fs: Fields, at: nat, m: Pow2, i: nat, p: Path)
    requires FieldReaches(fs, i, p)
  {
    forall y :: Aligned(y, m) ==> FieldPosition(Written, fs, at, y, i, p) == FieldPosition(Laid, fs, at, y, i, p)
  }

  /** Some leaf moves with the value as it is shifted by the data of the value: one whose alignment is the least. */
  lemma {:induction false} Grain(t: Type) returns (m: Pow2, p: Path)
    requires WellFormed(t) && ElementsPaddingFree(t) && SerialData(t) > 0
    ensures Reaches(t, p) && m <= SerialAlignment(t) && Aligned(SerialData(t), m) && Steady(t, m, p)
    decreases t, 0
  {
    hide Span, Aligned, Padding, Position;
    match t
    case Scalar(_, _, align) =>
      m, p := align, Here(0);
      ScalarSteady(t, m);
    case Pointer(target) =>
      m, p := Grain(target);
      PointerSteady(t, m, p);
    case Array(element, _, _, subsize) =>
      m := SerialAlignment(element);
      p := ArrayGrain(t);
    case Compound(_, fields, _) =>
      PackKeeps(SerializeEach(fields), 0, 0);
      var i, q;
      m, i, q := FieldGrain(fields, 0);
      p := Into(i, q);
      CompoundSteady(t, m, i, q);
  }

  lemma ScalarSteady(t: Type, m: Pow2)
    requires t.Scalar? && t.bytes > 0
    ensures Steady(t, m, Here(0))
  {
  }

  lemma PointerSteady(t: Type, m: Pow2, p: Path)
    requires t.Pointer? && Reaches(t.target, p) && Steady(t.target, m, p)
    ensures Steady(t, m, p)
  {
    hide Aligned;
  }

  lemma CompoundSteady(t: Type, m: Pow2, i: nat, p: Path)
    requires t.Compound? && FieldReaches(t.fields, i, p) && FieldSteady(t.fields, 0, m, i, p)
    ensures Steady(t, m, Into(i, p))
  {
    hide Aligned, FieldPosition, FieldReaches;
  }

  lemma ArrayGrain(t: Type) returns (p: Path)
    requires t.Array? && WellFormed(t) && ElementsPaddingFree(t) && SerialData(t) > 0
    ensures Reaches(t, p) && Aligned(SerialData(t), SerialAlignment(t.element))
    ensures Steady(t, SerialAlignment(t.element), p)
  {
    hide Span, Aligned, Padding, SerialAlignment, Buffersize;
    var element := t.element;
    var m := SerialAlignment(element);
    SpanPositive(t.subsize, SerialData(element));
    var q := FirstLeaf(SerializeType(element));
    SerialLeaf(element, 0, q);
    p := Into(0, q);
    SerialAligned(element);
    assert SerialData(element) == SerialSize(element);
    AlignedSpan(t.subsize, SerialSize(element), m);
    SpanSucc(0, SerialSize(element));
    SpanSucc(0, SerialData(element));
    forall y | Aligned(y, m)
      ensures Position(Written, t, y, p) == Position(Laid, t, y, p)
    {
      AlignUpIdle(y, m);
      PaddingFreeAgrees(Written, element, y, q);
    }
  }

  lemma {:induction false} FieldGrain(fs: Fields, at: nat) returns (m: Pow2, i: nat, p: Path)
    requires FieldsWellFormed(fs) && FieldElementsPaddingFree(fs) && FieldsDatasize(SerializeEach(fs)) > 0
    ensures FieldReaches(fs, i, p) && m <= FieldsAlignment(SerializeEach(fs))
    ensures Aligned(FieldsDatasize(SerializeEach(fs)), m) && FieldSteady(fs, at, m, i, p)
    decreases fs, 1
  {
    hide Aligned, Padding, WellFormed, ElementsPaddingFree, Reaches, Steady, FieldSteady, SerializeType, AlignmentOf,
      Buffersize, Datasize;
    var f, rest := fs.head, fs.tail;
    var next := AlignUp(at, SerialAlignment(f.typ)) + SerialSize(f.typ);
    AlignUpZero(1);
    if SerialData(f.typ) > 0 {
      m, p := Grain(f.typ);
      i := 0;
      FirstSteady(f, rest, at, m, p);
    }
    if FieldsDatasize(SerializeEach(rest)) > 0 {
      var m', i', p' := FieldGrain(rest, next);
      if SerialData(f.typ) == 0 || m' < m {
        if SerialData(f.typ) > 0 {
          AlignedWeaken(SerialData(f.typ), m', m);
          AlignedAdd(SerialData(f.typ), FieldsDatasize(SerializeEach(rest)), m');
        }
        m, i, p := m', i' + 1, p';
        RestSteady(f, rest, at, m, i', p);
      } else {
        AlignedWeaken(FieldsDatasize(SerializeEach(rest)), m, m');
        AlignedAdd(SerialData(f.typ), FieldsDatasize(SerializeEach(rest)), m);
      }
    }
  }

  lemma FirstSteady(f: Field, rest: Fields, at: nat, m: Pow2, p: Path)
    requires Reaches(f.typ, p) && Steady(f.typ, m, p) && m <= SerialAlignment(f.typ)
    ensures FieldSteady(Cons(f, rest), at, m, 0, p)
  {
    hide Aligned, Padding, Position, Reaches, SerialAlignment;
    var offset := AlignUp(at, SerialAlignment(f.typ));
    AlignUpBounds(at, SerialAlignment(f.typ));
    AlignedWeaken(offset, m, SerialAlignment(f.typ));
    var fs := Cons(f, rest);
    forall y | Aligned(y, m)
      ensures FieldPosition(Written, fs, at, y, 0, p) == FieldPosition(Laid, fs, at, y, 0, p)
    {
      AlignedAdd(y, offset, m);
    }
  }

  lemma RestSteady(f: Field, rest: Fields, at: nat, m: Pow2, i: nat, p: Path)
    requires FieldReaches(rest, i, p)
    requires FieldSteady(rest, AlignUp(at, SerialAlignment(f.typ)) + SerialSize(f.typ), m, i, p)
    ensures FieldSteady(Cons(f, rest), at, m, i + 1, p)
  {
    hide Aligned, Padding, Position, Reaches, SerialAlignment, SerialSize;
    var fs := Cons(f, rest);
    var next := AlignUp(at, SerialAlignment(f.typ)) + SerialSize(f.typ);
    forall y | Aligned(y, m)
      ensures FieldPosition(Written, fs, at, y, i + 1, p) == FieldPosition(Laid, fs, at, y, i + 1, p)
    {
      assert FieldPosition(Written, rest, next, y, i, p) == FieldPosition(Laid, rest, next, y, i, p);
    }
  }

  /** An array of elements that hold no padded elements themselves is in layout exactly when it has at most one element
      or its elements need no padding. */
  lemma ArrayInLayoutIff(t: Type)
    requires t.Array? && WellFormed(t) && ElementsPaddingFree(t.element)
    ensures InLayout(t) <==> t.subsize <= 1 || SerialData(t.element) == SerialSize(t.element)
  {
    hide Span, Aligned, Padding, SerialAlignment, SerialSize, SerialData, SerialOffset, Steady;
    var e := t.element;
    AlignUpZero(SerialAlignment(e));
    SpanSucc(0, SerialSize(e));
    SpanSucc(0, SerialData(e));
    if t.subsize <= 1 || SerialData(e) == SerialSize(e) {
      forall p | Reaches(t, p)
        ensures Position(Written, t, 0, p) == SerialOffset(t, p)
      {
        ElementDue(Laid, e, 0, 0, p.i, t.subsize);
        PaddingFreeAgrees(Written, e, Span(p.i, SerialSize(e)), p.rest);
      }
    } else if InLayout(t) {
      SerialDataFits(e);
      var m, p := Grain(e);
      assert Reaches(t, Into(1, p));
      ShiftedApart(e, m, p);
    }
  }

  lemma ShiftedApart(t: Type, m: Pow2, p: Path)
    requires Reaches(t, p) && Steady(t, m, p) && Aligned(SerialData(t), m)
    ensures Position(Written, t, SerialData(t), p) == Position(Laid, t, SerialSize(t), p) ==>
      SerialData(t) == SerialSize(t)
  {
    hide Aligned, Position, Reaches, SerialSize, SerialData;
    PositionShift(Laid, t, SerialData(t), 0, p);
    PositionShift(Laid, t, SerialSize(t), 0, p);
  }

  /** Whatever the buffers hold, `serialize_copy` places every leaf of such an array without pointers exactly when it
      has at most one element or its elements need no padding. */
  lemma ArrayPlacesIff(t: Type, memory: seq<Byte>, a: nat)
    requires t.Array? && WellFormed(t) && PointerFree(t) && ElementsPaddingFree(t.element) && InMemory(t, memory, a)
    ensures PlacesEveryLeaf(t, memory, a) <==> t.subsize <= 1 || SerialData(t.element) == SerialSize(t.element)
  {
    hide *;
    PointerFreeIsPlain(t, memory, a);
    PlacesIff(t, memory, a);
    ArrayInLayoutIff(t);
  }
}
