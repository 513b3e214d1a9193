/** What the layout conditions of the dense copies mean for arrays, and types on both sides of them. */
module DenseCopyExamples {
  import opened Alignment
  import opened Datatypes
  import opened DenseCopy
  import opened DenseCopyBounds
  import opened DenseCopyLeaves
  import opened DenseCopyLayout
  import opened DenseCopyExact
  import opened DenseCopyCode
  import opened Leaves

  // ----- arrays of dense elements -----

  lemma {:induction false} DataEndBounds(t: Type)
    requires WellFormed(t)
    ensures Datasize(t) <= DataEnd(t) <= Buffersize(t)
    decreases t
  {
    hide Padding, Aligned, Span;
    match t
    case Scalar(_, _, _) =>
    case Pointer(_) =>
    case Array(element, size, start, subsize) =>
      DataEndBounds(element);
      var ds, size' := Datasize(element), Buffersize(element);
      if subsize == 0 {
        SpanSucc(0, ds);
      } else if DataEnd(element) == 0 {
        SpanOfZero(subsize);
      } else {
        SpanSucc(subsize - 1, ds);
        SpanMonotone(subsize - 1, start + subsize - 1, ds, size');
        SpanSucc(start + subsize - 1, size');
        SpanMonotone(start + subsize, size, size', size');
      }
    case Compound(_, fields, extent) => FieldsEndBounds(fields, 0, extent);
  }

  lemma SpanOfZero(n: nat)
    ensures Span(n, 0) == 0
  {
  }

  lemma {:induction false} FieldsEndBounds(fs: Fields, lo: nat, hi: nat)
    requires FieldsWellFormed(fs) && FieldsFit(fs, lo, hi)
    ensures FieldsEnd(fs) <= hi
    ensures FieldsDatasize(fs) > 0 ==> lo + FieldsDatasize(fs) <= FieldsEnd(fs)
    decreases fs
  {
    hide Aligned;
    match fs
    case Nil =>
    case Cons(f, rest) =>
      DataEndBounds(f.typ);
      FieldsFitBound(rest, f.offset + Buffersize(f.typ), hi);
      FieldsEndBounds(rest, f.offset + Buffersize(f.typ), hi);
  }

  /** `memcpy` reaches the last byte exactly when the elements have no padding inside, and none
      at their end either unless there is only one. */
  lemma MemcpyReachesIff(element: Type, n: nat)
    requires WellFormed(element)
    ensures MemcpyReaches(element, n) <==>
      || n == 0 || DataEnd(element) == 0
      || (DataEnd(element) == Datasize(element) && (n == 1 || Buffersize(element) == Datasize(element)))
  {
    hide Span, WellFormed, DataEnd, Datasize, Buffersize;
    var ds, size := Datasize(element), Buffersize(element);
    DataEndBounds(element);
    if n > 0 {
      SpanSucc(n - 1, ds);
      SpanMonotone(n - 1, n - 1, ds, size);
      SpanStrict(n - 1, ds, size);
    }
  }

  lemma SpanStrict(n: nat, x: nat, y: nat)
    requires x <= y
    ensures Span(n, x) == Span(n, y) <==> n == 0 || x == y
  {
    SpanIsProduct(n, x);
    SpanIsProduct(n, y);
    if n > 0 && x < y {
      assert n * (y - x) > 0;
      assert n * y == n * x + n * (y - x);
    }
  }

  // ----- a padded array -----

  const ONE: Pow2 := 1
  const FOUR: Pow2 := 4

  const BYTE := Scalar(Signed, 1, ONE)
  const WORD := Scalar(Signed, 4, FOUR)

  /** A byte and an aligned word: 5 bytes of data over 8. */
  function PaddedRecord(): Type {
    Compound(Record, Cons(Field(0, BYTE, "b"), Cons(Field(4, WORD, "w"), Nil)), 8)
  }

  lemma ByOne(x: nat)
    ensures AlignUp(x, ONE) == x && Aligned(x, ONE)
  {
  }

  lemma OneUp()
    ensures AlignUp(1, FOUR) == 4
  {
  }

  lemma UpToTwelve()
    ensures AlignUp(5, FOUR) == 8 && AlignUp(8, FOUR) == 8 && AlignUp(9, FOUR) == 12
  {
  }

  lemma Fours()
    ensures Aligned(0, FOUR) && Aligned(4, FOUR) && Aligned(8, FOUR)
  {
  }

  lemma MoreFours()
    ensures Aligned(12, FOUR) && Aligned(16, FOUR)
  {
  }

  /** The arithmetic of all the records below. */
  predicate Tabulated(one: Pow2, four: Pow2) {
    && AlignUp(0, four) == 0 && AlignUp(1, four) == 4 && AlignUp(4, four) == 4
    && AlignUp(5, four) == 8 && AlignUp(8, four) == 8 && AlignUp(9, four) == 12
    && Aligned(0, four) && Aligned(4, four) && Aligned(8, four) && Aligned(12, four) && Aligned(16, four)
    && AlignUp(0, one) == 0 && AlignUp(1, one) == 1 && AlignUp(4, one) == 4 && AlignUp(5, one) == 5
    && AlignUp(8, one) == 8 && Aligned(0, one) && Aligned(1, one) && Aligned(4, one) && Aligned(8, one)
  }

  lemma SmallOffsets()
    ensures Tabulated(ONE, FOUR)
  {
    hide AlignUp, Aligned, IsPow2;
    OneUp();
    UpToTwelve();
    Fours();
    MoreFours();
    AlignUpZero(FOUR);
    AlignUpIdle(4, FOUR);
    ByOne(0);
    ByOne(1);
    ByOne(4);
    ByOne(5);
    ByOne(8);
  }

  lemma PaddedRecordLayout(t: Type)
    requires t == PaddedRecord()
    ensures WellFormed(t) && IsDense(t) && DataEnd(t) == Buffersize(t) == 8 && Datasize(t) == 5
  {
    hide PaddedRecord;
    PaddedRecordFits(t);
    PaddedRecordPacked(t);
  }

  lemma PaddedRecordFits(t: Type)
    requires t == PaddedRecord()
    ensures WellFormed(t) && DataEnd(t) == Buffersize(t) == 8
  {
    hide AlignUp, Aligned, IsPow2;
    SmallOffsets();
    var last := t.fields.tail;
    assert last.tail == Nil && FieldsAlignment(last) == 4 && FieldsAlignment(t.fields) == 4;
    assert FieldsEnd(last) == 8 && FieldsFit(last, 1, 8);
  }

  lemma PaddedRecordPacked(t: Type)
    requires t == PaddedRecord()
    ensures IsDense(t) && Datasize(t) == 5
  {
    hide AlignUp, Aligned, IsPow2;
    SmallOffsets();
    var last := t.fields.tail;
    assert last.tail == Nil && FieldsAlignment(last) == 4 && FieldsAlignment(t.fields) == 4;
    assert PackEnd(last, 1) == 8 && FieldsDense(last, 1);
  }

  /** Copying two of them moves 10 of the 16 bytes and loses a leaf, there and back. */
  lemma PaddedArrayIsNotPlaced()
    ensures var t := Array(PaddedRecord(), 2, 0, 2);
      WellFormed(t) && IsDense(t) && !PlacesEveryLeaf(t) && !RoundTrips(t)
  {
    hide PaddedRecord, PlacesEveryLeaf, RoundTrips, Datasize, Buffersize, DataEnd, MemcpyReaches;
    var t := Array(PaddedRecord(), 2, 0, 2);
    PaddedRecordLayout(PaddedRecord());
    MemcpyReachesIff(PaddedRecord(), 2);
    PlacesIff(t);
    RoundTripIff(t);
  }

  /** A record around one is dense and copied whole: it is placed and comes back. */
  lemma PaddedMemberIsPlaced(t: Type, inner: Type)
    requires inner == PaddedRecord() && t == Compound(Record, Cons(Field(0, inner, "r"), Nil), 8)
    ensures WellFormed(t) && PlacesEveryLeaf(t) && RoundTrips(t)
  {
    hide AlignUp, Aligned, IsPow2, PaddedRecord, PlacesEveryLeaf, RoundTrips, InPlace, Agrees;
    PaddedRecordLayout(inner);
    SmallOffsets();
    assert AlignmentOf(inner) == 4 by { PaddedRecordAlignment(inner); }
    assert t.fields.tail == Nil && FieldsAlignment(t.fields) == 4;
    assert PackEnd(Nil, 8) == 8 && FieldsFit(Nil, 8, 8) && FieldsDense(Nil, 8);
    assert IsDense(t);
    PlacesIff(t);
    RoundTripIff(t);
    DenseInPlace(t);
  }

  lemma PaddedRecordAlignment(t: Type)
    requires t == PaddedRecord()
    ensures AlignmentOf(t) == 4
  {
    hide IsPow2;
    var last := t.fields.tail;
    assert last.tail == Nil && FieldsAlignment(last) == 4 && FieldsAlignment(t.fields) == 4;
  }

  lemma DenseInPlace(t: Type)
    requires t.Compound? && IsDense(t)
    ensures InPlace(true, t) && InPlace(false, t) && Agrees(t)
  {
  }

  // ----- misplaced, and yet returned -----

  /** A word, and one selected byte of four: 5 bytes of data over 8, and not dense. */
  function WindowedRecord(): Type {
    Compound(Record, Cons(Field(0, WORD, "w"), Cons(Field(4, Array(BYTE, 4, 0, 1), "s"), Nil)), 8)
  }

  /** That, and a byte behind it. */
  function TrailedRecord(): Type {
    Compound(Record, Cons(Field(0, WindowedRecord(), "a"), Cons(Field(8, BYTE, "b"), Nil)), 12)
  }

  lemma ByteSpans()
    ensures Span(0, 1) == 0 && Span(1, 1) == 1 && Span(4, 1) == 4
  {
  }

  lemma WindowedRecordIs(t: Type)
    requires t == WindowedRecord()
    ensures WellFormed(t) && !IsDense(t) && AlignmentOf(t) == 4 && Datasize(t) == 5 && CopyLength(t) == 5
    ensures Buffersize(t) == 8
  {
    hide AlignUp, Aligned, IsPow2, Span;
    SmallOffsets();
    ByteSpans();
    var last := t.fields.tail;
    var window := last.head.typ;
    assert Buffersize(window) == 4 && Datasize(window) == 1 && AlignmentOf(window) == 1 && !IsDense(window);
    assert CopyLength(window) == 1;
    assert last.tail == Nil && FieldsAlignment(last) == 1 && FieldsAlignment(t.fields) == 4;
    assert FieldsFit(last, 4, 8) && FieldsDatasize(last) == 1 && FieldsCopyEnd(last, 4) == 5 && !FieldsDense(last, 4);
  }

  lemma WindowedRecordAgrees(t: Type)
    requires t == WindowedRecord() && !IsDense(t)
    ensures Agrees(t) && Buffersize(Densify(t)) == 8
  {
    hide AlignUp, Aligned, IsPow2, Span;
    SmallOffsets();
    ByteSpans();
    var last := t.fields.tail;
    var window := last.head.typ;
    assert ElementsEnd(BYTE, 0, 1) == 1 && Agrees(window) && Densify(window) == Array(BYTE, 1, 0, 1);
    assert AlignmentOf(window) == 1 && Datasize(window) == 1 && CopyLength(window) == 1;
    assert FieldsAgree(last.tail, 5, 5) && FieldsAgree(last, 4, 4);
    var dense := DensifyEach(t.fields);
    assert dense.tail.tail == Nil && PackEnd(dense.tail, 4) == 5 && PackEnd(dense, 0) == 5;
    assert FieldsAlignment(last) == 1 && FieldsAlignment(t.fields) == 4;
  }

  /** The byte behind is written at 5, where the densified type has padding, and read from there again: the copy does
      not place every leaf, but the round trip restores them all. */
  lemma TrailedIsMisplaced(t: Type, a: Type)
    requires a == WindowedRecord() && t == TrailedRecord()
    ensures WellFormed(t) && !PlacesEveryLeaf(t) && RoundTrips(t)
  {
    hide WindowedRecord, TrailedRecord, PlacesEveryLeaf, RoundTrips, WellFormed, InPlace, Agrees;
    TrailedIs(t, a);
    TrailedLayout(t, a);
    PlacesIff(t);
    RoundTripIff(t);
  }

  lemma TrailedIs(t: Type, a: Type)
    requires a == WindowedRecord() && t == TrailedRecord()
    ensures t == Compound(Record, Cons(Field(0, a, "a"), Cons(Field(8, BYTE, "b"), Nil)), 12)
    ensures WellFormed(t) && !IsDense(t)
  {
    hide AlignUp, Aligned, IsPow2, WindowedRecord, Span;
    WindowedRecordIs(a);
    SmallOffsets();
    assert t == Compound(Record, Cons(Field(0, a, "a"), Cons(Field(8, BYTE, "b"), Nil)), 12);
    var last := t.fields.tail;
    assert last.tail == Nil && FieldsAlignment(last) == 1 && FieldsAlignment(t.fields) == 4 && FieldsFit(last, 8, 12);
  }

  lemma TrailedLayout(t: Type, a: Type)
    requires a == WindowedRecord() && t == Compound(Record, Cons(Field(0, a, "a"), Cons(Field(8, BYTE, "b"), Nil)), 12)
    requires !IsDense(t)
    ensures !InPlace(true, t) && Agrees(t)
  {
    hide AlignUp, Aligned, IsPow2, WindowedRecord, Span, Densify, WellFormed, CopyLength, Datasize, Buffersize, IsDense;
    WindowedRecordIs(a);
    WindowedRecordAgrees(a);
    SmallOffsets();
    ByteIs();
    var last := t.fields.tail;
    assert !FieldsInPlace(true, last, 5, 8) && FieldsAgree(last.tail, 6, 6) && FieldsAgree(last, 5, 5);
  }

  lemma ByteIs()
    ensures Datasize(BYTE) == CopyLength(BYTE) == Buffersize(Densify(BYTE)) == 1 && AlignmentOf(BYTE) == 1
    ensures Agrees(BYTE) && InPlace(true, BYTE)
  {
  }

  // ----- placed, and yet not returned -----

  /** A word and a byte: dense, 5 bytes of data over 8. */
  function EndPadded(): Type {
    Compound(Record, Cons(Field(0, WORD, "w"), Cons(Field(4, BYTE, "b"), Nil)), 8)
  }

  /** That and a byte behind it, in a record larger than needed. */
  function LooseRecord(): Type {
    Compound(Record, Cons(Field(0, EndPadded(), "a"), Cons(Field(8, BYTE, "c"), Nil)), 16)
  }

  lemma EndPaddedIs(t: Type)
    requires t == EndPadded()
    ensures WellFormed(t) && IsDense(t) && AlignmentOf(t) == 4 && Datasize(t) == 5
    ensures CopyLength(t) == Buffersize(t) == 8
  {
    hide AlignUp, Aligned, IsPow2;
    SmallOffsets();
    var last := t.fields.tail;
    assert last.tail == Nil && FieldsAlignment(last) == 1 && FieldsAlignment(t.fields) == 4;
    assert FieldsFit(last, 4, 8) && FieldsDatasize(last) == 1 && FieldsDense(last, 4) && PackEnd(last, 4) == 5;
  }

  /** The dense member is copied whole, with its padding, but skipped by the size of its data when read: every leaf is
      placed, and the last one does not come back. */
  lemma LooseDoesNotReturn(t: Type, a: Type)
    requires a == EndPadded() && t == LooseRecord()
    ensures WellFormed(t) && PlacesEveryLeaf(t) && !RoundTrips(t)
  {
    hide EndPadded, LooseRecord, PlacesEveryLeaf, RoundTrips, WellFormed, InPlace, Agrees;
    LooseIs(t, a);
    LooseLayout(t, a);
    PlacesIff(t);
    RoundTripIff(t);
  }

  lemma LooseIs(t: Type, a: Type)
    requires a == EndPadded() && t == LooseRecord()
    ensures t == Compound(Record, Cons(Field(0, a, "a"), Cons(Field(8, BYTE, "c"), Nil)), 16)
    ensures WellFormed(t) && !IsDense(t)
  {
    hide EndPadded, WellFormed, IsDense;
    assert t == Compound(Record, Cons(Field(0, a, "a"), Cons(Field(8, BYTE, "c"), Nil)), 16);
    LooseFits(t, a);
    LooseIsLarge(t, a);
  }

  lemma LooseFits(t: Type, a: Type)
    requires a == EndPadded() && t == Compound(Record, Cons(Field(0, a, "a"), Cons(Field(8, BYTE, "c"), Nil)), 16)
    ensures WellFormed(t)
  {
    hide AlignUp, Aligned, IsPow2, EndPadded;
    EndPaddedIs(a);
    Fours();
    MoreFours();
    ByOne(1);
    ByOne(8);
    AlignUpZero(FOUR);
    var last := t.fields.tail;
    assert last.tail == Nil && FieldsAlignment(last) == 1 && FieldsAlignment(t.fields) == 4 && FieldsFit(last, 8, 16);
  }

  lemma LooseIsLarge(t: Type, a: Type)
    requires a == EndPadded() && t == Compound(Record, Cons(Field(0, a, "a"), Cons(Field(8, BYTE, "c"), Nil)), 16)
    ensures !IsDense(t)
  {
    hide AlignUp, Aligned, IsPow2, EndPadded, WellFormed;
    EndPaddedIs(a);
    UpToTwelve();
    ByOne(8);
    AlignUpZero(FOUR);
    var last := t.fields.tail;
    assert last.tail == Nil && FieldsAlignment(last) == 1 && FieldsAlignment(t.fields) == 4;
    assert PackEnd(last, 8) == 9 && PackEnd(t.fields, 0) == 9;
  }

  lemma EndPaddedInPlace(t: Type)
    requires t == EndPadded() && WellFormed(t) && IsDense(t)
    ensures InPlace(true, t) && Buffersize(Densify(t)) == 8
  {
    DenseInPlace(t);
    DenseKeepsBuffersize(t);
  }

  lemma LooseLayout(t: Type, a: Type)
    requires a == EndPadded() && t == Compound(Record, Cons(Field(0, a, "a"), Cons(Field(8, BYTE, "c"), Nil)), 16)
    requires !IsDense(t)
    ensures InPlace(true, t) && !Agrees(t)
  {
    hide AlignUp, Aligned, IsPow2, EndPadded, Densify, WellFormed, CopyLength, Datasize, Buffersize, IsDense;
    EndPaddedIs(a);
    EndPaddedInPlace(a);
    SmallOffsets();
    ByteIs();
    var last := t.fields.tail;
    assert FieldsInPlace(true, last.tail, 9, 9) && FieldsInPlace(true, last, 8, 8) && !FieldsAgree(last, 8, 5);
  }

  // ----- the address kept for deallocation -----

  const EIGHT: Pow2 := 8
  const SIXTEEN: Pow2 := assert IsPow2(EIGHT); 16
  const SIXTY_FOUR: Pow2 := assert IsPow2(SIXTEEN); assert IsPow2(2 * SIXTEEN); 64

  /** The allocator aligns to 16. The address kept is always the allocated one exactly for the types aligned to that. */
  lemma HandleKeptIff(t: Type)
    ensures (forall address | Aligned(address, SIXTEEN) :: Aligned(address, AlignmentOf(t))) <==> AlignmentOf(t) <= 16
  {
    hide IsPow2, AlignmentOf;
    var a := AlignmentOf(t);
    if a <= 16 {
      forall address | Aligned(address, SIXTEEN)
        ensures Aligned(address, a)
      {
        AlignedWeaken(address, a, SIXTEEN);
      }
    } else {
      AlignedSelf(SIXTEEN);
      assert !Aligned(16, a);
    }
  }

  /** A scalar aligned to 64, copied to memory allocated at 16: another address is kept for it. */
  method MisalignedHandle(src: seq<Byte>) returns (handle: nat)
    requires |src| == 64
    ensures Aligned(16, SIXTEEN) && handle != 16
  {
    hide IsPow2;
    var t := Scalar(Signed, 64, SIXTY_FOUR);
    AlignedSelf(SIXTEEN);
    AlignedSelf(SIXTY_FOUR);
    assert !Aligned(16, SIXTY_FOUR);
    var copied, buffer, data, kept := DoCopy(t, src, 0, 16);
    handle := kept;
  }
}
