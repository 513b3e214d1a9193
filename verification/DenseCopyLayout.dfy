/** Layout conditions on a type, to be checked member by member: that a dense copy keeps every leaf where the
    densified type has it, and that the two copies use the same positions. */
module DenseCopyLayout {
  import opened Alignment
  import opened Datatypes
  import opened DensifyAlgebra
  import opened Leaves
  import opened DenseCopyBounds
  import opened DenseCopyLeaves

  // ----- the last byte of data -----

  /** The end of the last byte of data, 0 when there is none. */
  function DataEnd(t: Type): nat
    decreases t, 0
  {
    match t
    case Scalar(_, bytes, _) => bytes
    case Pointer(_) => ADDRESS_SIZE
    case Array(element, _, start, subsize) => ElementsEnd(element, start, subsize)
    case Compound(_, fields, _) => FieldsEnd(fields)
  }

  function ElementsEnd(t: Type, start: nat, n: nat): nat
    decreases t, 1
  {
    if n == 0 || DataEnd(t) == 0 then 0 else Span(start + n - 1, Buffersize(t)) + DataEnd(t)
  }

  function FieldsEnd(fs: Fields): nat
    decreases fs, 1
  {
    match fs
    case Nil => 0
    case Cons(f, rest) => Max(if DataEnd(f.typ) == 0 then 0 else f.offset + DataEnd(f.typ), FieldsEnd(rest))
  }

  lemma {:induction false} LeafBeforeEnd(t: Type, p: Path)
    requires IsLeaf(t, p)
    ensures OffsetOf(t, p) < DataEnd(t)
    decreases t, 0
  {
    hide Span;
    match t
    case Scalar(_, _, _) =>
    case Pointer(_) =>
    case Array(element, _, start, subsize) =>
      LeafBeforeEnd(element, p.rest);
      SpanMonotone(start + p.i, start + subsize - 1, Buffersize(element), Buffersize(element));
    case Compound(_, fields, _) => FieldLeafBeforeEnd(fields, p.i, p.rest);
  }

  lemma {:induction false} FieldLeafBeforeEnd(fs: Fields, i: nat, p: Path)
    requires IsFieldLeaf(fs, i, p)
    ensures FieldOffsetOf(fs, i, p) < FieldsEnd(fs)
    decreases fs, 1
  {
    if i == 0 { LeafBeforeEnd(fs.head.typ, p); } else { FieldLeafBeforeEnd(fs.tail, i - 1, p); }
  }

  lemma {:induction false} LastLeaf(t: Type) returns (p: Path)
    requires DataEnd(t) > 0
    ensures IsLeaf(t, p) && OffsetOf(t, p) == DataEnd(t) - 1
    decreases t, 0
  {
    match t
    case Scalar(_, bytes, _) => p := Here(bytes - 1);
    case Pointer(_) => p := Here(ADDRESS_SIZE - 1);
    case Array(element, _, _, subsize) =>
      p := LastLeaf(element);
      p := Into(subsize - 1, p);
    case Compound(_, fields, _) =>
      var i;
      i, p := LastFieldLeaf(fields);
      p := Into(i, p);
  }

  lemma {:induction false} LastFieldLeaf(fs: Fields) returns (i: nat, p: Path)
    requires FieldsEnd(fs) > 0
    ensures IsFieldLeaf(fs, i, p) && FieldOffsetOf(fs, i, p) == FieldsEnd(fs) - 1
    decreases fs, 1
  {
    var f := fs.head;
    if DataEnd(f.typ) > 0 && FieldsEnd(fs) == f.offset + DataEnd(f.typ) {
      p := LastLeaf(f.typ);
      i := 0;
    } else {
      i, p := LastFieldLeaf(fs.tail);
      i := i + 1;
    }
  }

  // ----- dense types -----

  lemma {:induction false} DenseOffsetSame(t: Type, p: Path)
    requires WellFormed(t) && IsDense(t) && IsLeaf(t, p)
    ensures DenseOffset(t, p) == OffsetOf(t, p)
    decreases t, 0
  {
    hide Span, Padding, Aligned, PackEnd;
    DenseLeaf(t, p);
    match t
    case Scalar(_, _, _) =>
    case Pointer(_) =>
    case Array(element, _, _, _) =>
      DenseLeaf(element, p.rest);
      DenseOffsetSame(element, p.rest);
      DenseKeepsBuffersize(element);
    case Compound(_, fields, extent) =>
      DenseFieldLeaf(fields, 0, p.i, p.rest);
      DenseFieldsKeepLayout(fields, 0, extent);
      DenseFieldOffsetSame(fields, Pack(DensifyEach(fields), 0), 0, p.i, p.rest);
  }

  lemma {:induction false} DenseFieldOffsetSame(fs: Fields, gs: Fields, at: nat, i: nat, p: Path)
    requires FieldsWellFormed(fs) && FieldsDense(fs, at) && SameOffsets(fs, gs) && IsFieldLeaf(fs, i, p)
    requires gs == Pack(DensifyEach(fs), at) && IsFieldLeaf(gs, i, p)
    ensures FieldOffsetOf(gs, i, p) == FieldOffsetOf(fs, i, p)
    decreases fs, 1
  {
    hide Padding, WellFormed, IsDense, Densify, Buffersize, OffsetOf, IsLeaf;
    var f := fs.head;
    DensifyKeepsAlignmentAndData(f.typ);
    DenseKeepsBuffersize(f.typ);
    if i == 0 {
      DenseOffsetSame(f.typ, p);
    } else {
      DenseFieldOffsetSame(fs.tail, gs.tail, AlignUp(at, AlignmentOf(f.typ)) + Buffersize(f.typ), i - 1, p);
    }
  }

  // ----- cursors are never past where the densified type has things -----

  lemma {:induction false} CopyLengthBound(t: Type)
    requires WellFormed(t)
    ensures Datasize(t) <= CopyLength(t) <= Buffersize(Densify(t))
    ensures !IsDense(t) ==> CopyLength(t) <= DenseSpan(t)
    decreases t, 0
  {
    hide Span, Padding, Aligned;
    DenseSpanBounds(t);
    match t
    case Scalar(_, _, _) =>
    case Pointer(_) =>
    case Array(element, _, _, subsize) =>
      DenseSpanBounds(element);
      SpanMonotone(subsize, subsize, Datasize(element), DenseSpan(element));
      if !IsDense(element) && subsize > 0 {
        CopyLengthBound(element);
        StrideBound(element);
        var d, s := Datasize(element), Stride(true, element);
        SpanSucc(subsize - 1, d);
        SpanMonotone(subsize - 1, subsize - 1, d, s);
        SpanSucc(subsize - 1, DenseSpan(element));
        SpanMonotone(subsize - 1, subsize - 1, s, DenseSpan(element));
      } else if subsize == 0 {
        SpanSucc(0, Datasize(element));
      }
    case Compound(_, fields, extent) =>
      if IsDense(t) {
        DenseKeepsBuffersize(t);
      } else {
        FieldsCopyEndBound(fields, 0, 0);
        AlignUpBounds(PackEnd(DensifyEach(fields), 0), FieldsAlignment(fields));
      }
  }

  lemma StrideBound(t: Type)
    requires WellFormed(t) && CopyLength(t) <= DenseSpan(t) && Datasize(t) <= CopyLength(t)
    ensures Datasize(t) <= Stride(false, t) <= Stride(true, t) <= DenseSpan(t)
    ensures CopyLength(t) <= Stride(true, t)
  {
    hide Padding, Aligned, WellFormed, CopyLength, Datasize, DenseSpan, AlignmentOf;
    DenseSpanBounds(t);
    AlignUpBounds(Datasize(t), AlignmentOf(t));
    AlignUpBounds(CopyLength(t), AlignmentOf(t));
    AlignUpMonotone(Datasize(t), CopyLength(t), AlignmentOf(t));
    AlignUpLeast(CopyLength(t), AlignmentOf(t), DenseSpan(t));
  }

  lemma {:induction false} FieldsCopyEndBound(fs: Fields, cursor: nat, at: nat)
    requires FieldsWellFormed(fs) && cursor <= at
    ensures cursor + FieldsDatasize(fs) <= FieldsCopyEnd(fs, cursor) <= PackEnd(DensifyEach(fs), at)
    decreases fs, 1
  {
    hide Padding, WellFormed, CopyLength, Densify, Buffersize, Datasize, AlignmentOf, DenseSpan, IsDense;
    match fs
    case Nil =>
    case Cons(f, rest) =>
      var align := AlignmentOf(f.typ);
      DensifyKeepsAlignmentAndData(f.typ);
      CopyLengthBound(f.typ);
      AlignUpBounds(cursor, align);
      AlignUpMonotone(cursor, at, align);
      FieldsCopyEndBound(rest, AlignUp(cursor, align) + CopyLength(f.typ),
                         AlignUp(at, align) + Buffersize(Densify(f.typ)));
  }

  lemma LengthBound(writing: bool, t: Type)
    requires WellFormed(t)
    ensures Length(writing, t) <= Buffersize(Densify(t)) && Length(false, t) <= Length(true, t)
    ensures !IsDense(t) ==>
      Stride(false, t) <= Stride(true, t) <= Buffersize(Densify(t)) && Stride(writing, t) <= Stride(true, t)
  {
    hide WellFormed, CopyLength, Datasize, DenseSpan, Densify, Buffersize, IsDense, Stride;
    CopyLengthBound(t);
    DenseSpanBounds(t);
    if !IsDense(t) { StrideBound(t); }
  }

  lemma {:induction false} PositionBound(writing: bool, t: Type, p: Path)
    requires WellFormed(t) && IsLeaf(t, p)
    ensures Position(writing, t, p) <= DenseOffset(t, p) && Position(false, t, p) <= Position(true, t, p)
    decreases t, 0
  {
    hide Span, Padding, Aligned, PackEnd, Stride;
    DenseLeaf(t, p);
    match t
    case Scalar(_, _, _) =>
    case Pointer(_) =>
    case Array(element, _, _, _) => ArrayPositionBound(writing, t, p);
    case Compound(_, fields, _) =>
      if IsDense(t) {
        DenseOffsetSame(t, p);
      } else {
        DenseFieldLeaf(fields, 0, p.i, p.rest);
        FieldPositionBound(writing, fields, 0, 0, p.i, p.rest);
        FieldPositionOrder(fields, 0, 0, p.i, p.rest);
      }
  }

  lemma {:induction false} ArrayPositionBound(writing: bool, t: Type, p: Path)
    requires t.Array? && WellFormed(t) && IsLeaf(t, p)
    ensures Position(writing, t, p) <= DenseOffset(t, p) && Position(false, t, p) <= Position(true, t, p)
    decreases t.element, 3
  {
    hide Span, Padding, Aligned, PackEnd, Stride;
    var element := t.element;
    DenseLeaf(t, p);
    DenseLeaf(element, p.rest);
    if IsDense(element) {
      DenseOffsetSame(element, p.rest);
      DenseKeepsBuffersize(element);
    } else {
      PositionBound(writing, element, p.rest);
      LengthBound(writing, element);
      SpanMonotone(p.i, p.i, Stride(writing, element), Buffersize(Densify(element)));
      SpanMonotone(p.i, p.i, Stride(false, element), Stride(true, element));
    }
  }

  lemma {:induction false} FieldPositionBound(writing: bool, fs: Fields, cursor: nat, at: nat, i: nat, p: Path)
    requires FieldsWellFormed(fs) && cursor <= at && IsFieldLeaf(fs, i, p)
    requires IsFieldLeaf(Pack(DensifyEach(fs), at), i, p)
    ensures FieldPosition(writing, fs, cursor, i, p) <= FieldOffsetOf(Pack(DensifyEach(fs), at), i, p)
    decreases fs, 1
  {
    hide Padding, WellFormed, Length, Densify, Buffersize, AlignmentOf, Position, OffsetOf, IsLeaf;
    var f, rest := fs.head, fs.tail;
    var align := AlignmentOf(f.typ);
    DensifyKeepsAlignmentAndData(f.typ);
    LengthBound(writing, f.typ);
    AlignUpMonotone(cursor, at, align);
    if i == 0 {
      PositionBound(writing, f.typ, p);
    } else {
      FieldPositionBound(writing, rest, AlignUp(cursor, align) + Length(writing, f.typ),
                         AlignUp(at, align) + Buffersize(Densify(f.typ)), i - 1, p);
    }
  }

  lemma {:induction false} FieldPositionOrder(fs: Fields, reading: nat, cursor: nat, i: nat, p: Path)
    requires FieldsWellFormed(fs) && reading <= cursor && IsFieldLeaf(fs, i, p)
    ensures FieldPosition(false, fs, reading, i, p) <= FieldPosition(true, fs, cursor, i, p)
    decreases fs, 1
  {
    hide Padding, WellFormed, Length, AlignmentOf, Position, IsLeaf;
    var f, rest := fs.head, fs.tail;
    LengthBound(true, f.typ);
    AlignUpMonotone(reading, cursor, AlignmentOf(f.typ));
    if i == 0 {
      PositionBound(true, f.typ, p);
    } else {
      FieldPositionOrder(rest, AlignUp(reading, AlignmentOf(f.typ)) + Length(false, f.typ),
                         AlignUp(cursor, AlignmentOf(f.typ)) + Length(true, f.typ), i - 1, p);
    }
  }

  // ----- in place -----

  /** The bytes that a memcpy of `n` elements moves reach the last byte of data. */
  predicate MemcpyReaches(element: Type, n: nat) {
    ElementsEnd(element, 0, n) <= Span(n, Datasize(element))
  }

  /** The copy in one direction uses the offsets of the densified type: a dense value is copied whole; a memcpy of an
      array reaches its last byte; otherwise elements and members with data are in place, and the cursor in front of
      each, aligned, is where the densified type has it. */
  predicate InPlace(writing: bool, t: Type)
    decreases t, 0
  {
    match t
    case Scalar(_, _, _) => true
    case Pointer(_) => true
    case Array(element, _, _, subsize) =>
      if IsDense(element) then MemcpyReaches(element, subsize)
      else
        || subsize == 0 || Datasize(element) == 0
        || (InPlace(writing, element) && (subsize == 1 || Stride(writing, element) == Buffersize(Densify(element))))
    case Compound(_, fields, _) => IsDense(t) || FieldsInPlace(writing, fields, 0, 0)
  }

  predicate FieldsInPlace(writing: bool, fs: Fields, cursor: nat, at: nat)
    decreases fs, 1
  {
    match fs
    case Nil => true
    case Cons(f, rest) =>
      var next, due := AlignUp(cursor, AlignmentOf(f.typ)), AlignUp(at, AlignmentOf(f.typ));
      && (Datasize(f.typ) == 0 || (InPlace(writing, f.typ) && next == due))
      && FieldsInPlace(writing, rest, next + Length(writing, f.typ), due + Buffersize(Densify(f.typ)))
  }

  ghost predicate LeafInPlace(writing: bool, t: Type, p: Path)
    requires IsLeaf(t, p)
  {
    Moved(t, p) && Position(writing, t, p) == DenseOffset(t, p)
  }

  lemma {:induction false} InPlaceLeaf(writing: bool, t: Type, p: Path)
    requires WellFormed(t) && InPlace(writing, t) && IsLeaf(t, p)
    ensures LeafInPlace(writing, t, p)
    decreases t, 1
  {
    hide Span, Padding, Aligned, PackEnd, Stride;
    DenseLeaf(t, p);
    match t
    case Scalar(_, _, _) =>
    case Pointer(_) =>
    case Array(_, _, _, _) => InPlaceArrayLeaf(writing, t, p);
    case Compound(_, fields, _) =>
      if IsDense(t) {
        DenseOffsetSame(t, p);
      } else {
        DenseFieldLeaf(fields, 0, p.i, p.rest);
        InPlaceFieldLeaf(writing, fields, 0, 0, p.i, p.rest);
      }
  }

  lemma {:induction false} InPlaceArrayLeaf(writing: bool, t: Type, p: Path)
    requires t.Array? && WellFormed(t) && InPlace(writing, t) && IsLeaf(t, p)
    ensures LeafInPlace(writing, t, p)
    decreases t, 0
  {
    hide Span, Padding, Aligned, PackEnd, Stride;
    var Array(element, _, _, subsize) := t;
    DenseLeaf(t, p);
    DenseLeaf(element, p.rest);
    if IsDense(element) {
      DenseOffsetSame(element, p.rest);
      DenseKeepsBuffersize(element);
      LeafBeforeEnd(element, p.rest);
      SpanMonotone(p.i, subsize - 1, Buffersize(element), Buffersize(element));
    } else {
      LeafHasData(element, p.rest);
      InPlaceLeaf(writing, element, p.rest);
      SpanSucc(0, Stride(writing, element));
      SpanSucc(0, Buffersize(Densify(element)));
    }
  }

  lemma {:induction false} InPlaceFieldLeaf(writing: bool, fs: Fields, cursor: nat, at: nat, i: nat, p: Path)
    requires FieldsWellFormed(fs) && FieldsInPlace(writing, fs, cursor, at) && IsFieldLeaf(fs, i, p)
    requires IsFieldLeaf(Pack(DensifyEach(fs), at), i, p)
    ensures FieldMoved(fs, i, p)
    ensures FieldPosition(writing, fs, cursor, i, p) == FieldOffsetOf(Pack(DensifyEach(fs), at), i, p)
    decreases fs, 2
  {
    hide Padding, WellFormed, Length, Densify, Buffersize, AlignmentOf, Position, OffsetOf, IsLeaf, InPlace, Moved;
    var f, rest := fs.head, fs.tail;
    var align := AlignmentOf(f.typ);
    DensifyKeepsAlignmentAndData(f.typ);
    if i == 0 {
      LeafHasData(f.typ, p);
      InPlaceLeaf(writing, f.typ, p);
    } else {
      InPlaceFieldLeaf(writing, rest, AlignUp(cursor, align) + Length(writing, f.typ),
                       AlignUp(at, align) + Buffersize(Densify(f.typ)), i - 1, p);
    }
  }

  /** A type that is not in place has a leaf that is not. */
  lemma {:induction false} LeafOutOfPlace(writing: bool, t: Type) returns (p: Path)
    requires WellFormed(t) && !InPlace(writing, t)
    ensures IsLeaf(t, p) && !LeafInPlace(writing, t, p)
    decreases t, 1
  {
    hide Span, Padding, Aligned, PackEnd, Stride;
    match t
    case Array(_, _, _, _) => p := ElementOutOfPlace(writing, t);
    case Compound(_, fields, _) =>
      var i;
      i, p := FieldOutOfPlace(writing, fields, 0, 0);
      DenseFieldLeaf(fields, 0, i, p);
      p := Into(i, p);
      DenseLeaf(t, p);
  }

  lemma {:induction false} ElementOutOfPlace(writing: bool, t: Type) returns (p: Path)
    requires t.Array? && WellFormed(t) && !InPlace(writing, t)
    ensures IsLeaf(t, p) && !LeafInPlace(writing, t, p)
    decreases t, 0
  {
    hide Span, Padding, Aligned, PackEnd, Stride;
    var Array(element, _, _, subsize) := t;
    var dense, s := Buffersize(Densify(element)), Stride(writing, element);
    SpanSucc(0, s);
    SpanSucc(0, dense);
    if IsDense(element) {
      p := LastLeaf(element);
      p := Into(subsize - 1, p);
    } else if !InPlace(writing, element) {
      p := LeafOutOfPlace(writing, element);
      DenseLeaf(element, p);
      p := Into(0, p);
      DenseLeaf(t, p);
    } else {
      p := FirstLeaf(element);
      DenseLeaf(element, p);
      LengthBound(writing, element);
      PositionBound(writing, element, p);
      p := Into(1, p);
      DenseLeaf(t, p);
    }
  }

  lemma {:induction false} FieldOutOfPlace(writing: bool, fs: Fields, cursor: nat, at: nat) returns (i: nat, p: Path)
    requires FieldsWellFormed(fs) && !FieldsInPlace(writing, fs, cursor, at) && cursor <= at
    ensures IsFieldLeaf(fs, i, p) && IsFieldLeaf(Pack(DensifyEach(fs), at), i, p)
    ensures FieldMoved(fs, i, p) ==>
      FieldPosition(writing, fs, cursor, i, p) < FieldOffsetOf(Pack(DensifyEach(fs), at), i, p)
    decreases fs, 2
  {
    hide Padding, WellFormed, Length, Densify, Buffersize, AlignmentOf, Position, OffsetOf, IsLeaf, InPlace, Moved;
    var f, rest := fs.head, fs.tail;
    var align := AlignmentOf(f.typ);
    var next, due := AlignUp(cursor, align), AlignUp(at, align);
    DensifyKeepsAlignmentAndData(f.typ);
    LengthBound(writing, f.typ);
    AlignUpMonotone(cursor, at, align);
    if Datasize(f.typ) > 0 && !InPlace(writing, f.typ) {
      p := LeafOutOfPlace(writing, f.typ);
      i := 0;
      PositionBound(writing, f.typ, p);
      DenseLeaf(f.typ, p);
    } else if Datasize(f.typ) > 0 && next != due {
      p := FirstLeaf(f.typ);
      i := 0;
      PositionBound(writing, f.typ, p);
      DenseLeaf(f.typ, p);
    } else {
      i, p := FieldOutOfPlace(writing, rest, next + Length(writing, f.typ), due + Buffersize(Densify(f.typ)));
      i := i + 1;
    }
  }

  /** The condition on the type says exactly that every leaf is in place. */
  lemma InPlaceIff(writing: bool, t: Type)
    requires WellFormed(t)
    ensures InPlace(writing, t) <==> forall p | IsLeaf(t, p) :: LeafInPlace(writing, t, p)
  {
    hide WellFormed, InPlace, IsLeaf, LeafInPlace;
    if InPlace(writing, t) {
      forall p | IsLeaf(t, p)
        ensures LeafInPlace(writing, t, p)
      {
        InPlaceLeaf(writing, t, p);
      }
    } else {
      var p := LeafOutOfPlace(writing, t);
    }
  }

  // ----- the two copies agree -----

  /** Both copies use the same positions, whether or not they are those of the densified type. */
  predicate Agrees(t: Type)
    decreases t, 0
  {
    match t
    case Scalar(_, _, _) => true
    case Pointer(_) => true
    case Array(element, _, _, subsize) =>
      if IsDense(element) then MemcpyReaches(element, subsize)
      else
        || subsize == 0 || Datasize(element) == 0
        || (Agrees(element) && (subsize == 1 || Stride(true, element) == Stride(false, element)))
    case Compound(_, fields, _) => IsDense(t) || FieldsAgree(fields, 0, 0)
  }

  predicate FieldsAgree(fs: Fields, cursor: nat, reading: nat)
    decreases fs, 1
  {
    match fs
    case Nil => true
    case Cons(f, rest) =>
      var next, next' := AlignUp(cursor, AlignmentOf(f.typ)), AlignUp(reading, AlignmentOf(f.typ));
      && (Datasize(f.typ) == 0 || (Agrees(f.typ) && next == next'))
      && FieldsAgree(rest, next + CopyLength(f.typ), next' + Datasize(f.typ))
  }

  predicate LeafAgrees(t: Type, p: Path)
    requires IsLeaf(t, p)
  {
    Moved(t, p) && Position(true, t, p) == Position(false, t, p)
  }

  lemma {:induction false} AgreesLeaf(t: Type, p: Path)
    requires WellFormed(t) && Agrees(t) && IsLeaf(t, p)
    ensures LeafAgrees(t, p)
    decreases t, 0
  {
    hide Span, Padding, Aligned, Stride;
    match t
    case Scalar(_, _, _) =>
    case Pointer(_) =>
    case Array(element, _, _, subsize) =>
      if IsDense(element) {
        LeafBeforeEnd(element, p.rest);
        SpanMonotone(p.i, subsize - 1, Buffersize(element), Buffersize(element));
      } else {
        LeafHasData(element, p.rest);
        AgreesLeaf(element, p.rest);
        SpanSucc(0, Stride(true, element));
        SpanSucc(0, Stride(false, element));
      }
    case Compound(_, fields, _) =>
      if !IsDense(t) { AgreesFieldLeaf(fields, 0, 0, p.i, p.rest); }
  }

  lemma {:induction false} AgreesFieldLeaf(fs: Fields, cursor: nat, reading: nat, i: nat, p: Path)
    requires FieldsWellFormed(fs) && FieldsAgree(fs, cursor, reading) && IsFieldLeaf(fs, i, p)
    ensures FieldMoved(fs, i, p) && FieldPosition(true, fs, cursor, i, p) == FieldPosition(false, fs, reading, i, p)
    decreases fs, 1
  {
    hide Padding, WellFormed, CopyLength, Datasize, AlignmentOf, Position, IsLeaf, Agrees, Moved;
    var f, rest := fs.head, fs.tail;
    var align := AlignmentOf(f.typ);
    if i == 0 {
      LeafHasData(f.typ, p);
      AgreesLeaf(f.typ, p);
    } else {
      AgreesFieldLeaf(rest, AlignUp(cursor, align) + CopyLength(f.typ), AlignUp(reading, align) + Datasize(f.typ),
                      i - 1, p);
    }
  }

  lemma {:induction false} LeafDisagrees(t: Type) returns (p: Path)
    requires WellFormed(t) && !Agrees(t)
    ensures IsLeaf(t, p) && !LeafAgrees(t, p)
    decreases t, 0
  {
    hide Span, Padding, Aligned, Stride;
    match t
    case Array(element, _, _, subsize) =>
      SpanSucc(0, Stride(true, element));
      SpanSucc(0, Stride(false, element));
      if IsDense(element) {
        p := LastLeaf(element);
        p := Into(subsize - 1, p);
      } else if !Agrees(element) {
        p := LeafDisagrees(element);
        p := Into(0, p);
      } else {
        p := FirstLeaf(element);
        LengthBound(true, element);
        PositionBound(true, element, p);
        p := Into(1, p);
      }
    case Compound(_, fields, _) =>
      var i;
      i, p := FieldDisagrees(fields, 0, 0);
      p := Into(i, p);
  }

  lemma {:induction false} FieldDisagrees(fs: Fields, cursor: nat, reading: nat) returns (i: nat, p: Path)
    requires FieldsWellFormed(fs) && !FieldsAgree(fs, cursor, reading) && reading <= cursor
    ensures IsFieldLeaf(fs, i, p)
    ensures FieldMoved(fs, i, p) ==> FieldPosition(false, fs, reading, i, p) < FieldPosition(true, fs, cursor, i, p)
    decreases fs, 1
  {
    hide Padding, WellFormed, CopyLength, Datasize, AlignmentOf, Position, IsLeaf, Agrees, Moved;
    var f, rest := fs.head, fs.tail;
    var align := AlignmentOf(f.typ);
    LengthBound(true, f.typ);
    AlignUpMonotone(reading, cursor, align);
    if Datasize(f.typ) > 0 && !Agrees(f.typ) {
      p := LeafDisagrees(f.typ);
      i := 0;
      PositionBound(true, f.typ, p);
    } else if Datasize(f.typ) > 0 && AlignUp(cursor, align) != AlignUp(reading, align) {
      p := FirstLeaf(f.typ);
      i := 0;
      PositionBound(true, f.typ, p);
    } else {
      i, p := FieldDisagrees(rest, AlignUp(cursor, align) + CopyLength(f.typ),
                             AlignUp(reading, align) + Datasize(f.typ));
      i := i + 1;
    }
  }

  lemma AgreesIff(t: Type)
    requires WellFormed(t)
    ensures Agrees(t) <==> forall p | IsLeaf(t, p) :: LeafAgrees(t, p)
  {
    hide WellFormed, Agrees, IsLeaf, LeafAgrees;
    if Agrees(t) {
      forall p | IsLeaf(t, p)
        ensures LeafAgrees(t, p)
      {
        AgreesLeaf(t, p);
      }
    } else {
      var p := LeafDisagrees(t);
    }
  }

  /** Two copies in place agree. */
  lemma InPlaceAgrees(t: Type)
    requires WellFormed(t) && InPlace(true, t) && InPlace(false, t)
    ensures Agrees(t)
  {
    hide WellFormed, Agrees, InPlace, IsLeaf, Position, Moved;
    InPlaceIff(true, t);
    InPlaceIff(false, t);
    AgreesIff(t);
  }
}
