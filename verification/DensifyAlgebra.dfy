/** What `densify`, `dense` and `serialize_type` promise of each other. */
module DensifyAlgebra {
  import opened Alignment
  import opened Datatypes

  // ----- packing is insensitive to the offsets it starts from -----

  lemma {:induction false} PackKeeps(fs: Fields, at: nat, a: nat)
    ensures FieldsAlignment(Pack(fs, at)) == FieldsAlignment(fs)
    ensures FieldsDatasize(Pack(fs, at)) == FieldsDatasize(fs)
    ensures Pack(Pack(fs, at), a) == Pack(fs, a)
    ensures PackEnd(Pack(fs, at), a) == PackEnd(fs, a)
    decreases fs
  {
    hide Padding, Aligned, Span;
    match fs
    case Nil =>
    case Cons(f, rest) =>
      var buffersize, align := Buffersize(f.typ), AlignmentOf(f.typ);
      PackKeeps(rest, AlignUp(at, align) + buffersize, AlignUp(a, align) + buffersize);
  }

  lemma {:induction false} PackDensifyEach(fs: Fields, at: nat)
    requires DensifyEach(fs) == fs
    ensures DensifyEach(Pack(fs, at)) == Pack(fs, at)
    decreases fs
  {
    hide Padding, Aligned, Span;
    match fs
    case Nil =>
    case Cons(f, rest) =>
      PackDensifyEach(rest, AlignUp(at, AlignmentOf(f.typ)) + Buffersize(f.typ));
  }

  /** Densifying keeps the alignment and the size of the data. */
  lemma {:induction false} DensifyKeepsAlignmentAndData(t: Type)
    ensures AlignmentOf(Densify(t)) == AlignmentOf(t)
    ensures Datasize(Densify(t)) == Datasize(t)
    decreases t
  {
    hide Padding, Aligned, Span;
    match t
    case Scalar(_, _, _) =>
    case Array(element, _, _, _) => DensifyKeepsAlignmentAndData(element);
    case Compound(_, fields, _) =>
      DensifyEachKeepsAlignmentAndData(fields);
      PackKeeps(DensifyEach(fields), 0, 0);
    case Pointer(_) =>
  }

  lemma {:induction false} DensifyEachKeepsAlignmentAndData(fs: Fields)
    ensures FieldsAlignment(DensifyEach(fs)) == FieldsAlignment(fs)
    ensures FieldsDatasize(DensifyEach(fs)) == FieldsDatasize(fs)
    decreases fs
  {
    hide Padding, Aligned, Span;
    match fs
    case Nil =>
    case Cons(f, rest) =>
      DensifyKeepsAlignmentAndData(f.typ);
      DensifyEachKeepsAlignmentAndData(rest);
  }

  /** Densifying twice is densifying once. */
  lemma {:induction false} DensifyIdempotent(t: Type)
    ensures Densify(Densify(t)) == Densify(t)
    decreases t
  {
    hide Padding, Aligned, Span;
    match t
    case Scalar(_, _, _) =>
    case Array(element, _, _, _) => DensifyIdempotent(element);
    case Compound(_, fields, _) =>
      var dense := DensifyEach(fields);
      DensifyEachIdempotent(fields);
      PackDensifyEach(dense, 0);
      PackKeeps(dense, 0, 0);
      DensifyEachKeepsAlignmentAndData(fields);
    case Pointer(target) => DensifyIdempotent(target);
  }

  lemma {:induction false} DensifyEachIdempotent(fs: Fields)
    ensures DensifyEach(DensifyEach(fs)) == DensifyEach(fs)
    decreases fs
  {
    hide Padding, Aligned, Span;
    match fs
    case Nil =>
    case Cons(f, rest) =>
      DensifyIdempotent(f.typ);
      DensifyEachIdempotent(rest);
  }

  /** A densified type is dense. */
  lemma {:induction false} DensifyIsDense(t: Type)
    ensures IsDense(Densify(t))
    decreases t
  {
    hide Padding, Aligned, Span;
    match t
    case Scalar(_, _, _) =>
    case Array(element, _, _, _) => DensifyIsDense(element);
    case Compound(_, fields, _) =>
      PackDensifiedIsDense(fields, 0);
      PackKeeps(DensifyEach(fields), 0, 0);
      DensifyEachKeepsAlignmentAndData(fields);
    case Pointer(_) =>
  }

  lemma {:induction false} PackDensifiedIsDense(fs: Fields, at: nat)
    ensures FieldsDense(Pack(DensifyEach(fs), at), at)
    decreases fs
  {
    hide Padding, Aligned, Span;
    match fs
    case Nil =>
    case Cons(f, rest) =>
      DensifyIsDense(f.typ);
      var dense := Densify(f.typ);
      PackDensifiedIsDense(rest, AlignUp(at, AlignmentOf(dense)) + Buffersize(dense));
  }

  // ----- densifying never grows a well-formed type -----

  /** The size of a well-formed type is a multiple of its alignment. */
  lemma {:induction false} BuffersizeAligned(t: Type)
    requires WellFormed(t)
    ensures Aligned(Buffersize(t), AlignmentOf(t))
    decreases t
  {
    hide Padding, Aligned, Span;
    match t
    case Scalar(_, _, _) =>
    case Array(element, size, _, _) =>
      BuffersizeAligned(element);
      AlignedSpan(size, Buffersize(element), AlignmentOf(element));
    case Compound(_, _, _) =>
    case Pointer(_) => AlignedSelf(ADDRESS_SIZE);
  }

  /** Densifying a well-formed type never makes its buffer larger. */
  lemma {:induction false} DensifyShrinks(t: Type)
    requires WellFormed(t)
    ensures Buffersize(Densify(t)) <= Buffersize(t)
    decreases t
  {
    hide Padding, Aligned, Span;
    match t
    case Scalar(_, _, _) =>
    case Array(element, size, _, subsize) =>
      DensifyShrinks(element);
      SpanMonotone(subsize, size, Buffersize(Densify(element)), Buffersize(element));
    case Compound(_, fields, extent) =>
      PackedFits(fields, 0, 0, extent);
      AlignUpLeast(PackEnd(DensifyEach(fields), 0), FieldsAlignment(fields), extent);
    case Pointer(_) =>
  }

  /** The greedy layout of the densified fields stays below any layout of the fields. */
  lemma {:induction false} PackedFits(fs: Fields, at: nat, lo: nat, hi: nat)
    requires at <= lo && FieldsFit(fs, lo, hi) && FieldsWellFormed(fs)
    ensures PackEnd(DensifyEach(fs), at) <= hi
    decreases fs
  {
    hide Padding, Aligned, Span;
    match fs
    case Nil =>
    case Cons(f, rest) =>
      DensifyShrinks(f.typ);
      DensifyKeepsAlignmentAndData(f.typ);
      AlignUpLeast(at, AlignmentOf(f.typ), f.offset);
      PackedFits(rest, AlignUp(at, AlignmentOf(f.typ)) + Buffersize(Densify(f.typ)), f.offset + Buffersize(f.typ), hi);
  }

  // ----- when densifying changes nothing -----

  /** Everything behind a pointer is dense too, at every depth. */
  predicate PointeesDense(t: Type) {
    match t
    case Scalar(_, _, _) => true
    case Array(element, _, _, _) => PointeesDense(element)
    case Compound(_, fields, _) => FieldPointeesDense(fields)
    case Pointer(target) => IsDense(target) && PointeesDense(target)
  }

  predicate FieldPointeesDense(fs: Fields) {
    match fs
    case Nil => true
    case Cons(f, rest) => PointeesDense(f.typ) && FieldPointeesDense(rest)
  }

  /** `dense()` alone does not make `densify()` the identity: it holds of every pointer. */
  lemma DensePointerStillChanges()
    ensures var t := Pointer(Array(Scalar(Signed, 4, 4), 10, 2, 5));
      WellFormed(t) && IsDense(t) && Densify(t) != t
  {
  }

  /** `densify()` returns an equal type exactly when the type is dense, behind pointers as well. */
  lemma {:induction false} DensifyIdentityIff(t: Type)
    requires WellFormed(t)
    ensures Densify(t) == t <==> IsDense(t) && PointeesDense(t)
    decreases t
  {
    hide Padding, Aligned, Span;
    match t
    case Scalar(_, _, _) =>
    case Array(element, _, _, _) => DensifyIdentityIff(element);
    case Pointer(target) => DensifyIdentityIff(target);
    case Compound(_, fields, extent) =>
      PackIdentityIff(fields, 0, extent);
      if FieldsDense(fields, 0) && FieldPointeesDense(fields) {
        PackedFits(fields, 0, 0, extent);
        AlignUpLeast(PackEnd(DensifyEach(fields), 0), FieldsAlignment(fields), extent);
      } else if Densify(t) == t {
        DensifyIsDense(t);
      }
  }

  lemma {:induction false} PackIdentityIff(fs: Fields, at: nat, hi: nat)
    requires FieldsFit(fs, at, hi) && FieldsWellFormed(fs)
    ensures Pack(DensifyEach(fs), at) == fs <==> FieldsDense(fs, at) && FieldPointeesDense(fs)
    ensures Pack(DensifyEach(fs), at) == fs ==> PackEnd(DensifyEach(fs), at) == PackEnd(fs, at)
    decreases fs
  {
    hide Padding, Aligned, Span;
    match fs
    case Nil =>
    case Cons(f, rest) =>
      DensifyIdentityIff(f.typ);
      DensifyKeepsAlignmentAndData(f.typ);
      AlignUpLeast(at, AlignmentOf(f.typ), f.offset);
      if f.offset == AlignUp(at, AlignmentOf(f.typ)) && Densify(f.typ) == f.typ {
        PackIdentityIff(rest, f.offset + Buffersize(f.typ), hi);
      }
  }

  // ----- the serialized type -----

  predicate PointerFree(t: Type) {
    match t
    case Scalar(_, _, _) => true
    case Array(element, _, _, _) => PointerFree(element)
    case Compound(_, fields, _) => FieldsPointerFree(fields)
    case Pointer(_) => false
  }

  predicate FieldsPointerFree(fs: Fields) {
    match fs
    case Nil => true
    case Cons(f, rest) => PointerFree(f.typ) && FieldsPointerFree(rest)
  }

  /** Every record and tuple inside holds at least one byte of data. */
  predicate HoldsData(t: Type) {
    match t
    case Scalar(_, _, _) => true
    case Array(element, _, _, _) => HoldsData(element)
    case Compound(_, fields, _) => FieldsDatasize(fields) > 0 && FieldsHoldData(fields)
    case Pointer(target) => HoldsData(target)
  }

  predicate FieldsHoldData(fs: Fields) {
    match fs
    case Nil => true
    case Cons(f, rest) => HoldsData(f.typ) && FieldsHoldData(rest)
  }

  /** A serialized type never holds a pointer. */
  lemma {:induction false} SerializedIsPointerFree(t: Type)
    ensures PointerFree(SerializeType(t))
    decreases t
  {
    hide Padding, Aligned, Span;
    match t
    case Scalar(_, _, _) =>
    case Array(element, _, _, _) => SerializedIsPointerFree(element);
    case Compound(_, fields, _) => PackSerializedIsPointerFree(fields, 0);
    case Pointer(target) => SerializedIsPointerFree(target);
  }

  lemma {:induction false} PackSerializedIsPointerFree(fs: Fields, at: nat)
    ensures FieldsPointerFree(Pack(SerializeEach(fs), at))
    decreases fs
  {
    hide Padding, Aligned, Span;
    match fs
    case Nil =>
    case Cons(f, rest) =>
      SerializedIsPointerFree(f.typ);
      var ser := SerializeType(f.typ);
      PackSerializedIsPointerFree(rest, AlignUp(at, AlignmentOf(ser)) + Buffersize(ser));
  }

  lemma {:induction false} DensifyKeepsPointers(t: Type)
    ensures PointerFree(Densify(t)) == PointerFree(t)
    decreases t
  {
    hide Padding, Aligned, Span;
    match t
    case Scalar(_, _, _) =>
    case Array(element, _, _, _) => DensifyKeepsPointers(element);
    case Compound(_, fields, _) => PackDensifiedKeepsPointers(fields, 0);
    case Pointer(_) =>
  }

  lemma {:induction false} PackDensifiedKeepsPointers(fs: Fields, at: nat)
    ensures FieldsPointerFree(Pack(DensifyEach(fs), at)) == FieldsPointerFree(fs)
    decreases fs
  {
    hide Padding, Aligned, Span;
    match fs
    case Nil =>
    case Cons(f, rest) =>
      DensifyKeepsPointers(f.typ);
      var dense := Densify(f.typ);
      PackDensifiedKeepsPointers(rest, AlignUp(at, AlignmentOf(dense)) + Buffersize(dense));
  }

  lemma SpanZero(n: nat, x: nat, y: nat)
    requires x == 0 ==> y == 0
    ensures Span(n, x) == 0 ==> Span(n, y) == 0
  {
    assert n > 0 && x > 0 ==> n * x > 0;
  }

  /** The greedy layout is at least as long as its data, and empty when it has none. */
  lemma {:induction false} SerializedExtent(t: Type)
    ensures Datasize(SerializeType(t)) <= Buffersize(SerializeType(t))
    ensures Datasize(SerializeType(t)) == 0 ==> Buffersize(SerializeType(t)) == 0
    decreases t
  {
    hide Padding, Aligned, Span;
    match t
    case Scalar(_, _, _) =>
    case Array(element, _, _, subsize) =>
      SerializedExtent(element);
      SpanMonotone(subsize, subsize, Datasize(SerializeType(element)), Buffersize(SerializeType(element)));
      SpanZero(subsize, Datasize(SerializeType(element)), Buffersize(SerializeType(element)));
    case Compound(_, fields, _) =>
      var ser := SerializeEach(fields);
      PackSerializedEnd(fields, 0);
      PackKeeps(ser, 0, 0);
      AlignUpBounds(PackEnd(ser, 0), FieldsAlignment(ser));
      AlignUpZero(FieldsAlignment(ser));
    case Pointer(target) => SerializedExtent(target);
  }

  lemma {:induction false} PackSerializedEnd(fs: Fields, at: nat)
    ensures at + FieldsDatasize(SerializeEach(fs)) <= PackEnd(SerializeEach(fs), at)
    ensures at == 0 && FieldsDatasize(SerializeEach(fs)) == 0 ==> PackEnd(SerializeEach(fs), at) == 0
    decreases fs
  {
    hide Padding, Aligned, Span;
    match fs
    case Nil =>
    case Cons(f, rest) =>
      var ser := SerializeType(f.typ);
      SerializedExtent(f.typ);
      AlignUpBounds(at, AlignmentOf(ser));
      AlignUpZero(AlignmentOf(ser));
      PackSerializedEnd(rest, AlignUp(at, AlignmentOf(ser)) + Buffersize(ser));
  }

  /** The serialize plugin and the core library, which compute their layouts separately, agree
      exactly on pointer-free types whose records and tuples all hold data. */
  lemma {:induction false} SerializeIsDensifyIff(t: Type)
    requires WellFormed(t)
    ensures SerializeType(t) == Densify(t) <==> PointerFree(t) && HoldsData(t)
    decreases t
  {
    hide Padding, Aligned, Span;
    SerializedIsPointerFree(t);
    DensifyKeepsPointers(t);
    match t
    case Scalar(_, _, _) =>
    case Array(element, _, _, _) => SerializeIsDensifyIff(element);
    case Pointer(_) =>
    case Compound(_, fields, _) =>
      var ser, dense := SerializeEach(fields), DensifyEach(fields);
      if PointerFree(t) {
        SerializeEachIsDensifyIff(fields, 0);
        DensifyEachKeepsAlignmentAndData(fields);
        PackSerializedEnd(fields, 0);
        AlignUpBounds(PackEnd(ser, 0), FieldsAlignment(ser));
        AlignUpZero(FieldsAlignment(ser));
      }
  }

  lemma {:induction false} SerializeEachIsDensifyIff(fs: Fields, at: nat)
    requires FieldsWellFormed(fs) && FieldsPointerFree(fs)
    ensures SerializeEach(fs) == DensifyEach(fs) <==> FieldsHoldData(fs)
    ensures Pack(SerializeEach(fs), at) == Pack(DensifyEach(fs), at) ==> SerializeEach(fs) == DensifyEach(fs)
    decreases fs
  {
    hide Padding, Aligned, Span;
    match fs
    case Nil =>
    case Cons(f, rest) =>
      var ser := SerializeType(f.typ);
      SerializeIsDensifyIff(f.typ);
      SerializeEachIsDensifyIff(rest, AlignUp(at, AlignmentOf(ser)) + Buffersize(ser));
  }
}
