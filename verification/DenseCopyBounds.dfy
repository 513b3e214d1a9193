/** Both dense copies of every well-formed type stay inside the two buffers. */
module DenseCopyBounds {
  import opened Alignment
  import opened Datatypes
  import opened DensifyAlgebra
  import opened DenseCopy
  import opened Leaves

  // ----- how far a copy reaches -----

  /** The densified extent without the byte that keeps addresses unique: always aligned. */
  function DenseSpan(t: Type): nat {
    match t
    case Scalar(_, bytes, _) => bytes
    case Array(element, _, _, subsize) => Span(subsize, DenseSpan(element))
    case Compound(_, fields, _) => AlignUp(PackEnd(DensifyEach(fields), 0), FieldsAlignment(fields))
    case Pointer(_) => ADDRESS_SIZE
  }

  lemma {:induction false} DenseSpanBounds(t: Type)
    requires WellFormed(t)
    ensures Datasize(t) <= DenseSpan(t) <= Buffersize(Densify(t)) <= Buffersize(t)
    ensures Aligned(DenseSpan(t), AlignmentOf(t))
    decreases t
  {
    hide Padding, Aligned, Span;
    DensifyShrinks(t);
    match t
    case Scalar(_, _, _) =>
    case Pointer(_) => AlignedSelf(ADDRESS_SIZE);
    case Array(element, _, _, subsize) =>
      DenseSpanBounds(element);
      SpanMonotone(subsize, subsize, Datasize(element), DenseSpan(element));
      SpanMonotone(subsize, subsize, DenseSpan(element), Buffersize(Densify(element)));
      AlignedSpan(subsize, DenseSpan(element), AlignmentOf(element));
    case Compound(_, fields, _) =>
      PackEndHoldsData(fields, 0);
      AlignUpBounds(PackEnd(DensifyEach(fields), 0), FieldsAlignment(fields));
  }

  lemma {:induction false} PackEndHoldsData(fs: Fields, at: nat)
    requires FieldsWellFormed(fs)
    ensures at + FieldsDatasize(fs) <= PackEnd(DensifyEach(fs), at)
    decreases fs
  {
    hide Padding, Aligned, Span;
    match fs
    case Nil =>
    case Cons(f, rest) =>
      DenseSpanBounds(f.typ);
      AlignUpBounds(at, AlignmentOf(Densify(f.typ)));
      PackEndHoldsData(rest, AlignUp(at, AlignmentOf(Densify(f.typ))) + Buffersize(Densify(f.typ)));
  }

  /** A dense well-formed type is as large as its densified form, so memcpy may copy it whole. */
  lemma {:induction false} DenseKeepsBuffersize(t: Type)
    requires WellFormed(t) && IsDense(t)
    ensures Buffersize(Densify(t)) == Buffersize(t)
    decreases t
  {
    hide Padding, Aligned, Span;
    DensifyShrinks(t);
    match t
    case Scalar(_, _, _) =>
    case Pointer(_) =>
    case Array(element, _, _, _) => DenseKeepsBuffersize(element);
    case Compound(_, fields, extent) =>
      DenseFieldsKeepLayout(fields, 0, extent);
      DensifyEachKeepsAlignmentAndData(fields);
  }

  /** The fields `gs` sit where the fields `fs` sit. */
  predicate SameOffsets(fs: Fields, gs: Fields) {
    match (fs, gs)
    case (Nil, Nil) => true
    case (Cons(f, frest), Cons(g, grest)) => f.offset == g.offset && SameOffsets(frest, grest)
    case _ => false
  }

  lemma {:induction false} DenseFieldsKeepLayout(fs: Fields, at: nat, hi: nat)
    requires FieldsWellFormed(fs) && FieldsFit(fs, at, hi) && FieldsDense(fs, at)
    ensures PackEnd(DensifyEach(fs), at) == PackEnd(fs, at)
    ensures SameOffsets(fs, Pack(DensifyEach(fs), at))
    decreases fs
  {
    hide Padding, Aligned, Span;
    match fs
    case Nil =>
    case Cons(f, rest) =>
      DenseKeepsBuffersize(f.typ);
      DensifyKeepsAlignmentAndData(f.typ);
      AlignUpLeast(at, AlignmentOf(f.typ), f.offset);
      DenseFieldsKeepLayout(rest, f.offset + Buffersize(f.typ), hi);
  }

  /** The window of a well-formed array lies inside its buffer. */
  lemma ArrayWindow(size: nat, start: nat, subsize: nat, buffersize: nat)
    requires start + subsize <= size
    ensures Span(start, buffersize) + Span(subsize, buffersize) <= Span(size, buffersize)
  {
    hide Span;
    SpanAdd(start, subsize, buffersize);
    SpanMonotone(start + subsize, size, buffersize, buffersize);
  }

  // ----- frames -----

  /** The copy succeeded, its cursor lies in [`lo`, `hi`] and it wrote only inside [`to`, `end`). */
  ghost predicate Bounded(r: Outcome, dst: seq<Byte>, to: nat, end: nat, lo: nat, hi: nat) {
    && r.Copied?
    && lo <= r.cursor <= hi
    && |r.bytes| == |dst|
    && KeptOutside(dst, r.bytes, to, end)
  }

  ghost predicate KeptOutside(d: seq<Byte>, d': seq<Byte>, to: nat, end: nat) {
    && |d'| == |d|
    && to <= end <= |d|
    && (forall i | 0 <= i < to :: d'[i] == d[i])
    && (forall i | end <= i < |d| :: d'[i] == d[i])
  }

  lemma KeptOutsideSame(d: seq<Byte>, to: nat, end: nat)
    requires to <= end <= |d|
    ensures KeptOutside(d, d, to, end)
  {
  }

  lemma KeptOutsideWiden(d: seq<Byte>, d': seq<Byte>, to: nat, end: nat, to': nat, end': nat)
    requires KeptOutside(d, d', to, end) && to' <= to && end <= end' <= |d|
    ensures KeptOutside(d, d', to', end')
  {
  }

  lemma KeptOutsideChain(d: seq<Byte>, d': seq<Byte>, d'': seq<Byte>, to: nat, end: nat, to1: nat, end1: nat, to2: nat,
                         end2: nat)
    requires KeptOutside(d, d', to1, end1) && KeptOutside(d', d'', to2, end2)
    requires to <= to1 && end1 <= end && to <= to2 && end2 <= end <= |d|
    ensures KeptOutside(d, d'', to, end)
  {
  }

  lemma MemcpyBounded(dst: seq<Byte>, to: nat, src: seq<Byte>, from: nat, n: nat, end: nat)
    requires to + n <= end <= |dst| && from + n <= |src|
    ensures Bounded(Memcpy(dst, to, src, from, n), dst, to, end, to + n, to + n)
  {
  }

  // ----- data_to_dense_copy -----

  /** The copy into the densified layout writes only the densified buffer, reads only the
      source buffer and returns a cursor between the end of the data and the end of the buffer. */
  lemma {:induction false} ToDenseBounded(t: Type, dst: seq<Byte>, base: nat, to: nat, src: seq<Byte>, from: nat)
    requires WellFormed(t) && Aligned(base + to, AlignmentOf(t))
    requires to + Buffersize(Densify(t)) <= |dst| && from + Buffersize(t) <= |src|
    ensures var end := to + Buffersize(Densify(t));
      Bounded(ToDense(t, dst, base, to, src, from), dst, to, end, to + Datasize(t),
              if IsDense(t) then end else to + DenseSpan(t))
    decreases t, 0
  {
    hide Padding, Aligned, Span, KeptOutside, PackEnd, FieldsFit, Memcpy, ToDenseElements, ToDenseFields;
    DenseSpanBounds(t);
    var end := to + Buffersize(Densify(t));
    match t
    case Scalar(_, bytes, _) => MemcpyBounded(dst, to, src, from, bytes, end);
    case Pointer(_) => MemcpyBounded(dst, to, src, from, ADDRESS_SIZE, end);
    case Array(element, size, start, subsize) =>
      ArrayWindow(size, start, subsize, Buffersize(element));
      var first := from + Span(start, Buffersize(element));
      if IsDense(element) {
        DenseSpanBounds(element);
        SpanMonotone(subsize, subsize, Datasize(element), Buffersize(element));
        MemcpyBounded(dst, to, src, first, Datasize(t), end);
      } else {
        ToDenseElementsBounded(element, subsize, dst, base, to, to, src, first);
      }
    case Compound(_, fields, extent) =>
      if IsDense(t) {
        DenseKeepsBuffersize(t);
        MemcpyBounded(dst, to, src, from, extent, end);
      } else {
        AlignUpBounds(PackEnd(DensifyEach(fields), 0), FieldsAlignment(fields));
        ToDenseFieldsBounded(fields, dst, base, to, to, 0, src, from, 0, extent);
        KeptOutsideWiden(dst, ToDense(t, dst, base, to, src, from).bytes, to, to + PackEnd(DensifyEach(fields), 0), to,
                         end);
      }
  }

  /** One element: the aligned cursor is not past where the element is due. */
  lemma ElementStep(t: Type, base: nat, to: nat, due: nat)
    requires WellFormed(t) && to <= due && Aligned(base + due, AlignmentOf(t))
    ensures var at := to + Padding(base + to, AlignmentOf(t));
      to <= at <= due && Aligned(base + at, AlignmentOf(t))
    ensures Aligned(base + due + DenseSpan(t), AlignmentOf(t))
    ensures Datasize(t) <= DenseSpan(t) <= Buffersize(Densify(t)) <= Buffersize(t)
  {
    hide Padding, Aligned, Span;
    var align := AlignmentOf(t);
    AlignUpBounds(base + to, align);
    AlignUpLeast(base + to, align, base + due);
    DenseSpanBounds(t);
    AlignedAdd(base + due, DenseSpan(t), align);
  }

  /** `n` elements, the cursor at `to` and the first element due at `due`. */
  lemma {:induction false} ToDenseElementsBounded(t: Type, n: nat, dst: seq<Byte>, base: nat, to: nat, due: nat,
                                                  src: seq<Byte>, from: nat)
    requires WellFormed(t) && !IsDense(t)
    requires to <= due && Aligned(base + due, AlignmentOf(t))
    requires due + Span(n, Buffersize(Densify(t))) <= |dst| && from + Span(n, Buffersize(t)) <= |src|
    ensures Bounded(ToDenseElements(t, n, dst, base, to, src, from), dst, to, due + Span(n, Buffersize(Densify(t))),
                    to + Span(n, Datasize(t)), due + Span(n, DenseSpan(t)))
    decreases t, 1, n
  {
    hide Padding, Aligned, Span, ToDense, Densify, Buffersize, Datasize, DenseSpan, WellFormed, IsDense, AlignmentOf,
      KeptOutside;
    if n > 0 {
      ElementStep(t, base, to, due);
      SpanSucc(n - 1, Buffersize(Densify(t)));
      SpanSucc(n - 1, Buffersize(t));
      SpanSucc(n - 1, Datasize(t));
      SpanSucc(n - 1, DenseSpan(t));
      var at := to + Padding(base + to, AlignmentOf(t));
      ToDenseBounded(t, dst, base, at, src, from);
      var r := ToDense(t, dst, base, at, src, from);
      ToDenseElementsBounded(t, n - 1, r.bytes, base, r.cursor, due + DenseSpan(t), src, from + Buffersize(t));
      var r' := ToDenseElements(t, n - 1, r.bytes, base, r.cursor, src, from + Buffersize(t));
      KeptOutsideChain(dst, r.bytes, r'.bytes, to, due + Span(n, Buffersize(Densify(t))), at,
                       at + Buffersize(Densify(t)), r.cursor, due + DenseSpan(t) + Span(n - 1, Buffersize(Densify(t))));
    } else {
      SpanSucc(0, Buffersize(Densify(t)));
      SpanSucc(0, Datasize(t));
      SpanSucc(0, DenseSpan(t));
      KeptOutsideSame(dst, to, due);
    }
  }

  /** One field: the aligned cursor is not past the offset the greedy layout gives it. */
  lemma FieldStep(f: Field, rest: Fields, base: nat, to: nat, origin: nat, at: nat)
    requires WellFormed(f.typ) && FieldsWellFormed(rest) && origin <= to <= origin + at
    requires Aligned(base + origin, FieldsAlignment(Cons(f, rest)))
    ensures AlignmentOf(Densify(f.typ)) == AlignmentOf(f.typ)
    ensures Aligned(base + origin, FieldsAlignment(rest)) && Aligned(base + origin, AlignmentOf(f.typ))
    ensures var next := to + Padding(base + to, AlignmentOf(f.typ));
      to <= next <= origin + AlignUp(at, AlignmentOf(f.typ)) && Aligned(base + next, AlignmentOf(f.typ))
    ensures Datasize(f.typ) <= DenseSpan(f.typ) <= Buffersize(Densify(f.typ)) <= Buffersize(f.typ)
    ensures var at' := AlignUp(at, AlignmentOf(f.typ)) + Buffersize(Densify(f.typ));
      at' + FieldsDatasize(rest) <= PackEnd(DensifyEach(rest), at')
  {
    hide Padding, Aligned, Span, Densify, DenseSpan, Buffersize, Datasize, WellFormed, PackEnd, AlignmentOf,
      DensifyEach, FieldsWellFormed;
    var align := AlignmentOf(f.typ);
    AlignedWeaken(base + origin, align, FieldsAlignment(Cons(f, rest)));
    AlignedWeaken(base + origin, FieldsAlignment(rest), FieldsAlignment(Cons(f, rest)));
    DensifyKeepsAlignmentAndData(f.typ);
    AlignUpBounds(base + to, align);
    AlignUpMonotone(base + to, base + origin + at, align);
    AlignUpShift(base + origin, at, align);
    DenseSpanBounds(f.typ);
    PackEndHoldsData(rest, AlignUp(at, align) + Buffersize(Densify(f.typ)));
  }

  /** The fields of a compound whose dense image starts at `origin`, the cursor at `to`; the
      greedy layout has reached `origin + at` and the source layout `lo`. */
  lemma {:induction false} ToDenseFieldsBounded(fs: Fields, dst: seq<Byte>, base: nat, to: nat, origin: nat, at: nat,
                                                src: seq<Byte>, from: nat, lo: nat, hi: nat)
    requires FieldsWellFormed(fs) && FieldsFit(fs, lo, hi)
    requires origin <= to <= origin + at && Aligned(base + origin, FieldsAlignment(fs))
    requires origin + PackEnd(DensifyEach(fs), at) <= |dst| && from + hi <= |src|
    ensures var end := origin + PackEnd(DensifyEach(fs), at);
      Bounded(ToDenseFields(fs, dst, base, to, src, from), dst, to, end, to + FieldsDatasize(fs), end)
    decreases fs, 1
  {
    hide Padding, Aligned, Span, ToDense, Densify, Buffersize, Datasize, DenseSpan, WellFormed, IsDense, AlignmentOf,
      FieldsAlignment, KeptOutside;
    match fs
    case Nil => KeptOutsideSame(dst, to, origin + at);
    case Cons(f, rest) =>
      FieldStep(f, rest, base, to, origin, at);
      FieldsFitBound(rest, f.offset + Buffersize(f.typ), hi);
      var next := to + Padding(base + to, AlignmentOf(f.typ));
      ToDenseBounded(f.typ, dst, base, next, src, from + f.offset);
      var r := ToDense(f.typ, dst, base, next, src, from + f.offset);
      var at' := AlignUp(at, AlignmentOf(f.typ)) + Buffersize(Densify(f.typ));
      ToDenseFieldsBounded(rest, r.bytes, base, r.cursor, origin, at', src, from, f.offset + Buffersize(f.typ), hi);
      var r' := ToDenseFields(rest, r.bytes, base, r.cursor, src, from);
      KeptOutsideChain(dst, r.bytes, r'.bytes, to, origin + PackEnd(DensifyEach(fs), at), next,
                       next + Buffersize(Densify(f.typ)), r.cursor, origin + PackEnd(DensifyEach(rest), at'));
  }

  // ----- data_from_dense_copy -----

  /** The copy out of the densified layout reads only the densified buffer, writes only the
      destination buffer and returns the end of the destination. */
  lemma {:induction false} FromDenseBounded(t: Type, dst: seq<Byte>, base: nat, to: nat, src: seq<Byte>, sbase: nat,
                                            from: nat)
    requires WellFormed(t) && Aligned(base + to, AlignmentOf(t)) && Aligned(sbase + from, AlignmentOf(t))
    requires to + Buffersize(t) <= |dst| && from + Buffersize(Densify(t)) <= |src|
    ensures var end := to + Buffersize(t);
      Bounded(FromDense(t, dst, base, to, src, sbase, from), dst, to, end, end, end)
    decreases t, 1
  {
    hide Padding, Aligned, Span, KeptOutside, PackEnd, FieldsFit, Memcpy, FromDenseElements, FromDenseFields;
    DenseSpanBounds(t);
    var end := to + Buffersize(t);
    match t
    case Scalar(_, bytes, _) => MemcpyBounded(dst, to, src, from, bytes, end);
    case Pointer(_) => MemcpyBounded(dst, to, src, from, ADDRESS_SIZE, end);
    case Array(_, _, _, _) => FromDenseArrayBounded(t, dst, base, to, src, sbase, from);
    case Compound(_, fields, extent) =>
      if IsDense(t) {
        DenseKeepsBuffersize(t);
        MemcpyBounded(dst, to, src, from, extent, end);
      } else {
        AlignUpBounds(PackEnd(DensifyEach(fields), 0), FieldsAlignment(fields));
        FromDenseFieldsBounded(fields, dst, base, to, src, sbase, from, from, 0, 0, extent);
      }
  }

  lemma {:induction false} FromDenseArrayBounded(t: Type, dst: seq<Byte>, base: nat, to: nat, src: seq<Byte>,
                                                 sbase: nat, from: nat)
    requires t.Array? && WellFormed(t) && Aligned(base + to, AlignmentOf(t)) && Aligned(sbase + from, AlignmentOf(t))
    requires to + Buffersize(t) <= |dst| && from + Buffersize(Densify(t)) <= |src|
    ensures var end := to + Buffersize(t);
      Bounded(FromDense(t, dst, base, to, src, sbase, from), dst, to, end, end, end)
    decreases t, 0
  {
    hide Padding, Aligned, Span, KeptOutside, Memcpy, FromDenseElements, DenseSpan;
    var Array(element, size, start, subsize) := t;
    var end := to + Buffersize(t);
    ArrayWindow(size, start, subsize, Buffersize(element));
    var skipped := Span(start, Buffersize(element));
    DenseSpanBounds(element);
    if IsDense(element) {
      SpanMonotone(subsize, subsize, Datasize(element), Buffersize(Densify(element)));
      SpanMonotone(subsize, subsize, Datasize(element), Buffersize(element));
      MemcpyBounded(dst, to + skipped, src, from, Datasize(t), end);
      KeptOutsideWiden(dst, Memcpy(dst, to + skipped, src, from, Datasize(t)).bytes, to + skipped, end, to, end);
    } else {
      BuffersizeAligned(element);
      AlignedSpan(start, Buffersize(element), AlignmentOf(element));
      AlignedAdd(base + to, skipped, AlignmentOf(element));
      FromDenseElementsBounded(element, subsize, dst, base, to + skipped, src, sbase, from, from);
      KeptOutsideWiden(dst, FromDenseElements(element, subsize, dst, base, to + skipped, src, sbase, from).bytes,
                       to + skipped, to + skipped + Span(subsize, Buffersize(element)), to, end);
    }
  }

  /** `n` elements out of the dense buffer, whose cursor is at `from` and first element due at `due`. */
  lemma {:induction false} FromDenseElementsBounded(t: Type, n: nat, dst: seq<Byte>, base: nat, to: nat,
                                                    src: seq<Byte>, sbase: nat, from: nat, due: nat)
    requires WellFormed(t) && Aligned(base + to, AlignmentOf(t))
    requires from <= due && Aligned(sbase + due, AlignmentOf(t))
    requires to + Span(n, Buffersize(t)) <= |dst| && due + Span(n, Buffersize(Densify(t))) <= |src|
    ensures var end := to + Span(n, Buffersize(t));
      Bounded(FromDenseElements(t, n, dst, base, to, src, sbase, from), dst, to, end, end, end)
    decreases t, 2, n
  {
    hide Padding, Aligned, Span, FromDense, Densify, Buffersize, Datasize, DenseSpan, WellFormed, IsDense, AlignmentOf,
      KeptOutside;
    if n > 0 {
      ElementStep(t, sbase, from, due);
      SpanSucc(n - 1, Buffersize(Densify(t)));
      SpanSucc(n - 1, Buffersize(t));
      BuffersizeAligned(t);
      AlignedAdd(base + to, Buffersize(t), AlignmentOf(t));
      AlignUpIdle(base + to, AlignmentOf(t));
      var at := from + Padding(sbase + from, AlignmentOf(t));
      FromDenseBounded(t, dst, base, to, src, sbase, at);
      var r := FromDense(t, dst, base, to, src, sbase, at);
      FromDenseElementsBounded(t, n - 1, r.bytes, base, r.cursor, src, sbase, at + Datasize(t), due + DenseSpan(t));
      var r' := FromDenseElements(t, n - 1, r.bytes, base, r.cursor, src, sbase, at + Datasize(t));
      var end := to + Span(n, Buffersize(t));
      KeptOutsideChain(dst, r.bytes, r'.bytes, to, end, to, to + Buffersize(t), r.cursor, end);
    } else {
      SpanSucc(0, Buffersize(t));
      KeptOutsideSame(dst, to, to);
    }
  }

  /** The fields of a compound at `to` whose dense image starts at `origin`, its cursor at `from`. */
  lemma {:induction false} FromDenseFieldsBounded(fs: Fields, dst: seq<Byte>, base: nat, to: nat, src: seq<Byte>,
                                                  sbase: nat, from: nat, origin: nat, at: nat, lo: nat, hi: nat)
    requires FieldsWellFormed(fs) && FieldsFit(fs, lo, hi)
    requires origin <= from <= origin + at && Aligned(sbase + origin, FieldsAlignment(fs))
    requires Aligned(base + to, FieldsAlignment(fs))
    requires to + hi <= |dst| && origin + PackEnd(DensifyEach(fs), at) <= |src|
    ensures Bounded(FromDenseFields(fs, dst, base, to, src, sbase, from), dst, to + lo, to + hi, to, to)
    decreases fs, 1
  {
    hide Padding, Aligned, Span, FromDense, Densify, Buffersize, Datasize, DenseSpan, WellFormed, IsDense, AlignmentOf,
      FieldsAlignment, KeptOutside;
    match fs
    case Nil => KeptOutsideSame(dst, to + lo, to + hi);
    case Cons(f, rest) =>
      FieldStep(f, rest, sbase, from, origin, at);
      FieldsFitBound(rest, f.offset + Buffersize(f.typ), hi);
      FieldPlaceAligned(f, rest, base + to);
      var next := from + Padding(sbase + from, AlignmentOf(f.typ));
      FromDenseBounded(f.typ, dst, base, to + f.offset, src, sbase, next);
      var r := FromDense(f.typ, dst, base, to + f.offset, src, sbase, next);
      var at' := AlignUp(at, AlignmentOf(f.typ)) + Buffersize(Densify(f.typ));
      FromDenseFieldsBounded(rest, r.bytes, base, to, src, sbase, next + Datasize(f.typ), origin, at',
                             f.offset + Buffersize(f.typ), hi);
      var r' := FromDenseFields(rest, r.bytes, base, to, src, sbase, next + Datasize(f.typ));
      KeptOutsideChain(dst, r.bytes, r'.bytes, to + lo, to + hi, to + f.offset, to + f.offset + Buffersize(f.typ),
                       to + (f.offset + Buffersize(f.typ)), to + hi);
  }

  /** A field of an aligned compound is aligned, and so is the compound for the other fields. */
  lemma FieldPlaceAligned(f: Field, rest: Fields, address: nat)
    requires Aligned(address, FieldsAlignment(Cons(f, rest))) && Aligned(f.offset, AlignmentOf(f.typ))
    ensures Aligned(address + f.offset, AlignmentOf(f.typ)) && Aligned(address, FieldsAlignment(rest))
  {
    hide Aligned, AlignmentOf;
    AlignedWeaken(address, AlignmentOf(f.typ), FieldsAlignment(Cons(f, rest)));
    AlignedWeaken(address, FieldsAlignment(rest), FieldsAlignment(Cons(f, rest)));
    AlignedAdd(address, f.offset, AlignmentOf(f.typ));
  }
}
