/** What the copy out of dense memory puts into each leaf: the byte at its reading position, or what was there. */
module DenseCopyBack {
  import opened Alignment
  import opened Datatypes
  import opened DensifyAlgebra
  import opened DenseCopy
  import opened Leaves
  import opened DenseCopyBounds
  import opened DenseCopyLeaves

  // ----- what is written over -----

  lemma {:induction false} FromDenseKeeps(t: Type, dst: seq<Byte>, base: nat, to: nat, src: seq<Byte>, sbase: nat,
                                          from: nat)
    requires WellFormed(t) && Aligned(base + to, AlignmentOf(t))
    requires FromDense(t, dst, base, to, src, sbase, from).Copied?
    ensures Advanced(FromDense(t, dst, base, to, src, sbase, from), dst, to, to + Buffersize(t))
    decreases t, 0
  {
    hide Span, Padding, Aligned, Memcpy, KeptBut, FromDenseElements, FromDenseFields, FieldsFit;
    match t
    case Scalar(_, bytes, _) => MemcpyAdvances(dst, to, src, from, bytes);
    case Pointer(_) => MemcpyAdvances(dst, to, src, from, ADDRESS_SIZE);
    case Array(element, size, start, subsize) =>
      var skipped := Span(start, Buffersize(element));
      ArrayWindow(size, start, subsize, Buffersize(element));
      if IsDense(element) {
        MemcpyAdvances(dst, to + skipped, src, from, Datasize(t));
        DenseSpanBounds(element);
        SpanMonotone(subsize, subsize, Datasize(element), Buffersize(element));
        KeptButWiden(dst, Memcpy(dst, to + skipped, src, from, Datasize(t)).bytes, to + skipped,
                     to + skipped + Datasize(t), to, to + Buffersize(t));
      } else {
        WindowAligned(element, start, base + to);
        ElementsKeep(element, subsize, dst, base, to + skipped, src, sbase, from);
        KeptButWiden(dst, FromDenseElements(element, subsize, dst, base, to + skipped, src, sbase, from).bytes,
                     to + skipped, to + skipped + Span(subsize, Buffersize(element)), to, to + Buffersize(t));
      }
    case Compound(_, fields, extent) =>
      if IsDense(t) {
        MemcpyAdvances(dst, to, src, from, extent);
      } else {
        FieldsKeep(fields, dst, base, to, src, sbase, from, 0, extent);
      }
  }

  lemma KeptButWiden(d: seq<Byte>, d': seq<Byte>, to: nat, end: nat, to': nat, end': nat)
    requires KeptBut(d, d', to, end) && to' <= to && end <= end'
    ensures KeptBut(d, d', to', end')
  {
  }

  lemma WindowAligned(element: Type, start: nat, address: nat)
    requires WellFormed(element) && Aligned(address, AlignmentOf(element))
    ensures Aligned(address + Span(start, Buffersize(element)), AlignmentOf(element))
  {
    hide Span, Aligned;
    BuffersizeAligned(element);
    AlignedSpan(start, Buffersize(element), AlignmentOf(element));
    AlignedAdd(address, Span(start, Buffersize(element)), AlignmentOf(element));
  }

  lemma {:induction false} ElementsKeep(t: Type, n: nat, dst: seq<Byte>, base: nat, to: nat, src: seq<Byte>, sbase: nat,
                                        from: nat)
    requires WellFormed(t) && Aligned(base + to, AlignmentOf(t))
    requires FromDenseElements(t, n, dst, base, to, src, sbase, from).Copied?
    ensures Advanced(FromDenseElements(t, n, dst, base, to, src, sbase, from), dst, to, to + Span(n, Buffersize(t)))
    decreases t, 1, n
  {
    hide Span, Padding, Aligned, KeptBut, FromDense, AlignmentOf, Buffersize, WellFormed, Datasize;
    if n == 0 {
      SpanSucc(0, Buffersize(t));
      KeptButSame(dst, to, to);
    } else {
      var b := Buffersize(t);
      SpanSucc(n - 1, b);
      AlignUpIdle(base + to, AlignmentOf(t));
      BuffersizeAligned(t);
      AlignedAdd(base + to, b, AlignmentOf(t));
      var at := from + Padding(sbase + from, AlignmentOf(t));
      FromDenseKeeps(t, dst, base, to, src, sbase, at);
      var r := FromDense(t, dst, base, to, src, sbase, at);
      ElementsKeep(t, n - 1, r.bytes, base, to + b, src, sbase, at + Datasize(t));
      var r' := FromDenseElements(t, n - 1, r.bytes, base, to + b, src, sbase, at + Datasize(t));
      KeptButChain(dst, r.bytes, r'.bytes, to, to + Span(n, b), to, to + b, to + b, to + Span(n, b));
    }
  }

  lemma {:induction false} FieldsKeep(fs: Fields, dst: seq<Byte>, base: nat, to: nat, src: seq<Byte>, sbase: nat,
                                      from: nat, lo: nat, hi: nat)
    requires FieldsWellFormed(fs) && FieldsFit(fs, lo, hi) && Aligned(base + to, FieldsAlignment(fs))
    requires FromDenseFields(fs, dst, base, to, src, sbase, from).Copied?
    ensures var r := FromDenseFields(fs, dst, base, to, src, sbase, from);
      r.Copied? && r.cursor == to && KeptBut(dst, r.bytes, to + lo, to + hi)
    decreases fs, 1
  {
    hide Padding, Aligned, KeptBut, FromDense, AlignmentOf, Buffersize, WellFormed, Datasize;
    match fs
    case Nil => KeptButSame(dst, to + lo, to + hi);
    case Cons(f, rest) =>
      FieldPlaceAligned(f, rest, base + to);
      FieldsFitBound(rest, f.offset + Buffersize(f.typ), hi);
      var at := from + Padding(sbase + from, AlignmentOf(f.typ));
      FromDenseKeeps(f.typ, dst, base, to + f.offset, src, sbase, at);
      var r := FromDense(f.typ, dst, base, to + f.offset, src, sbase, at);
      FieldsKeep(rest, r.bytes, base, to, src, sbase, at + Datasize(f.typ), f.offset + Buffersize(f.typ), hi);
      var r' := FromDenseFields(rest, r.bytes, base, to, src, sbase, at + Datasize(f.typ));
      KeptButChain(dst, r.bytes, r'.bytes, to + lo, to + hi, to + f.offset, to + f.offset + Buffersize(f.typ),
                   to + (f.offset + Buffersize(f.typ)), to + hi);
  }

  // ----- what is read -----

  /** The byte at `x` is the one read at `y`, or is left alone. */
  ghost predicate Fetched(moved: bool, after: seq<Byte>, x: nat, src: seq<Byte>, y: nat, before: seq<Byte>) {
    if moved then SameAt(after, x, src, y) else SameAt(after, x, before, x)
  }

  lemma MemcpyFetches(dst: seq<Byte>, to: nat, src: seq<Byte>, from: nat, n: nat, k: nat)
    requires Memcpy(dst, to, src, from, n).Copied? && to + k < |dst|
    ensures Fetched(k < n, Memcpy(dst, to, src, from, n).bytes, to + k, src, from + k, dst)
  {
  }

  /** What is fetched stays when the bytes around it change, before and after. */
  lemma FetchedLater(moved: bool, after: seq<Byte>, x: nat, src: seq<Byte>, y: nat, before: seq<Byte>,
                     after': seq<Byte>, to: nat, end: nat)
    requires Fetched(moved, after, x, src, y, before) && KeptBut(after, after', to, end) && (x < to || end <= x)
    ensures Fetched(moved, after', x, src, y, before)
  {
  }

  lemma FetchedEarlier(moved: bool, after: seq<Byte>, x: nat, src: seq<Byte>, y: nat, before: seq<Byte>,
                       before': seq<Byte>, to: nat, end: nat)
    requires Fetched(moved, after, x, src, y, before') && KeptBut(before, before', to, end) && (x < to || end <= x)
    ensures Fetched(moved, after, x, src, y, before)
  {
  }

  lemma {:induction false} FromDenseLeaf(t: Type, dst: seq<Byte>, base: nat, to: nat, src: seq<Byte>, sbase: nat,
                                         from: nat, p: Path)
    requires WellFormed(t) && Aligned(base + to, AlignmentOf(t)) && Aligned(sbase + from, AlignmentOf(t))
    requires to + Buffersize(t) <= |dst| && FromDense(t, dst, base, to, src, sbase, from).Copied? && IsLeaf(t, p)
    ensures Fetched(Moved(t, p), FromDense(t, dst, base, to, src, sbase, from).bytes, to + OffsetOf(t, p),
                    src, from + Position(false, t, p), dst)
    decreases t, 1
  {
    hide Span, Padding, Aligned, Memcpy, Fetched, FromDenseElements, FromDenseFields;
    LeafInside(t, p);
    match t
    case Scalar(_, bytes, _) => MemcpyFetches(dst, to, src, from, bytes, p.k);
    case Pointer(_) => MemcpyFetches(dst, to, src, from, ADDRESS_SIZE, p.k);
    case Array(_, _, _, _) => FromDenseArrayLeaf(t, dst, base, to, src, sbase, from, p);
    case Compound(_, fields, extent) =>
      if IsDense(t) {
        MemcpyFetches(dst, to, src, from, extent, OffsetOf(t, p));
      } else {
        FromDenseFieldLeaf(fields, dst, base, to, src, sbase, from, from, 0, 0, extent, p.i, p.rest);
      }
  }

  lemma {:induction false} FromDenseArrayLeaf(t: Type, dst: seq<Byte>, base: nat, to: nat, src: seq<Byte>, sbase: nat,
                                              from: nat, p: Path)
    requires t.Array? && WellFormed(t) && Aligned(base + to, AlignmentOf(t)) && Aligned(sbase + from, AlignmentOf(t))
    requires to + Buffersize(t) <= |dst| && FromDense(t, dst, base, to, src, sbase, from).Copied? && IsLeaf(t, p)
    ensures Fetched(Moved(t, p), FromDense(t, dst, base, to, src, sbase, from).bytes, to + OffsetOf(t, p),
                    src, from + Position(false, t, p), dst)
    decreases t, 0
  {
    hide Span, Padding, Aligned, Memcpy, Fetched, FromDenseElements, AlignmentOf;
    var Array(element, size, start, subsize) := t;
    ArrayAlignment(t);
    LeafInside(t, p);
    var b := Buffersize(element);
    ArrayWindow(size, start, subsize, b);
    SpanAdd(start, p.i, b);
    if IsDense(element) {
      MemcpyFetches(dst, to + Span(start, b), src, from, Datasize(t), Span(p.i, b) + OffsetOf(element, p.rest));
    } else {
      AlignUpIdle(sbase + from, AlignmentOf(element));
      WindowAligned(element, start, base + to);
      FromDenseElementLeaf(element, subsize, dst, base, to + Span(start, b), src, sbase, from, from, p.i, p.rest);
    }
  }

  /** `n` elements, the reading cursor at `from` and the first one read at `at`. */
  lemma {:induction false} FromDenseElementLeaf(t: Type, n: nat, dst: seq<Byte>, base: nat, to: nat, src: seq<Byte>,
                                                sbase: nat, from: nat, at: nat, i: nat, p: Path)
    requires WellFormed(t) && Aligned(base + to, AlignmentOf(t)) && at == from + Padding(sbase + from, AlignmentOf(t))
    requires to + Span(n, Buffersize(t)) <= |dst| && FromDenseElements(t, n, dst, base, to, src, sbase, from).Copied?
    requires i < n && IsLeaf(t, p)
    ensures Fetched(Moved(t, p), FromDenseElements(t, n, dst, base, to, src, sbase, from).bytes,
                    to + Span(i, Buffersize(t)) + OffsetOf(t, p), src,
                    at + Span(i, Stride(false, t)) + Position(false, t, p), dst)
    decreases t, 2, n
  {
    hide Span, Padding, Aligned, KeptBut, FromDense, AlignmentOf, Buffersize, WellFormed, Datasize, Fetched,
      Position, OffsetOf, Moved, IsLeaf;
    var b := Buffersize(t);
    SpanSucc(n - 1, b);
    SpanSucc(0, b);
    SpanSucc(0, Stride(false, t));
    AlignUpIdle(base + to, AlignmentOf(t));
    BuffersizeAligned(t);
    AlignedAdd(base + to, b, AlignmentOf(t));
    AlignUpBounds(sbase + from, AlignmentOf(t));
    AlignUpShift(sbase + at, Datasize(t), AlignmentOf(t));
    FromDenseKeeps(t, dst, base, to, src, sbase, at);
    var r := FromDense(t, dst, base, to, src, sbase, at);
    KeptLength(dst, r.bytes, to, to + b);
    var r' := FromDenseElements(t, n - 1, r.bytes, base, to + b, src, sbase, at + Datasize(t));
    LeafInside(t, p);
    if i == 0 {
      FromDenseLeaf(t, dst, base, to, src, sbase, at, p);
      ElementsKeep(t, n - 1, r.bytes, base, to + b, src, sbase, at + Datasize(t));
      FetchedLater(Moved(t, p), r.bytes, to + OffsetOf(t, p), src, at + Position(false, t, p), dst, r'.bytes,
                   to + b, to + b + Span(n - 1, b));
    } else {
      SpanSucc(i - 1, b);
      SpanSucc(i - 1, Stride(false, t));
      FromDenseElementLeaf(t, n - 1, r.bytes, base, to + b, src, sbase, at + Datasize(t), at + Stride(false, t), i - 1,
                           p);
      FetchedEarlier(Moved(t, p), r'.bytes, to + Span(i, b) + OffsetOf(t, p),
                     src, at + Span(i, Stride(false, t)) + Position(false, t, p), dst, r.bytes, to, to + b);
    }
  }

  lemma KeptLength(d: seq<Byte>, d': seq<Byte>, to: nat, end: nat)
    requires KeptBut(d, d', to, end)
    ensures |d'| == |d|
  {
  }

  lemma {:induction false} FromDenseFieldLeaf(fs: Fields, dst: seq<Byte>, base: nat, to: nat, src: seq<Byte>,
                                              sbase: nat,
                                              from: nat, origin: nat, at: nat, lo: nat, hi: nat, i: nat, p: Path)
    requires FieldsWellFormed(fs) && FieldsFit(fs, lo, hi) && Aligned(base + to, FieldsAlignment(fs))
    requires from == origin + at && Aligned(sbase + origin, FieldsAlignment(fs)) && to + hi <= |dst|
    requires FromDenseFields(fs, dst, base, to, src, sbase, from).Copied? && IsFieldLeaf(fs, i, p)
    ensures Fetched(FieldMoved(fs, i, p), FromDenseFields(fs, dst, base, to, src, sbase, from).bytes,
                    to + FieldOffsetOf(fs, i, p), src, origin + FieldPosition(false, fs, at, i, p), dst)
    decreases fs, 2
  {
    hide Padding, Aligned, KeptBut, FromDense, AlignmentOf, Buffersize, WellFormed, Datasize, Fetched, Position,
      OffsetOf, Moved, IsLeaf;
    var f, rest := fs.head, fs.tail;
    var b, end := Buffersize(f.typ), f.offset + Buffersize(f.typ);
    NextField(f, rest, sbase, origin, at);
    FieldPlaceAligned(f, rest, base + to);
    FieldsFitBound(rest, end, hi);
    var next := origin + AlignUp(at, AlignmentOf(f.typ));
    FromDenseKeeps(f.typ, dst, base, to + f.offset, src, sbase, next);
    var r := FromDense(f.typ, dst, base, to + f.offset, src, sbase, next);
    KeptLength(dst, r.bytes, to + f.offset, to + f.offset + b);
    var r' := FromDenseFields(rest, r.bytes, base, to, src, sbase, next + Datasize(f.typ));
    if i == 0 {
      FromDenseLeaf(f.typ, dst, base, to + f.offset, src, sbase, next, p);
      LeafInside(f.typ, p);
      FieldsKeep(rest, r.bytes, base, to, src, sbase, next + Datasize(f.typ), end, hi);
      FetchedLater(Moved(f.typ, p), r.bytes, to + f.offset + OffsetOf(f.typ, p), src, next + Position(false, f.typ, p),
                   dst, r'.bytes, to + end, to + hi);
    } else {
      FieldLeafInside(rest, i - 1, p, end, hi);
      FromDenseFieldLeaf(rest, r.bytes, base, to, src, sbase, next + Datasize(f.typ), origin,
                         next + Datasize(f.typ) - origin, end, hi, i - 1, p);
      FetchedEarlier(FieldMoved(rest, i - 1, p), r'.bytes, to + FieldOffsetOf(rest, i - 1, p),
                     src, origin + FieldPosition(false, fs, at, i, p), dst, r.bytes, to + f.offset, to + f.offset + b);
    }
  }
}
