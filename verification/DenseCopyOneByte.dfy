/** A value with one byte set, copied into blank dense memory: the byte arrives at its position or nowhere, and
    everything else stays blank. */
module DenseCopyOneByte {
  import opened Alignment
  import opened Datatypes
  import opened DenseCopy
  import opened Leaves
  import opened DenseCopyBounds
  import opened DenseCopyLeaves

  /** All zero but at `x`; with `x` past the end, all zero. */
  ghost predicate OnlyAt(s: seq<Byte>, x: nat) {
    forall i | 0 <= i < |s| && i != x :: s[i] == 0
  }

  lemma MemcpyOnlyAt(dst: seq<Byte>, to: nat, src: seq<Byte>, from: nat, n: nat, x: nat, y: nat)
    requires Memcpy(dst, to, src, from, n).Copied? && OnlyAt(src, x) && OnlyAt(dst, y)
    requires from <= x < from + n ==> y == to + (x - from)
    ensures OnlyAt(Memcpy(dst, to, src, from, n).bytes, y)
  {
    var r := Memcpy(dst, to, src, from, n).bytes;
    forall i | 0 <= i < |r| && i != y
      ensures r[i] == 0
    {
      if to <= i < to + n { assert r[i] == src[from + (i - to)]; }
    }
  }

  // ----- a part that does not hold the byte -----

  lemma {:induction false} Missed(t: Type, dst: seq<Byte>, base: nat, to: nat, src: seq<Byte>, from: nat, x: nat,
                                  y: nat)
    requires WellFormed(t) && ToDense(t, dst, base, to, src, from).Copied? && OnlyAt(src, x) && OnlyAt(dst, y)
    requires x < from || from + Buffersize(t) <= x
    ensures OnlyAt(ToDense(t, dst, base, to, src, from).bytes, y)
    decreases t, 0
  {
    hide Span, Padding, Aligned, Memcpy, OnlyAt, ToDenseElements, ToDenseFields, FieldsFit;
    match t
    case Scalar(_, bytes, _) => MemcpyOnlyAt(dst, to, src, from, bytes, x, y);
    case Pointer(_) => MemcpyOnlyAt(dst, to, src, from, ADDRESS_SIZE, x, y);
    case Array(element, size, start, subsize) =>
      var first := from + Span(start, Buffersize(element));
      ArrayWindow(size, start, subsize, Buffersize(element));
      if IsDense(element) {
        DenseSpanBounds(element);
        SpanMonotone(subsize, subsize, Datasize(element), Buffersize(element));
        MemcpyOnlyAt(dst, to, src, first, Datasize(t), x, y);
      } else {
        ElementsMissed(element, subsize, dst, base, to, src, first, x, y);
      }
    case Compound(_, fields, extent) =>
      if IsDense(t) {
        MemcpyOnlyAt(dst, to, src, from, extent, x, y);
      } else {
        FieldsMissed(fields, dst, base, to, src, from, 0, extent, x, y);
      }
  }

  lemma {:induction false} ElementsMissed(t: Type, n: nat, dst: seq<Byte>, base: nat, to: nat, src: seq<Byte>,
                                          from: nat, x: nat, y: nat)
    requires WellFormed(t) && ToDenseElements(t, n, dst, base, to, src, from).Copied? && OnlyAt(src, x)
    requires OnlyAt(dst, y)
    requires x < from || from + Span(n, Buffersize(t)) <= x
    ensures OnlyAt(ToDenseElements(t, n, dst, base, to, src, from).bytes, y)
    decreases t, 1, n
  {
    hide Span, Padding, OnlyAt, ToDense, Buffersize, AlignmentOf, WellFormed;
    if n > 0 {
      SpanSucc(n - 1, Buffersize(t));
      var at := to + Padding(base + to, AlignmentOf(t));
      Missed(t, dst, base, at, src, from, x, y);
      var r := ToDense(t, dst, base, at, src, from);
      ElementsMissed(t, n - 1, r.bytes, base, r.cursor, src, from + Buffersize(t), x, y);
    }
  }

  lemma {:induction false} FieldsMissed(fs: Fields, dst: seq<Byte>, base: nat, to: nat, src: seq<Byte>, from: nat,
                                        lo: nat, hi: nat, x: nat, y: nat)
    requires FieldsWellFormed(fs) && FieldsFit(fs, lo, hi)
    requires ToDenseFields(fs, dst, base, to, src, from).Copied? && OnlyAt(src, x) && OnlyAt(dst, y)
    requires x < from + lo || from + hi <= x
    ensures OnlyAt(ToDenseFields(fs, dst, base, to, src, from).bytes, y)
    decreases fs, 1
  {
    hide Padding, OnlyAt, ToDense, Buffersize, AlignmentOf, WellFormed, Aligned;
    match fs
    case Nil =>
    case Cons(f, rest) =>
      FieldsFitBound(rest, f.offset + Buffersize(f.typ), hi);
      var at := to + Padding(base + to, AlignmentOf(f.typ));
      Missed(f.typ, dst, base, at, src, from + f.offset, x, y);
      var r := ToDense(f.typ, dst, base, at, src, from + f.offset);
      FieldsMissed(rest, r.bytes, base, r.cursor, src, from, f.offset + Buffersize(f.typ), hi, x, y);
  }

  // ----- the part that holds it -----

  /** Where the byte may arrive; nowhere is past the end. */
  ghost function Arrival(t: Type, p: Path, dst: seq<Byte>, to: nat): nat
    requires IsLeaf(t, p)
  {
    if Moved(t, p) then to + Position(true, t, p) else |dst|
  }

  lemma {:induction false} Hit(t: Type, dst: seq<Byte>, base: nat, to: nat, src: seq<Byte>, from: nat, p: Path)
    requires WellFormed(t) && Aligned(base + to, AlignmentOf(t)) && ToDense(t, dst, base, to, src, from).Copied?
    requires IsLeaf(t, p) && OnlyAt(src, from + OffsetOf(t, p)) && OnlyAt(dst, Arrival(t, p, dst, to))
    ensures OnlyAt(ToDense(t, dst, base, to, src, from).bytes, Arrival(t, p, dst, to))
    decreases t, 1
  {
    hide Span, Padding, Aligned, Memcpy, OnlyAt, ToDenseElements, ToDenseFields;
    var x, y := from + OffsetOf(t, p), Arrival(t, p, dst, to);
    match t
    case Scalar(_, bytes, _) => MemcpyOnlyAt(dst, to, src, from, bytes, x, y);
    case Pointer(_) => MemcpyOnlyAt(dst, to, src, from, ADDRESS_SIZE, x, y);
    case Array(_, _, _, _) => ArrayHit(t, dst, base, to, src, from, p);
    case Compound(_, fields, extent) =>
      if IsDense(t) {
        MemcpyOnlyAt(dst, to, src, from, extent, x, y);
      } else {
        FieldsHit(fields, dst, base, to, to, 0, src, from, 0, extent, p.i, p.rest, y);
      }
  }

  lemma {:induction false} ArrayHit(t: Type, dst: seq<Byte>, base: nat, to: nat, src: seq<Byte>, from: nat, p: Path)
    requires t.Array? && WellFormed(t) && Aligned(base + to, AlignmentOf(t))
    requires ToDense(t, dst, base, to, src, from).Copied?
    requires IsLeaf(t, p) && OnlyAt(src, from + OffsetOf(t, p)) && OnlyAt(dst, Arrival(t, p, dst, to))
    ensures OnlyAt(ToDense(t, dst, base, to, src, from).bytes, Arrival(t, p, dst, to))
    decreases t, 0
  {
    hide Span, Padding, Aligned, Memcpy, OnlyAt, ToDenseElements, AlignmentOf;
    var Array(element, _, start, subsize) := t;
    ArrayAlignment(t);
    var x, y, b := from + OffsetOf(t, p), Arrival(t, p, dst, to), Buffersize(element);
    var first := from + Span(start, b);
    SpanAdd(start, p.i, b);
    if IsDense(element) {
      MemcpyOnlyAt(dst, to, src, first, Datasize(t), x, y);
    } else {
      AlignUpIdle(base + to, AlignmentOf(element));
      ElementsHit(element, subsize, dst, base, to, to, src, first, p.i, p.rest, y);
    }
  }

  lemma {:induction false} ElementsHit(t: Type, n: nat, dst: seq<Byte>, base: nat, to: nat, at: nat, src: seq<Byte>,
                                       from: nat, i: nat, p: Path, y: nat)
    requires WellFormed(t) && at == to + Padding(base + to, AlignmentOf(t))
    requires ToDenseElements(t, n, dst, base, to, src, from).Copied? && i < n && IsLeaf(t, p)
    requires OnlyAt(src, from + Span(i, Buffersize(t)) + OffsetOf(t, p)) && OnlyAt(dst, y)
    requires y == if Moved(t, p) then at + Span(i, Stride(true, t)) + Position(true, t, p) else |dst|
    ensures OnlyAt(ToDenseElements(t, n, dst, base, to, src, from).bytes, y)
    decreases t, 2, n
  {
    hide Span, Padding, Aligned, OnlyAt, ToDense, Buffersize, AlignmentOf, WellFormed, CopyLength, Position, OffsetOf,
      Moved, IsLeaf, KeptBut, Stride;
    var b, x := Buffersize(t), from + Span(i, Buffersize(t)) + OffsetOf(t, p);
    SpanSucc(0, b);
    SpanSucc(0, Stride(true, t));
    SpanSucc(n - 1, b);
    AlignUpBounds(base + to, AlignmentOf(t));
    LeafInside(t, p);
    ToDenseAdvances(t, dst, base, at, src, from);
    NextElement(t, base, at);
    var r := ToDense(t, dst, base, at, src, from);
    Landed(r, dst, at, at + CopyLength(t));
    if i == 0 {
      Hit(t, dst, base, at, src, from, p);
      ElementsMissed(t, n - 1, r.bytes, base, r.cursor, src, from + b, x, y);
    } else {
      SpanSucc(i - 1, b);
      SpanSucc(i - 1, Stride(true, t));
      Missed(t, dst, base, at, src, from, x, y);
      ElementsHit(t, n - 1, r.bytes, base, r.cursor, at + Stride(true, t), src, from + b, i - 1, p, y);
    }
  }

  lemma {:induction false} FieldsHit(fs: Fields, dst: seq<Byte>, base: nat, to: nat, origin: nat, at: nat,
                                     src: seq<Byte>, from: nat, lo: nat, hi: nat, i: nat, p: Path, y: nat)
    requires FieldsWellFormed(fs) && FieldsFit(fs, lo, hi) && to == origin + at
    requires Aligned(base + origin, FieldsAlignment(fs))
    requires ToDenseFields(fs, dst, base, to, src, from).Copied? && IsFieldLeaf(fs, i, p)
    requires OnlyAt(src, from + FieldOffsetOf(fs, i, p)) && OnlyAt(dst, y)
    requires y == if FieldMoved(fs, i, p) then origin + FieldPosition(true, fs, at, i, p) else |dst|
    ensures OnlyAt(ToDenseFields(fs, dst, base, to, src, from).bytes, y)
    decreases fs, 2
  {
    hide Padding, Aligned, OnlyAt, ToDense, Buffersize, AlignmentOf, WellFormed, CopyLength, Position, OffsetOf, Moved,
      IsLeaf, KeptBut;
    var f, rest, x := fs.head, fs.tail, from + FieldOffsetOf(fs, i, p);
    var end := f.offset + Buffersize(f.typ);
    NextField(f, rest, base, origin, at);
    var next := origin + AlignUp(at, AlignmentOf(f.typ));
    ToDenseAdvances(f.typ, dst, base, next, src, from + f.offset);
    var r := ToDense(f.typ, dst, base, next, src, from + f.offset);
    Landed(r, dst, next, next + CopyLength(f.typ));
    if i == 0 {
      LeafInside(f.typ, p);
      Hit(f.typ, dst, base, next, src, from + f.offset, p);
      FieldsMissed(rest, r.bytes, base, r.cursor, src, from, end, hi, x, y);
    } else {
      FieldLeafInside(rest, i - 1, p, end, hi);
      Missed(f.typ, dst, base, next, src, from + f.offset, x, y);
      FieldsHit(rest, r.bytes, base, r.cursor, origin, r.cursor - origin, src, from, end, hi, i - 1, p, y);
    }
  }
}
