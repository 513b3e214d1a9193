/** Where the two dense copies put and find each leaf. The positions depend on the type alone: the cursor
    of the copy into dense memory advances by what was copied, that of the copy out of it by `datasize()`. */
module DenseCopyLeaves {
  import opened Alignment
  import opened Datatypes
  import opened DenseCopy
  import opened Leaves

  // ----- positions -----

  /** How far the copy into dense memory moves its cursor. */
  function CopyLength(t: Type): nat
    decreases t, 0
  {
    match t
    case Scalar(_, bytes, _) => bytes
    case Pointer(_) => ADDRESS_SIZE
    case Array(element, _, _, subsize) =>
      if IsDense(element) then Datasize(t)
      else if subsize == 0 then 0
      else Span(subsize - 1, AlignUp(CopyLength(element), AlignmentOf(element))) + CopyLength(element)
    case Compound(_, fields, extent) => if IsDense(t) then extent else FieldsCopyEnd(fields, 0)
  }

  function FieldsCopyEnd(fs: Fields, at: nat): nat
    decreases fs, 1
  {
    match fs
    case Nil => at
    case Cons(f, rest) => FieldsCopyEnd(rest, AlignUp(at, AlignmentOf(f.typ)) + CopyLength(f.typ))
  }

  /** How far a cursor in dense memory moves, when writing and when reading. */
  function Length(writing: bool, t: Type): nat {
    if writing then CopyLength(t) else Datasize(t)
  }

  function Stride(writing: bool, t: Type): nat {
    AlignUp(Length(writing, t), AlignmentOf(t))
  }

  /** Where in dense memory the copy writes or reads the leaf. */
  function Position(writing: bool, t: Type, p: Path): nat
    requires IsLeaf(t, p)
    decreases t, 0
  {
    match t
    case Scalar(_, _, _) => p.k
    case Pointer(_) => p.k
    case Array(element, _, _, _) =>
      if IsDense(element) then Span(p.i, Buffersize(element)) + OffsetOf(element, p.rest)
      else Span(p.i, Stride(writing, element)) + Position(writing, element, p.rest)
    case Compound(_, fields, _) =>
      if IsDense(t) then OffsetOf(t, p) else FieldPosition(writing, fields, 0, p.i, p.rest)
  }

  function FieldPosition(writing: bool, fs: Fields, at: nat, i: nat, p: Path): nat
    requires IsFieldLeaf(fs, i, p)
    decreases fs, 1
  {
    var f := fs.head;
    var next := AlignUp(at, AlignmentOf(f.typ));
    if i == 0 then next + Position(writing, f.typ, p)
    else FieldPosition(writing, fs.tail, next + Length(writing, f.typ), i - 1, p)
  }

  /** Whether the leaf is copied at all: a memcpy of an array stops after `datasize()` bytes. */
  predicate Moved(t: Type, p: Path)
    requires IsLeaf(t, p)
    decreases t, 0
  {
    match t
    case Scalar(_, _, _) => true
    case Pointer(_) => true
    case Array(element, _, _, _) =>
      if IsDense(element) then Span(p.i, Buffersize(element)) + OffsetOf(element, p.rest) < Datasize(t)
      else Moved(element, p.rest)
    case Compound(_, fields, _) => IsDense(t) || FieldMoved(fields, p.i, p.rest)
  }

  predicate FieldMoved(fs: Fields, i: nat, p: Path)
    requires IsFieldLeaf(fs, i, p)
    decreases fs, 1
  {
    if i == 0 then Moved(fs.head.typ, p) else FieldMoved(fs.tail, i - 1, p)
  }

  lemma {:induction false} FieldsCopyEndGrows(fs: Fields, at: nat)
    ensures at <= FieldsCopyEnd(fs, at)
    decreases fs
  {
    hide CopyLength, AlignmentOf;
    match fs
    case Nil =>
    case Cons(f, rest) =>
      AlignUpBounds(at, AlignmentOf(f.typ));
      FieldsCopyEndGrows(rest, AlignUp(at, AlignmentOf(f.typ)) + CopyLength(f.typ));
  }

  /** A leaf that is copied lies before the cursor that is returned. */
  lemma {:induction false} PositionInside(t: Type, p: Path)
    requires WellFormed(t) && IsLeaf(t, p) && Moved(t, p)
    ensures Position(true, t, p) < CopyLength(t)
    decreases t, 0
  {
    hide Span, Padding, Aligned;
    match t
    case Scalar(_, _, _) =>
    case Pointer(_) =>
    case Array(element, _, _, subsize) =>
      if !IsDense(element) {
        PositionInside(element, p.rest);
        SpanMonotone(p.i, subsize - 1, Stride(true, element), Stride(true, element));
      }
    case Compound(_, fields, extent) =>
      if IsDense(t) { LeafInside(t, p); } else { FieldPositionInside(fields, 0, p.i, p.rest); }
  }

  lemma {:induction false} FieldPositionInside(fs: Fields, at: nat, i: nat, p: Path)
    requires FieldsWellFormed(fs) && IsFieldLeaf(fs, i, p) && FieldMoved(fs, i, p)
    ensures FieldPosition(true, fs, at, i, p) < FieldsCopyEnd(fs, at)
    decreases fs, 1
  {
    hide Padding, WellFormed, CopyLength, Position, Moved, IsLeaf, AlignmentOf;
    var f, rest := fs.head, fs.tail;
    var next := AlignUp(at, AlignmentOf(f.typ)) + CopyLength(f.typ);
    if i == 0 {
      PositionInside(f.typ, p);
      FieldsCopyEndGrows(rest, next);
    } else {
      FieldPositionInside(rest, next, i - 1, p);
    }
  }

  // ----- the cursor -----

  /** Nothing changed but between `to` and `end`. */
  ghost predicate KeptBut(d: seq<Byte>, d': seq<Byte>, to: nat, end: nat) {
    |d'| == |d| && forall i | 0 <= i < |d| && (i < to || end <= i) :: d'[i] == d[i]
  }

  lemma KeptButSame(d: seq<Byte>, to: nat, end: nat)
    ensures KeptBut(d, d, to, end)
  {
  }

  lemma KeptButChain(d: seq<Byte>, d': seq<Byte>, d'': seq<Byte>, to: nat, end: nat, to1: nat, end1: nat, to2: nat,
                     end2: nat)
    requires KeptBut(d, d', to1, end1) && KeptBut(d', d'', to2, end2) && to <= to1 && end1 <= end && to <= to2
    requires end2 <= end
    ensures KeptBut(d, d'', to, end)
  {
  }

  /** The copy moved its cursor from `to` to `end` and wrote only in between. */
  ghost predicate Advanced(r: Outcome, dst: seq<Byte>, to: nat, end: nat) {
    r.Copied? && to <= r.cursor == end && KeptBut(dst, r.bytes, to, end)
  }

  lemma MemcpyAdvances(dst: seq<Byte>, to: nat, src: seq<Byte>, from: nat, n: nat)
    requires Memcpy(dst, to, src, from, n).Copied?
    ensures Advanced(Memcpy(dst, to, src, from, n), dst, to, to + n)
  {
  }

  lemma {:induction false} ToDenseAdvances(t: Type, dst: seq<Byte>, base: nat, to: nat, src: seq<Byte>, from: nat)
    requires Aligned(base + to, AlignmentOf(t)) && ToDense(t, dst, base, to, src, from).Copied?
    ensures Advanced(ToDense(t, dst, base, to, src, from), dst, to, to + CopyLength(t))
    decreases t, 0
  {
    hide Span, Padding, Aligned, Memcpy, KeptBut, ToDenseElements, ToDenseFields;
    match t
    case Scalar(_, bytes, _) => MemcpyAdvances(dst, to, src, from, bytes);
    case Pointer(_) => MemcpyAdvances(dst, to, src, from, ADDRESS_SIZE);
    case Array(element, _, start, subsize) =>
      var first := from + Span(start, Buffersize(element));
      if IsDense(element) {
        MemcpyAdvances(dst, to, src, first, Datasize(t));
      } else {
        AlignUpIdle(base + to, AlignmentOf(element));
        ElementsAdvance(element, subsize, dst, base, to, to, src, first);
      }
    case Compound(_, fields, extent) =>
      if IsDense(t) {
        MemcpyAdvances(dst, to, src, from, extent);
      } else {
        FieldsAdvance(fields, dst, base, to, to, 0, src, from);
      }
  }

  /** `n` elements, the cursor at `to` and the first one written at `at`. */
  lemma {:induction false} ElementsAdvance(t: Type, n: nat, dst: seq<Byte>, base: nat, to: nat, at: nat,
                                           src: seq<Byte>, from: nat)
    requires at == to + Padding(base + to, AlignmentOf(t))
    requires ToDenseElements(t, n, dst, base, to, src, from).Copied?
    ensures Advanced(ToDenseElements(t, n, dst, base, to, src, from), dst, to,
                     if n == 0 then to else at + Span(n - 1, Stride(true, t)) + CopyLength(t))
    decreases t, 1, n
  {
    hide Span, Padding, Aligned, KeptBut, ToDense, CopyLength, AlignmentOf, Buffersize;
    if n == 0 {
      KeptButSame(dst, to, to);
    } else {
      AlignUpBounds(base + to, AlignmentOf(t));
      ToDenseAdvances(t, dst, base, at, src, from);
      var r := ToDense(t, dst, base, at, src, from);
      NextElement(t, base, at);
      SpanSucc(0, Stride(true, t));
      if n > 1 { SpanSucc(n - 2, Stride(true, t)); }
      Landed(r, dst, at, at + CopyLength(t));
      ElementsAdvance(t, n - 1, r.bytes, base, r.cursor, at + Stride(true, t), src, from + Buffersize(t));
      var r' := ToDenseElements(t, n - 1, r.bytes, base, r.cursor, src, from + Buffersize(t));
      Landed(r', r.bytes, r.cursor, r'.cursor);
      KeptButChain(dst, r.bytes, r'.bytes, to, r'.cursor, at, r.cursor, r.cursor, r'.cursor);
    }
  }

  lemma Landed(r: Outcome, dst: seq<Byte>, to: nat, end: nat)
    requires Advanced(r, dst, to, end)
    ensures to <= end && |dst| == |r.bytes|
  {
  }

  /** The cursor after an element, aligned for the next one. */
  lemma NextElement(t: Type, base: nat, at: nat)
    requires Aligned(base + at, AlignmentOf(t))
    ensures var cursor := at + CopyLength(t);
      cursor + Padding(base + cursor, AlignmentOf(t)) == at + Stride(true, t)
  {
    hide Padding, Aligned, CopyLength, AlignmentOf;
    AlignUpShift(base + at, CopyLength(t), AlignmentOf(t));
  }

  /** The cursor at `to == origin + at`, aligned for a member. */
  lemma NextField(f: Field, rest: Fields, base: nat, origin: nat, at: nat)
    requires Aligned(base + origin, FieldsAlignment(Cons(f, rest)))
    ensures Aligned(base + origin, FieldsAlignment(rest))
    ensures var next := AlignUp(at, AlignmentOf(f.typ));
      && origin + at + Padding(base + origin + at, AlignmentOf(f.typ)) == origin + next
      && at <= next && Aligned(base + origin + next, AlignmentOf(f.typ))
  {
    hide Padding, Aligned, AlignmentOf;
    var align := AlignmentOf(f.typ);
    AlignedWeaken(base + origin, align, FieldsAlignment(Cons(f, rest)));
    AlignedWeaken(base + origin, FieldsAlignment(rest), FieldsAlignment(Cons(f, rest)));
    AlignUpShift(base + origin, at, align);
    AlignUpBounds(at, align);
    AlignedAdd(base + origin, AlignUp(at, align), align);
  }

  lemma {:induction false} FieldsAdvance(fs: Fields, dst: seq<Byte>, base: nat, to: nat, origin: nat, at: nat,
                                         src: seq<Byte>, from: nat)
    requires to == origin + at && Aligned(base + origin, FieldsAlignment(fs))
    requires ToDenseFields(fs, dst, base, to, src, from).Copied?
    ensures Advanced(ToDenseFields(fs, dst, base, to, src, from), dst, to, origin + FieldsCopyEnd(fs, at))
    decreases fs, 1
  {
    hide Padding, Aligned, KeptBut, ToDense, CopyLength, AlignmentOf;
    match fs
    case Nil => KeptButSame(dst, to, to);
    case Cons(f, rest) =>
      NextField(f, rest, base, origin, at);
      var next := origin + AlignUp(at, AlignmentOf(f.typ));
      ToDenseAdvances(f.typ, dst, base, next, src, from + f.offset);
      var r := ToDense(f.typ, dst, base, next, src, from + f.offset);
      Landed(r, dst, next, next + CopyLength(f.typ));
      FieldsAdvance(rest, r.bytes, base, r.cursor, origin, r.cursor - origin, src, from);
      var r' := ToDenseFields(rest, r.bytes, base, r.cursor, src, from);
      Landed(r', r.bytes, r.cursor, r'.cursor);
      KeptButChain(dst, r.bytes, r'.bytes, to, r'.cursor, next, r.cursor, r.cursor, r'.cursor);
  }

  // ----- what is written -----

  lemma MemcpyAt(dst: seq<Byte>, to: nat, src: seq<Byte>, from: nat, n: nat, k: nat)
    requires Memcpy(dst, to, src, from, n).Copied? && k < n
    ensures SameAt(Memcpy(dst, to, src, from, n).bytes, to + k, src, from + k)
  {
  }

  lemma KeptAt(d: seq<Byte>, d': seq<Byte>, to: nat, end: nat, i: nat, b: seq<Byte>, j: nat)
    requires KeptBut(d, d', to, end) && SameAt(d, i, b, j) && (i < to || end <= i)
    ensures SameAt(d', i, b, j)
  {
  }

  /** Every leaf that is copied ends up at its position. */
  lemma {:induction false} ToDenseLeaf(t: Type, dst: seq<Byte>, base: nat, to: nat, src: seq<Byte>, from: nat, p: Path)
    requires WellFormed(t) && Aligned(base + to, AlignmentOf(t)) && ToDense(t, dst, base, to, src, from).Copied?
    requires IsLeaf(t, p) && Moved(t, p)
    ensures SameAt(ToDense(t, dst, base, to, src, from).bytes, to + Position(true, t, p), src, from + OffsetOf(t, p))
    decreases t, 1
  {
    hide Span, Padding, Aligned, Memcpy, SameAt, ToDenseElements, ToDenseFields;
    match t
    case Scalar(_, bytes, _) => MemcpyAt(dst, to, src, from, bytes, p.k);
    case Pointer(_) => MemcpyAt(dst, to, src, from, ADDRESS_SIZE, p.k);
    case Array(_, _, _, _) => ToDenseArrayLeaf(t, dst, base, to, src, from, p);
    case Compound(_, fields, extent) =>
      if IsDense(t) {
        LeafInside(t, p);
        MemcpyAt(dst, to, src, from, extent, OffsetOf(t, p));
      } else {
        ToDenseFieldLeaf(fields, dst, base, to, to, 0, src, from, p.i, p.rest);
      }
  }

  lemma {:induction false} ToDenseArrayLeaf(t: Type, dst: seq<Byte>, base: nat, to: nat, src: seq<Byte>, from: nat,
                                            p: Path)
    requires t.Array? && WellFormed(t) && Aligned(base + to, AlignmentOf(t))
    requires ToDense(t, dst, base, to, src, from).Copied? && IsLeaf(t, p) && Moved(t, p)
    ensures SameAt(ToDense(t, dst, base, to, src, from).bytes, to + Position(true, t, p), src, from + OffsetOf(t, p))
    decreases t, 0
  {
    hide Span, Padding, Aligned, Memcpy, SameAt, ToDenseElements, AlignmentOf;
    var Array(element, _, start, subsize) := t;
    assert AlignmentOf(t) == AlignmentOf(element) by { ArrayAlignment(t); }
    var b := Buffersize(element);
    var first := from + Span(start, b);
    SpanAdd(start, p.i, b);
    if IsDense(element) {
      MemcpyAt(dst, to, src, first, Datasize(t), Span(p.i, b) + OffsetOf(element, p.rest));
    } else {
      AlignUpIdle(base + to, AlignmentOf(element));
      ToDenseElementLeaf(element, subsize, dst, base, to, to, src, first, p.i, p.rest);
    }
  }

  lemma ArrayAlignment(t: Type)
    requires t.Array?
    ensures AlignmentOf(t) == AlignmentOf(t.element)
  {
  }

  lemma {:induction false} ToDenseElementLeaf(t: Type, n: nat, dst: seq<Byte>, base: nat, to: nat, at: nat,
                                              src: seq<Byte>, from: nat, i: nat, p: Path)
    requires WellFormed(t) && at == to + Padding(base + to, AlignmentOf(t))
    requires ToDenseElements(t, n, dst, base, to, src, from).Copied? && i < n && IsLeaf(t, p) && Moved(t, p)
    ensures SameAt(ToDenseElements(t, n, dst, base, to, src, from).bytes,
                   at + Span(i, Stride(true, t)) + Position(true, t, p), src, from + Span(i,
                       Buffersize(t)) + OffsetOf(t, p))
    decreases t, 2, n
  {
    hide Span, Padding, Aligned, KeptBut, ToDense, CopyLength, AlignmentOf, Buffersize, WellFormed, SameAt,
      Position, OffsetOf, Moved, IsLeaf, Stride;
    AlignUpBounds(base + to, AlignmentOf(t));
    ToDenseAdvances(t, dst, base, at, src, from);
    var r := ToDense(t, dst, base, at, src, from);
    Landed(r, dst, at, at + CopyLength(t));
    NextElement(t, base, at);
    var r' := ToDenseElements(t, n - 1, r.bytes, base, r.cursor, src, from + Buffersize(t));
    SpanSucc(0, Stride(true, t));
    SpanSucc(0, Buffersize(t));
    if i == 0 {
      ToDenseLeaf(t, dst, base, at, src, from, p);
      PositionInside(t, p);
      ElementsAdvance(t, n - 1, r.bytes, base, r.cursor, at + Stride(true, t), src, from + Buffersize(t));
      KeptAt(r.bytes, r'.bytes, r.cursor, r'.cursor, at + Position(true, t, p), src, from + OffsetOf(t, p));
    } else {
      SpanSucc(i - 1, Stride(true, t));
      SpanSucc(i - 1, Buffersize(t));
      ToDenseElementLeaf(t, n - 1, r.bytes, base, r.cursor, at + Stride(true, t), src, from + Buffersize(t), i - 1, p);
    }
  }

  lemma {:induction false} ToDenseFieldLeaf(fs: Fields, dst: seq<Byte>, base: nat, to: nat, origin: nat, at: nat,
                                            src: seq<Byte>, from: nat, i: nat, p: Path)
    requires FieldsWellFormed(fs) && to == origin + at && Aligned(base + origin, FieldsAlignment(fs))
    requires ToDenseFields(fs, dst, base, to, src, from).Copied? && IsFieldLeaf(fs, i, p) && FieldMoved(fs, i, p)
    ensures SameAt(ToDenseFields(fs, dst, base, to, src, from).bytes, origin + FieldPosition(true, fs, at, i, p),
                   src, from + FieldOffsetOf(fs, i, p))
    decreases fs, 1
  {
    hide Padding, Aligned, KeptBut, ToDense, CopyLength, AlignmentOf, WellFormed, SameAt, Position, OffsetOf, Moved,
      IsLeaf;
    var f, rest := fs.head, fs.tail;
    NextField(f, rest, base, origin, at);
    var next := origin + AlignUp(at, AlignmentOf(f.typ));
    ToDenseAdvances(f.typ, dst, base, next, src, from + f.offset);
    var r := ToDense(f.typ, dst, base, next, src, from + f.offset);
    Landed(r, dst, next, next + CopyLength(f.typ));
    var r' := ToDenseFields(rest, r.bytes, base, r.cursor, src, from);
    if i == 0 {
      ToDenseLeaf(f.typ, dst, base, next, src, from + f.offset, p);
      PositionInside(f.typ, p);
      FieldsAdvance(rest, r.bytes, base, r.cursor, origin, r.cursor - origin, src, from);
      KeptAt(r.bytes, r'.bytes, r.cursor, r'.cursor, next + Position(true, f.typ, p), src,
             from + f.offset + OffsetOf(f.typ, p));
    } else {
      ToDenseFieldLeaf(rest, r.bytes, base, r.cursor, origin, r.cursor - origin, src, from, i - 1, p);
    }
  }
}
