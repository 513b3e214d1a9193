/** The leaves of a value: the bytes of its scalars and pointers, reached through the selected elements of
    arrays and the members of records and tuples. */
module Leaves {
  import opened Alignment
  import opened Datatypes

  /** A byte of a scalar or pointer, or a step into an element or member. */
  datatype Path = Here(k: nat) | Into(i: nat, rest: Path)

  predicate IsLeaf(t: Type, p: Path)
    decreases t, 0
  {
    match t
    case Scalar(_, bytes, _) => p.Here? && p.k < bytes
    case Pointer(_) => p.Here? && p.k < ADDRESS_SIZE
    case Array(element, _, _, subsize) => p.Into? && p.i < subsize && IsLeaf(element, p.rest)
    case Compound(_, fields, _) => p.Into? && IsFieldLeaf(fields, p.i, p.rest)
  }

  predicate IsFieldLeaf(fs: Fields, i: nat, p: Path)
    decreases fs, 1
  {
    match fs
    case Nil => false
    case Cons(f, rest) => if i == 0 then IsLeaf(f.typ, p) else IsFieldLeaf(rest, i - 1, p)
  }

  /** Where a leaf is in a value of the type. */
  function OffsetOf(t: Type, p: Path): nat
    requires IsLeaf(t, p)
    decreases t, 0
  {
    match t
    case Scalar(_, _, _) => p.k
    case Pointer(_) => p.k
    case Array(element, _, start, _) => Span(start + p.i, Buffersize(element)) + OffsetOf(element, p.rest)
    case Compound(_, fields, _) => FieldOffsetOf(fields, p.i, p.rest)
  }

  function FieldOffsetOf(fs: Fields, i: nat, p: Path): nat
    requires IsFieldLeaf(fs, i, p)
    decreases fs, 1
  {
    if i == 0 then fs.head.offset + OffsetOf(fs.head.typ, p) else FieldOffsetOf(fs.tail, i - 1, p)
  }

  // ----- leaves lie inside -----

  lemma {:induction false} LeafInside(t: Type, p: Path)
    requires WellFormed(t) && IsLeaf(t, p)
    ensures OffsetOf(t, p) < Buffersize(t)
    decreases t, 0
  {
    hide Span, Aligned;
    match t
    case Scalar(_, _, _) =>
    case Pointer(_) =>
    case Array(element, size, start, subsize) =>
      LeafInside(element, p.rest);
      var b := Buffersize(element);
      SpanSucc(start + p.i, b);
      SpanMonotone(start + p.i + 1, size, b, b);
    case Compound(_, fields, extent) => FieldLeafInside(fields, p.i, p.rest, 0, extent);
  }

  lemma {:induction false} FieldLeafInside(fs: Fields, i: nat, p: Path, lo: nat, hi: nat)
    requires FieldsWellFormed(fs) && FieldsFit(fs, lo, hi) && IsFieldLeaf(fs, i, p)
    ensures lo <= FieldOffsetOf(fs, i, p) < hi
    decreases fs, 1
  {
    hide Aligned, WellFormed, OffsetOf, IsLeaf, Buffersize;
    var f, rest := fs.head, fs.tail;
    FieldsFitBound(rest, f.offset + Buffersize(f.typ), hi);
    if i == 0 {
      LeafInside(f.typ, p);
    } else {
      FieldLeafInside(rest, i - 1, p, f.offset + Buffersize(f.typ), hi);
    }
  }

  lemma {:induction false} FieldsFitBound(fs: Fields, lo: nat, hi: nat)
    requires FieldsFit(fs, lo, hi)
    ensures lo <= hi
    decreases fs
  {
    hide Aligned, Span;
    match fs
    case Nil =>
    case Cons(f, rest) => FieldsFitBound(rest, f.offset + Buffersize(f.typ), hi);
  }

  // ----- leaves do not overlap -----

  /** Leaves of a value have places of their own. */
  lemma {:induction false} OffsetsDiffer(t: Type, p: Path, q: Path)
    requires WellFormed(t) && IsLeaf(t, p) && IsLeaf(t, q) && OffsetOf(t, p) == OffsetOf(t, q)
    ensures p == q
    decreases t, 0
  {
    hide Span, Aligned;
    match t
    case Scalar(_, _, _) =>
    case Pointer(_) =>
    case Array(element, _, start, _) =>
      LeafInside(element, p.rest);
      LeafInside(element, q.rest);
      SameIndex(start + p.i, start + q.i, Buffersize(element), OffsetOf(element, p.rest), OffsetOf(element, q.rest));
      OffsetsDiffer(element, p.rest, q.rest);
    case Compound(_, fields, extent) => FieldOffsetsDiffer(fields, p.i, p.rest, q.i, q.rest, 0, extent);
  }

  lemma SameIndex(i: nat, j: nat, size: nat, k: nat, l: nat)
    requires k < size && l < size && Span(i, size) + k == Span(j, size) + l
    ensures i == j && k == l
  {
    hide Span;
    if i < j {
      SpanSucc(i, size);
      SpanMonotone(i + 1, j, size, size);
      assert false;
    }
    if j < i {
      SpanSucc(j, size);
      SpanMonotone(j + 1, i, size, size);
      assert false;
    }
  }

  lemma {:induction false} FieldOffsetsDiffer(fs: Fields, i: nat, p: Path, j: nat, q: Path, lo: nat, hi: nat)
    requires FieldsWellFormed(fs) && FieldsFit(fs, lo, hi) && IsFieldLeaf(fs, i, p) && IsFieldLeaf(fs, j, q)
    requires FieldOffsetOf(fs, i, p) == FieldOffsetOf(fs, j, q)
    ensures i == j && p == q
    decreases fs, 1
  {
    hide Aligned, WellFormed, OffsetOf, IsLeaf, Buffersize;
    var f, rest := fs.head, fs.tail;
    var next := f.offset + Buffersize(f.typ);
    if i == 0 { LeafInside(f.typ, p); } else { FieldLeafInside(rest, i - 1, p, next, hi); }
    if j == 0 { LeafInside(f.typ, q); } else { FieldLeafInside(rest, j - 1, q, next, hi); }
    if i == 0 && j == 0 {
      OffsetsDiffer(f.typ, p, q);
    } else if i > 0 && j > 0 {
      FieldOffsetsDiffer(rest, i - 1, p, j - 1, q, next, hi);
    }
  }

  // ----- there is a leaf exactly when there is data -----

  function FirstLeaf(t: Type): (p: Path)
    requires Datasize(t) > 0
    ensures IsLeaf(t, p)
    decreases t, 0
  {
    match t
    case Scalar(_, _, _) => Here(0)
    case Pointer(_) => Here(0)
    case Array(element, _, _, subsize) =>
      SpanPositive(subsize, Datasize(element));
      Into(0, FirstLeaf(element))
    case Compound(_, fields, _) =>
      var (i, p) := FirstFieldLeaf(fields);
      Into(i, p)
  }

  function FirstFieldLeaf(fs: Fields): (r: (nat, Path))
    requires FieldsDatasize(fs) > 0
    ensures IsFieldLeaf(fs, r.0, r.1)
    decreases fs, 1
  {
    if Datasize(fs.head.typ) > 0 then (0, FirstLeaf(fs.head.typ))
    else
      var (i, p) := FirstFieldLeaf(fs.tail);
      (i + 1, p)
  }

  lemma SpanPositive(n: nat, x: nat)
    ensures Span(n, x) > 0 <==> n > 0 && x > 0
  {
  }

  lemma {:induction false} LeafHasData(t: Type, p: Path)
    requires IsLeaf(t, p)
    ensures Datasize(t) > 0
    decreases t, 0
  {
    hide Span;
    match t
    case Scalar(_, _, _) =>
    case Pointer(_) =>
    case Array(element, _, _, subsize) =>
      LeafHasData(element, p.rest);
      SpanPositive(subsize, Datasize(element));
    case Compound(_, fields, _) => FieldLeafHasData(fields, p.i, p.rest);
  }

  lemma {:induction false} FieldLeafHasData(fs: Fields, i: nat, p: Path)
    requires IsFieldLeaf(fs, i, p)
    ensures FieldsDatasize(fs) > 0
    decreases fs, 1
  {
    if i == 0 { LeafHasData(fs.head.typ, p); } else { FieldLeafHasData(fs.tail, i - 1, p); }
  }

  // ----- the leaves of the densified type -----

  lemma {:induction false} DenseLeaf(t: Type, p: Path)
    ensures IsLeaf(Densify(t), p) <==> IsLeaf(t, p)
    decreases t, 0
  {
    hide Span, AlignUp, PackEnd;
    match t
    case Scalar(_, _, _) =>
    case Pointer(_) =>
    case Array(element, _, _, _) => if p.Into? { DenseLeaf(element, p.rest); }
    case Compound(_, fields, _) => if p.Into? { DenseFieldLeaf(fields, 0, p.i, p.rest); }
  }

  lemma {:induction false} DenseFieldLeaf(fs: Fields, at: nat, i: nat, p: Path)
    ensures IsFieldLeaf(Pack(DensifyEach(fs), at), i, p) <==> IsFieldLeaf(fs, i, p)
    decreases fs, 1
  {
    hide AlignUp, IsLeaf, Buffersize, AlignmentOf, Densify;
    match fs
    case Nil =>
    case Cons(f, rest) =>
      if i == 0 {
        DenseLeaf(f.typ, p);
      } else {
        var g := Densify(f.typ);
        DenseFieldLeaf(rest, AlignUp(at, AlignmentOf(g)) + Buffersize(g), i - 1, p);
      }
  }

  /** Where the densified type has the leaf. */
  ghost function DenseOffset(t: Type, p: Path): nat
    requires IsLeaf(t, p)
  {
    DenseLeaf(t, p);
    OffsetOf(Densify(t), p)
  }
}
