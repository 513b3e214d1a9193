/** Each leaf of a serialized value has three places: where `serialize_copy` writes it, where `deserialize_copy` reads
    it, and where the serialized type has it. All three are functions of the type. */
module SerializeLeaves {
  import opened Alignment
  import opened Datatypes
  import opened DensifyAlgebra
  import opened DenseCopy
  import opened Leaves
  import opened Serialize

  function SerialAlignment(t: Type): Pow2 {
    AlignmentOf(SerializeType(t))
  }

  function SerialSize(t: Type): nat {
    Buffersize(SerializeType(t))
  }

  function SerialData(t: Type): nat {
    Datasize(SerializeType(t))
  }

  /** A scalar byte of the value, possibly behind pointers. */
  predicate Reaches(t: Type, p: Path)
    decreases t, 0
  {
    match t
    case Scalar(_, bytes, _) => p.Here? && p.k < bytes
    case Array(element, _, _, subsize) => p.Into? && p.i < subsize && Reaches(element, p.rest)
    case Compound(_, fields, _) => p.Into? && FieldReaches(fields, p.i, p.rest)
    case Pointer(target) => Reaches(target, p)
  }

  predicate FieldReaches(fs: Fields, i: nat, p: Path)
    decreases fs, 1
  {
    match fs
    case Nil => false
    case Cons(f, rest) => if i == 0 then Reaches(f.typ, p) else FieldReaches(rest, i - 1, p)
  }

  // ----- the three places -----

  datatype Place = Written | Read | Laid

  /** From one array element to the next: the data it has, or the bytes it takes. */
  function Stride(how: Place, t: Type): nat {
    if how.Laid? then SerialSize(t) else SerialData(t)
  }

  /** Only writing aligns the first element. */
  function Head(how: Place, t: Type, x: nat): nat {
    if how.Written? then AlignUp(x, SerialAlignment(t)) else x
  }

  function Position(how: Place, t: Type, x: nat, p: Path): nat
    requires Reaches(t, p)
    decreases t, 0
  {
    match t
    case Scalar(_, _, _) => x + p.k
    case Array(element, _, _, _) =>
      Position(how, element, Head(how, element, x) + Span(p.i, Stride(how, element)), p.rest)
    case Compound(_, fields, _) => FieldPosition(how, fields, 0, x, p.i, p.rest)
    case Pointer(target) => Position(how, target, x, p)
  }

  function FieldPosition(how: Place, fs: Fields, at: nat, x: nat, i: nat, p: Path): nat
    requires FieldReaches(fs, i, p)
    decreases fs, 1
  {
    var offset := AlignUp(at, SerialAlignment(fs.head.typ));
    if i == 0 then Position(how, fs.head.typ, x + offset, p)
    else FieldPosition(how, fs.tail, offset + SerialSize(fs.head.typ), x, i - 1, p)
  }

  /** The address of the leaf in a memory that holds the value at `a`. */
  function Source(t: Type, memory: seq<Byte>, a: nat, p: Path): nat
    requires Reaches(t, p)
    decreases t, 0
  {
    match t
    case Scalar(_, _, _) => a + p.k
    case Array(element, _, start, _) =>
      ElementSource(element, memory, a + Span(start, Buffersize(element)), p.i, p.rest)
    case Compound(_, fields, _) => FieldSource(fields, memory, a, p.i, p.rest)
    case Pointer(target) =>
      Source(target, memory, if a + ADDRESS_SIZE <= |memory| then LoadPointer(memory, a) else 0, p)
  }

  function ElementSource(t: Type, memory: seq<Byte>, a: nat, i: nat, p: Path): nat
    requires Reaches(t, p)
    decreases t, 1
  {
    Source(t, memory, a + Span(i, Buffersize(t)), p)
  }

  function FieldSource(fs: Fields, memory: seq<Byte>, a: nat, i: nat, p: Path): nat
    requires FieldReaches(fs, i, p)
    decreases fs, 1
  {
    if i == 0 then Source(fs.head.typ, memory, a + fs.head.offset, p) else FieldSource(fs.tail, memory, a, i - 1, p)
  }

  // ----- the leaves of the serialized type -----

  /** The leaves are those of the serialized type, laid where it has them. */
  lemma {:induction false} SerialLeaf(t: Type, x: nat, p: Path)
    ensures IsLeaf(SerializeType(t), p) <==> Reaches(t, p)
    ensures Reaches(t, p) ==> Position(Laid, t, x, p) == x + OffsetOf(SerializeType(t), p)
    decreases t, 0
  {
    hide Span, AlignUp, PackEnd, Buffersize;
    match t
    case Scalar(_, _, _) =>
    case Pointer(target) => SerialLeaf(target, x, p);
    case Array(element, _, _, subsize) =>
      if p.Into? { SerialLeaf(element, x + Span(p.i, Stride(Laid, element)), p.rest); }
    case Compound(_, fields, _) => if p.Into? { SerialFieldLeaf(fields, 0, x, p.i, p.rest); }
  }

  lemma {:induction false} SerialFieldLeaf(fs: Fields, at: nat, x: nat, i: nat, p: Path)
    ensures IsFieldLeaf(Pack(SerializeEach(fs), at), i, p) <==> FieldReaches(fs, i, p)
    ensures FieldReaches(fs, i, p) ==>
      FieldPosition(Laid, fs, at, x, i, p) == x + FieldOffsetOf(Pack(SerializeEach(fs), at), i, p)
    decreases fs, 1
  {
    hide AlignUp, IsLeaf, OffsetOf, Position, Reaches, Buffersize, AlignmentOf, SerializeType;
    match fs
    case Nil =>
    case Cons(f, rest) =>
      var offset := AlignUp(at, SerialAlignment(f.typ));
      if i == 0 {
        SerialLeaf(f.typ, x + offset, p);
      } else {
        SerialFieldLeaf(rest, offset + SerialSize(f.typ), x, i - 1, p);
      }
  }

  lemma {:induction false} SerialAligned(t: Type)
    requires WellFormed(t)
    ensures Aligned(SerialSize(t), SerialAlignment(t))
    decreases t
  {
    hide Padding, Aligned, Span;
    match t
    case Scalar(_, _, _) =>
    case Array(element, _, _, subsize) =>
      SerialAligned(element);
      AlignedSpan(subsize, SerialSize(element), SerialAlignment(element));
    case Compound(_, fields, _) =>
      var ser := SerializeEach(fields);
      AlignUpBounds(PackEnd(ser, 0), FieldsAlignment(ser));
      PackKeeps(ser, 0, 0);
    case Pointer(target) => SerialAligned(target);
  }

  // ----- the places are ordered -----

  /** Started no later than an aligned place, both copies keep each leaf at or before where the type laid out at that
      place has it. */
  lemma {:induction false} PositionBound(how: Place, t: Type, x: nat, due: nat, p: Path)
    requires WellFormed(t) && Reaches(t, p) && x <= due && Aligned(due, SerialAlignment(t))
    ensures x <= Position(how, t, x, p) <= Position(Laid, t, due, p) < due + SerialSize(t)
    decreases t, 0
  {
    hide Span, Padding, Aligned, PackEnd;
    match t
    case Scalar(_, _, _) =>
    case Pointer(target) => PositionBound(how, target, x, due, p);
    case Array(element, _, _, subsize) =>
      ElementDue(how, element, x, due, p.i, subsize);
      PositionBound(how, element, Head(how, element, x) + Span(p.i, Stride(how, element)),
                    due + Span(p.i, Stride(Laid, element)), p.rest);
    case Compound(_, fields, _) =>
      PackKeeps(SerializeEach(fields), 0, 0);
      FieldPositionBound(how, fields, 0, x, due, p.i, p.rest);
      AlignUpBounds(PackEnd(SerializeEach(fields), 0), FieldsAlignment(SerializeEach(fields)));
  }

  /** Element `i` starts no later than the serialized type has it. */
  lemma ElementDue(how: Place, t: Type, x: nat, due: nat, i: nat, n: nat)
    requires WellFormed(t) && x <= due && Aligned(due, SerialAlignment(t)) && i < n
    ensures x <= Head(how, t, x) + Span(i, Stride(how, t)) <= due + Span(i, SerialSize(t))
    ensures Aligned(due + Span(i, SerialSize(t)), SerialAlignment(t))
    ensures Span(i, SerialSize(t)) + SerialSize(t) <= Span(n, SerialSize(t))
  {
    hide Span, Padding, Aligned, SerialAlignment, SerialSize, SerialData, WellFormed;
    AlignUpBounds(x, SerialAlignment(t));
    AlignUpLeast(x, SerialAlignment(t), due);
    SerialAligned(t);
    AlignedSpan(i, SerialSize(t), SerialAlignment(t));
    AlignedAdd(due, Span(i, SerialSize(t)), SerialAlignment(t));
    SerialDataFits(t);
    SpanMonotone(i, i, Stride(how, t), SerialSize(t));
    SpanSucc(i, SerialSize(t));
    SpanMonotone(i + 1, n, SerialSize(t), SerialSize(t));
  }

  lemma SerialDataFits(t: Type)
    ensures SerialData(t) <= SerialSize(t) && (SerialData(t) == 0 ==> SerialSize(t) == 0)
  {
    SerializedExtent(t);
  }

  lemma {:induction false} FieldPositionBound(how: Place, fs: Fields, at: nat, x: nat, due: nat, i: nat, p: Path)
    requires FieldsWellFormed(fs) && FieldReaches(fs, i, p)
    requires x <= due && Aligned(due, FieldsAlignment(SerializeEach(fs)))
    ensures x <= FieldPosition(how, fs, at, x, i, p) <= FieldPosition(Laid, fs, at, due, i, p)
    ensures FieldPosition(Laid, fs, at, due, i, p) < due + PackEnd(SerializeEach(fs), at)
    decreases fs, 1
  {
    hide Padding, Aligned, WellFormed, Position, Reaches, Buffersize, AlignmentOf, SerializeType;
    var f, rest := fs.head, fs.tail;
    var offset := AlignUp(at, SerialAlignment(f.typ));
    FieldDue(f, rest, at, due);
    if i == 0 {
      PositionBound(how, f.typ, x + offset, due + offset, p);
    } else {
      FieldPositionBound(how, rest, offset + SerialSize(f.typ), x, due, i - 1, p);
    }
  }

  /** A member of an aligned record is aligned, and ends inside. */
  lemma FieldDue(f: Field, rest: Fields, at: nat, due: nat)
    requires Aligned(due, FieldsAlignment(SerializeEach(Cons(f, rest))))
    ensures var offset := AlignUp(at, SerialAlignment(f.typ));
      && Aligned(due + offset, SerialAlignment(f.typ)) && Aligned(due, FieldsAlignment(SerializeEach(rest)))
      && offset + SerialSize(f.typ) <= PackEnd(SerializeEach(Cons(f, rest)), at)
  {
    hide Padding, Aligned, AlignmentOf, SerializeType, Buffersize;
    var a, b := SerialAlignment(f.typ), FieldsAlignment(SerializeEach(rest));
    var offset := AlignUp(at, a);
    AlignUpBounds(at, a);
    AlignedWeaken(due, a, MaxPow2(a, b));
    AlignedWeaken(due, b, MaxPow2(a, b));
    AlignedAdd(due, offset, a);
    PackEndGrows(SerializeEach(rest), offset + SerialSize(f.typ));
  }

  lemma {:induction false} PackEndGrows(fs: Fields, at: nat)
    ensures at <= PackEnd(fs, at)
    decreases fs
  {
    hide Padding;
    match fs
    case Nil =>
    case Cons(f, rest) =>
      AlignUpBounds(at, AlignmentOf(f.typ));
      PackEndGrows(rest, AlignUp(at, AlignmentOf(f.typ)) + Buffersize(f.typ));
  }

  /** Reading and the layout do not depend on the address; writing only on its remainder. */
  lemma {:induction false} PositionShift(how: Place, t: Type, x: nat, y: nat, p: Path)
    requires Reaches(t, p) && (how.Written? ==> Aligned(x, SerialAlignment(t)))
    ensures Position(how, t, x + y, p) == x + Position(how, t, y, p)
    decreases t, 0
  {
    hide Span, Padding, Aligned;
    match t
    case Scalar(_, _, _) =>
    case Pointer(target) => PositionShift(how, target, x, y, p);
    case Array(element, _, _, _) =>
      if how.Written? { AlignUpShift(x, y, SerialAlignment(element)); }
      PositionShift(how, element, x, Head(how, element, y) + Span(p.i, Stride(how, element)), p.rest);
    case Compound(_, fields, _) =>
      PackKeeps(SerializeEach(fields), 0, 0);
      FieldPositionShift(how, fields, 0, x, y, p.i, p.rest);
  }

  lemma {:induction false} FieldPositionShift(how: Place, fs: Fields, at: nat, x: nat, y: nat, i: nat, p: Path)
    requires FieldReaches(fs, i, p) && (how.Written? ==> Aligned(x, FieldsAlignment(SerializeEach(fs))))
    ensures FieldPosition(how, fs, at, x + y, i, p) == x + FieldPosition(how, fs, at, y, i, p)
    decreases fs, 1
  {
    hide Padding, Aligned, Position, Reaches, Buffersize, AlignmentOf, SerializeType;
    var f, rest := fs.head, fs.tail;
    var offset := AlignUp(at, SerialAlignment(f.typ));
    if how.Written? {
      var a, b := SerialAlignment(f.typ), FieldsAlignment(SerializeEach(rest));
      AlignedWeaken(x, a, MaxPow2(a, b));
      AlignedWeaken(x, b, MaxPow2(a, b));
    }
    if i == 0 {
      PositionShift(how, f.typ, x, y + offset, p);
    } else {
      FieldPositionShift(how, rest, offset + SerialSize(f.typ), x, y, i - 1, p);
    }
  }
}
