/** The datatypes of the library and their layout queries. Records and tuples run the
    same algorithms in the source and share the constructor `Compound` here. */
module Datatypes {
  import opened Alignment

  datatype ScalarKind = Unknown | Signed | Unsigned | Float

  datatype CompoundForm = Record | Tuple

  datatype Type =
    | Scalar(kind: ScalarKind, bytes: nat, align: Pow2)
    | Array(element: Type, size: nat, start: nat, subsize: nat)
    | Compound(form: CompoundForm, fields: Fields, extent: nat)
    | Pointer(target: Type)

  /** A record member or a tuple element (the latter with an empty name). */
  datatype Field = Field(offset: nat, typ: Type, name: string)

  datatype Fields = Nil | Cons(head: Field, tail: Fields)

  const ADDRESS_SIZE: Pow2 := 8

  // ----- sizes and alignment -----

  function Buffersize(t: Type): nat {
    match t
    case Scalar(_, bytes, _) => bytes
    case Array(element, size, _, _) => Span(size, Buffersize(element))
    case Compound(_, _, extent) => extent
    case Pointer(_) => ADDRESS_SIZE
  }

  function Datasize(t: Type): nat {
    match t
    case Scalar(_, bytes, _) => bytes
    case Array(element, _, _, subsize) => Span(subsize, Datasize(element))
    case Compound(_, fields, _) => FieldsDatasize(fields)
    case Pointer(_) => ADDRESS_SIZE
  }

  function FieldsDatasize(fs: Fields): nat {
    match fs
    case Nil => 0
    case Cons(f, rest) => Datasize(f.typ) + FieldsDatasize(rest)
  }

  function AlignmentOf(t: Type): Pow2 {
    match t
    case Scalar(_, _, align) => align
    case Array(element, _, _, _) => AlignmentOf(element)
    case Compound(_, fields, _) => FieldsAlignment(fields)
    case Pointer(_) => ADDRESS_SIZE
  }

  function FieldsAlignment(fs: Fields): Pow2 {
    match fs
    case Nil => 1
    case Cons(f, rest) => MaxPow2(AlignmentOf(f.typ), FieldsAlignment(rest))
  }

  // ----- well-formed types -----

  /** Fields from `lo` on are in increasing, aligned, disjoint order and end by `hi`. */
  ghost predicate FieldsFit(fs: Fields, lo: nat, hi: nat) {
    match fs
    case Nil => lo <= hi
    case Cons(f, rest) =>
      && lo <= f.offset
      && Aligned(f.offset, AlignmentOf(f.typ))
      && FieldsFit(rest, f.offset + Buffersize(f.typ), hi)
  }

  ghost predicate WellFormed(t: Type) {
    match t
    case Scalar(_, bytes, align) => Aligned(bytes, align)
    case Array(element, size, start, subsize) => WellFormed(element) && start + subsize <= size
    case Compound(_, fields, extent) =>
      && fields.Cons?
      && extent >= 1
      && Aligned(extent, FieldsAlignment(fields))
      && FieldsFit(fields, 0, extent)
      && FieldsWellFormed(fields)
    case Pointer(target) => WellFormed(target)
  }

  ghost predicate FieldsWellFormed(fs: Fields) {
    match fs
    case Nil => true
    case Cons(f, rest) => WellFormed(f.typ) && FieldsWellFormed(rest)
  }

  // ----- greedy layouts -----

  /** The greedy layout that every layout loop of the source computes: each field at the
      first aligned offset after its predecessor, whatever offset it had. */
  function Pack(fs: Fields, at: nat): Fields {
    match fs
    case Nil => Nil
    case Cons(f, rest) =>
      var offset := AlignUp(at, AlignmentOf(f.typ));
      Cons(Field(offset, f.typ, f.name), Pack(rest, offset + Buffersize(f.typ)))
  }

  /** Where the greedy layout ends, before trailing padding. */
  function PackEnd(fs: Fields, at: nat): nat {
    match fs
    case Nil => at
    case Cons(f, rest) => PackEnd(rest, AlignUp(at, AlignmentOf(f.typ)) + Buffersize(f.typ))
  }

  /** The extent of a greedy layout with its trailing padding, at least one byte. */
  function PackedExtent(fs: Fields): nat {
    Max(1, AlignUp(PackEnd(fs, 0), FieldsAlignment(fs)))
  }

  // ----- densify, dense and the serialized type -----

  function Densify(t: Type): Type {
    match t
    case Scalar(_, _, _) => t
    case Array(element, _, _, subsize) => Array(Densify(element), subsize, 0, subsize)
    case Compound(form, fields, _) =>
      var dense := DensifyEach(fields);
      Compound(form, Pack(dense, 0), Max(1, AlignUp(PackEnd(dense, 0), FieldsAlignment(fields))))
    case Pointer(target) => Pointer(Densify(target))
  }

  function DensifyEach(fs: Fields): Fields {
    match fs
    case Nil => Nil
    case Cons(f, rest) => Cons(Field(f.offset, Densify(f.typ), f.name), DensifyEach(rest))
  }

  predicate IsDense(t: Type) {
    match t
    case Scalar(_, _, _) => true
    case Array(element, size, _, subsize) => size == subsize && IsDense(element)
    case Compound(_, fields, extent) => FieldsDense(fields, 0) && extent <= PackedExtent(fields)
    case Pointer(_) => true
  }

  predicate FieldsDense(fs: Fields, at: nat) {
    match fs
    case Nil => true
    case Cons(f, rest) =>
      var offset := AlignUp(at, AlignmentOf(f.typ));
      IsDense(f.typ) && f.offset <= offset && FieldsDense(rest, offset + Buffersize(f.typ))
  }

  function SerializeType(t: Type): Type {
    match t
    case Scalar(_, _, _) => t
    case Array(element, _, _, subsize) => Array(SerializeType(element), subsize, 0, subsize)
    case Compound(form, fields, _) =>
      var ser := SerializeEach(fields);
      Compound(form, Pack(ser, 0), AlignUp(PackEnd(ser, 0), FieldsAlignment(ser)))
    case Pointer(target) => SerializeType(target)
  }

  function SerializeEach(fs: Fields): Fields {
    match fs
    case Nil => Nil
    case Cons(f, rest) => Cons(Field(f.offset, SerializeType(f.typ), f.name), SerializeEach(rest))
  }
}
