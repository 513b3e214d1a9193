/** The serialize plugin: `serialize_copy` gathers a value and everything its pointers reach into
    one buffer, `deserialize_copy` scatters it back. The memory of the simulation is one sequence
    of bytes whose indices are addresses. */
module Serialize {
  import opened Alignment
  import opened Datatypes
  import opened DenseCopy

  /** The written buffer and the count of copied bytes, unless the copy left a buffer. */
  datatype Counted = Stray | Counted(bytes: seq<Byte>, count: nat)

  /** A little-endian address. */
  function LoadBytes(memory: seq<Byte>, a: nat, n: nat): nat
    requires a + n <= |memory|
    decreases n
  {
    if n == 0 then 0 else memory[a] + 256 * LoadBytes(memory, a + 1, n - 1)
  }

  function LoadPointer(memory: seq<Byte>, a: nat): nat
    requires a + ADDRESS_SIZE <= |memory|
  {
    LoadBytes(memory, a, ADDRESS_SIZE)
  }

  function Power256(n: nat): nat {
    if n == 0 then 1 else 256 * Power256(n - 1)
  }

  /** Each byte counts 256 times as much as the one before it. */
  lemma {:induction false} LoadBytesIs(memory: seq<Byte>, a: nat, n: nat)
    requires a + n < |memory|
    ensures LoadBytes(memory, a, n + 1) == LoadBytes(memory, a, n) + Power256(n) * memory[a + n]
    decreases n
  {
    var last: nat := memory[a + n];
    if n > 0 {
      LoadBytesIs(memory, a + 1, n - 1);
      Regroup(Power256(n - 1), last, LoadBytes(memory, a + 1, n - 1));
    }
  }

  lemma Regroup(p: nat, x: nat, rest: nat)
    ensures 256 * (rest + p * x) == 256 * rest + (256 * p) * x
  {
  }

  function Transfer(dst: seq<Byte>, to: nat, src: seq<Byte>, from: nat, n: nat): Counted {
    match Memcpy(dst, to, src, from, n)
    case Fault => Stray
    case Copied(bytes, _) => Counted(bytes, n)
  }

  // ----- serialize_copy -----

  function SerializeCopy(t: Type, dst: seq<Byte>, base: nat, to: nat, memory: seq<Byte>, from: nat): Counted
    decreases t, 0
  {
    match t
    case Scalar(_, bytes, _) => Transfer(dst, to, memory, from, bytes)
    case Array(element, _, start, subsize) =>
      var at := to + Padding(base + to, AlignmentOf(SerializeType(element)));
      SerializeElements(element, subsize, dst, base, at, memory, from + Span(start, Buffersize(element)))
    case Compound(_, fields, _) => SerializeFields(fields, SerializeType(t).fields, dst, base, to, memory, from)
    case Pointer(target) =>
      if from + ADDRESS_SIZE <= |memory| then
        SerializeCopy(target, dst, base, to, memory, LoadPointer(memory, from))
      else
        Stray
  }

  function SerializeElements(t: Type, n: nat, dst: seq<Byte>, base: nat, to: nat, memory: seq<Byte>, from: nat)
    : Counted
    decreases t, 1, n
  {
    if n == 0 then Counted(dst, 0)
    else
      match SerializeCopy(t, dst, base, to, memory, from)
      case Stray => Stray
      case Counted(d, count) =>
        Plus(count, SerializeElements(t, n - 1, d, base, to + count, memory, from + Buffersize(t)))
  }

  function SerializeFields(fs: Fields, gs: Fields, dst: seq<Byte>, base: nat, to: nat, memory: seq<Byte>, from: nat)
    : Counted
    decreases fs, 1
  {
    match (fs, gs)
    case (Cons(f, frest), Cons(g, grest)) =>
      (match SerializeCopy(f.typ, dst, base, to + g.offset, memory, from + f.offset)
       case Stray => Stray
       case Counted(d, count) => Plus(count, SerializeFields(frest, grest, d, base, to, memory, from)))
    case _ => Counted(dst, 0)
  }

  function Plus(count: nat, r: Counted): Counted {
    match r
    case Stray => Stray
    case Counted(bytes, more) => Counted(bytes, count + more)
  }

  // ----- deserialize_copy -----

  function DeserializeCopy(t: Type, memory: seq<Byte>, to: nat, src: seq<Byte>, from: nat): Counted
    decreases t, 0
  {
    match t
    case Scalar(_, bytes, _) => Transfer(memory, to, src, from, bytes)
    case Array(element, _, start, subsize) =>
      DeserializeElements(element, subsize, memory, to + Span(start, Buffersize(element)), src, from)
    case Compound(_, fields, _) => DeserializeFields(fields, SerializeType(t).fields, memory, to, src, from)
    case Pointer(target) =>
      if to + ADDRESS_SIZE <= |memory| then
        DeserializeCopy(target, memory, LoadPointer(memory, to), src, from)
      else
        Stray
  }

  function DeserializeElements(t: Type, n: nat, memory: seq<Byte>, to: nat, src: seq<Byte>, from: nat): Counted
    decreases t, 1, n
  {
    if n == 0 then Counted(memory, 0)
    else
      match DeserializeCopy(t, memory, to, src, from)
      case Stray => Stray
      case Counted(m, count) => Plus(count, DeserializeElements(t, n - 1, m, to + Buffersize(t), src, from + count))
  }

  function DeserializeFields(fs: Fields, gs: Fields, memory: seq<Byte>, to: nat, src: seq<Byte>, from: nat): Counted
    decreases fs, 1
  {
    match (fs, gs)
    case (Cons(f, frest), Cons(g, grest)) =>
      (match DeserializeCopy(f.typ, memory, to + f.offset, src, from + g.offset)
       case Stray => Stray
       case Counted(m, count) => Plus(count, DeserializeFields(frest, grest, m, to, src, from)))
    case _ => Counted(memory, 0)
  }

  // ----- the value reached from an address -----

  /** `x` is the address of a scalar byte of the value, possibly behind pointers. */
  ghost predicate LeafAt(t: Type, memory: seq<Byte>, a: nat, x: nat)
    decreases t, 0
  {
    match t
    case Scalar(_, bytes, _) => a <= x < a + bytes
    case Array(element, _, start, subsize) =>
      ElementLeafAt(element, subsize, memory, a + Span(start, Buffersize(element)), x)
    case Compound(_, fields, _) => FieldLeafAt(fields, memory, a, x)
    case Pointer(target) => a + ADDRESS_SIZE <= |memory| && LeafAt(target, memory, LoadPointer(memory, a), x)
  }

  ghost predicate ElementLeafAt(t: Type, n: nat, memory: seq<Byte>, a: nat, x: nat)
    decreases t, 1, n
  {
    n > 0 && (LeafAt(t, memory, a, x) || ElementLeafAt(t, n - 1, memory, a + Buffersize(t), x))
  }

  ghost predicate FieldLeafAt(fs: Fields, memory: seq<Byte>, a: nat, x: nat)
    decreases fs, 1
  {
    match fs
    case Nil => false
    case Cons(f, rest) => LeafAt(f.typ, memory, a + f.offset, x) || FieldLeafAt(rest, memory, a, x)
  }

  /** `x` is the address of a byte of a pointer that leads to them. */
  ghost predicate SlotAt(t: Type, memory: seq<Byte>, a: nat, x: nat)
    decreases t, 0
  {
    match t
    case Scalar(_, _, _) => false
    case Array(element, _, start, subsize) =>
      ElementSlotAt(element, subsize, memory, a + Span(start, Buffersize(element)), x)
    case Compound(_, fields, _) => FieldSlotAt(fields, memory, a, x)
    case Pointer(target) =>
      a + ADDRESS_SIZE <= |memory| && (a <= x < a + ADDRESS_SIZE || SlotAt(target, memory, LoadPointer(memory, a), x))
  }

  ghost predicate ElementSlotAt(t: Type, n: nat, memory: seq<Byte>, a: nat, x: nat)
    decreases t, 1, n
  {
    n > 0 && (SlotAt(t, memory, a, x) || ElementSlotAt(t, n - 1, memory, a + Buffersize(t), x))
  }

  ghost predicate FieldSlotAt(fs: Fields, memory: seq<Byte>, a: nat, x: nat)
    decreases fs, 1
  {
    match fs
    case Nil => false
    case Cons(f, rest) => SlotAt(f.typ, memory, a + f.offset, x) || FieldSlotAt(rest, memory, a, x)
  }

  /** Everything the value needs is in memory. */
  ghost predicate InMemory(t: Type, memory: seq<Byte>, a: nat)
    decreases t, 0
  {
    match t
    case Scalar(_, bytes, _) => a + bytes <= |memory|
    case Array(element, _, start, subsize) =>
      ElementsInMemory(element, subsize, memory, a + Span(start, Buffersize(element)))
    case Compound(_, fields, _) => FieldsInMemory(fields, memory, a)
    case Pointer(target) => a + ADDRESS_SIZE <= |memory| && InMemory(target, memory, LoadPointer(memory, a))
  }

  ghost predicate ElementsInMemory(t: Type, n: nat, memory: seq<Byte>, a: nat)
    decreases t, 1, n
  {
    n > 0 ==> InMemory(t, memory, a) && ElementsInMemory(t, n - 1, memory, a + Buffersize(t))
  }

  ghost predicate FieldsInMemory(fs: Fields, memory: seq<Byte>, a: nat)
    decreases fs, 1
  {
    match fs
    case Nil => true
    case Cons(f, rest) => InMemory(f.typ, memory, a + f.offset) && FieldsInMemory(rest, memory, a)
  }

  // ----- shapes of serialized types -----

  /** No array element needs padding once serialized. */
  ghost predicate ElementsPaddingFree(t: Type) {
    match t
    case Scalar(_, _, _) => true
    case Array(element, _, _, _) =>
      ElementsPaddingFree(element) && Datasize(SerializeType(element)) == Buffersize(SerializeType(element))
    case Compound(_, fields, _) => FieldElementsPaddingFree(fields)
    case Pointer(target) => ElementsPaddingFree(target)
  }

  ghost predicate FieldElementsPaddingFree(fs: Fields) {
    match fs
    case Nil => true
    case Cons(f, rest) => ElementsPaddingFree(f.typ) && FieldElementsPaddingFree(rest)
  }
}
