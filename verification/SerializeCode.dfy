/** The two copies of the serialize plugin as it runs them: loops that write bytes in place and
    add up the counts. */
module SerializeCode {
  import opened Alignment
  import opened Datatypes
  import opened DenseCopy
  import opened DenseCopyCode
  import opened Serialize

  method SerializeInto(t: Type, dst: array<Byte>, base: nat, to: nat, memory: seq<Byte>, from: nat)
    returns (count: nat)
    requires SerializeCopy(t, dst[..], base, to, memory, from).Counted?
    modifies dst
    ensures Counted(dst[..], count) == old(SerializeCopy(t, dst[..], base, to, memory, from))
    decreases t, 1
  {
    hide Padding, Span, LoadPointer, SerializeElements, SerializeFields;
    match t {
      case Scalar(_, bytes, _) =>
        var _ := CopyBytes(dst, to, memory, from, bytes);
        count := bytes;
      case Array(element, _, start, subsize) =>
        var source: nat := from + Span(start, Buffersize(element));
        var at := AlignCursor(base, to, AlignmentOf(SerializeType(element)));
        AlignedPlace(base, to, AlignmentOf(SerializeType(element)), at);
        count := SerializeEach(element, subsize, dst, base, at, memory, source);
      case Compound(_, fields, _) =>
        count := SerializeMembers(fields, SerializeType(t).fields, dst, base, to, memory, from);
      case Pointer(target) => count := SerializeInto(target, dst, base, to, memory, LoadPointer(memory, from));
    }
  }

  /** The loop over the elements of an array. */
  method SerializeEach(element: Type, subsize: nat, dst: array<Byte>, base: nat, to: nat, memory: seq<Byte>, from: nat)
    returns (count: nat)
    requires SerializeElements(element, subsize, dst[..], base, to, memory, from).Counted?
    modifies dst
    ensures Counted(dst[..], count) == old(SerializeElements(element, subsize, dst[..], base, to, memory, from))
    decreases element, 2
  {
    hide SerializeCopy, Buffersize;
    var source: nat, at: nat, done := from, to, 0;
    count := 0;
    while done < subsize
      invariant done <= subsize
      invariant Plus(count, SerializeElements(element, subsize - done, dst[..], base, at, memory, source))
                == old(SerializeElements(element, subsize, dst[..], base, to, memory, from))
    {
      var copied := SerializeInto(element, dst, base, at, memory, source);
      count := count + copied;
      at := at + copied;
      source := source + Buffersize(element);
      done := done + 1;
    }
  }

  /** The loop over the members of a record. */
  method SerializeMembers(fields: Fields, serial: Fields, dst: array<Byte>, base: nat, to: nat, memory: seq<Byte>,
                          from: nat)
    returns (count: nat)
    requires SerializeFields(fields, serial, dst[..], base, to, memory, from).Counted?
    modifies dst
    ensures Counted(dst[..], count) == old(SerializeFields(fields, serial, dst[..], base, to, memory, from))
    decreases fields, 2
  {
    hide SerializeCopy;
    var members, serialized := fields, serial;
    count := 0;
    while members.Cons? && serialized.Cons?
      invariant members == fields || members < fields
      invariant Plus(count, SerializeFields(members, serialized, dst[..], base, to, memory, from))
                == old(SerializeFields(fields, serial, dst[..], base, to, memory, from))
      decreases members
    {
      var copied := SerializeInto(members.head.typ, dst, base, to + serialized.head.offset, memory,
                                  from + members.head.offset);
      count := count + copied;
      members, serialized := members.tail, serialized.tail;
    }
  }

  method DeserializeInto(t: Type, memory: array<Byte>, to: nat, src: seq<Byte>, from: nat) returns (count: nat)
    requires DeserializeCopy(t, memory[..], to, src, from).Counted?
    modifies memory
    ensures Counted(memory[..], count) == old(DeserializeCopy(t, memory[..], to, src, from))
    decreases t, 1
  {
    hide Padding, Span, LoadPointer, DeserializeElements, DeserializeFields;
    match t {
      case Scalar(_, bytes, _) =>
        var _ := CopyBytes(memory, to, src, from, bytes);
        count := bytes;
      case Array(element, _, start, subsize) =>
        count := DeserializeEach(element, subsize, memory, to + Span(start, Buffersize(element)), src, from);
      case Compound(_, fields, _) =>
        count := DeserializeMembers(fields, SerializeType(t).fields, memory, to, src, from);
      case Pointer(target) => count := DeserializeInto(target, memory, LoadPointer(memory[..], to), src, from);
    }
  }

  method DeserializeEach(element: Type, subsize: nat, memory: array<Byte>, to: nat, src: seq<Byte>, from: nat)
    returns (count: nat)
    requires DeserializeElements(element, subsize, memory[..], to, src, from).Counted?
    modifies memory
    ensures Counted(memory[..], count) == old(DeserializeElements(element, subsize, memory[..], to, src, from))
    decreases element, 2
  {
    hide DeserializeCopy, Buffersize;
    var target: nat, at: nat, done := to, from, 0;
    count := 0;
    while done < subsize
      invariant done <= subsize
      invariant Plus(count, DeserializeElements(element, subsize - done, memory[..], target, src, at))
                == old(DeserializeElements(element, subsize, memory[..], to, src, from))
    {
      var copied := DeserializeInto(element, memory, target, src, at);
      target := target + Buffersize(element);
      at := at + copied;
      count := count + copied;
      done := done + 1;
    }
  }

  method DeserializeMembers(fields: Fields, serial: Fields, memory: array<Byte>, to: nat, src: seq<Byte>, from: nat)
    returns (count: nat)
    requires DeserializeFields(fields, serial, memory[..], to, src, from).Counted?
    modifies memory
    ensures Counted(memory[..], count) == old(DeserializeFields(fields, serial, memory[..], to, src, from))
    decreases fields, 2
  {
    hide DeserializeCopy;
    var members, serialized := fields, serial;
    count := 0;
    while members.Cons? && serialized.Cons?
      invariant members == fields || members < fields
      invariant Plus(count, DeserializeFields(members, serialized, memory[..], to, src, from))
                == old(DeserializeFields(fields, serial, memory[..], to, src, from))
      decreases members
    {
      var copied := DeserializeInto(members.head.typ, memory, to + members.head.offset, src,
                                    from + serialized.head.offset);
      count := count + copied;
      members, serialized := members.tail, serialized.tail;
    }
  }
}
