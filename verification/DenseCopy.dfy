/** The two dense copies (`data_to_dense_copy`, `data_from_dense_copy`) as functions on byte
    sequences. A pointer is an offset into a buffer together with the buffer's address, since
    the copies align absolute addresses. Touching a byte outside a buffer is a `Fault`. */
module DenseCopy {
  import opened Alignment
  import opened Datatypes

  type Byte = b: nat | b < 256 witness 0

  /** A buffer after a copy, with the cursor the copy returns, unless it left a buffer. */
  datatype Outcome = Fault | Copied(bytes: seq<Byte>, cursor: nat)

  function Memcpy(dst: seq<Byte>, to: nat, src: seq<Byte>, from: nat, n: nat): Outcome {
    if to + n <= |dst| && from + n <= |src| then
      Copied(dst[..to] + src[from..from + n] + dst[to + n..], to + n)
    else
      Fault
  }

  /** Both buffers hold the byte, each at its place. */
  ghost predicate SameAt(a: seq<Byte>, i: nat, b: seq<Byte>, j: nat) {
    i < |a| && j < |b| && a[i] == b[j]
  }

  // ----- data_to_dense_copy -----

  function ToDense(t: Type, dst: seq<Byte>, base: nat, to: nat, src: seq<Byte>, from: nat): Outcome
    decreases t, 0
  {
    match t
    case Scalar(_, bytes, _) => Memcpy(dst, to, src, from, bytes)
    case Pointer(_) => Memcpy(dst, to, src, from, ADDRESS_SIZE)
    case Array(element, _, start, subsize) =>
      var first := from + Span(start, Buffersize(element));
      if IsDense(element) then
        Memcpy(dst, to, src, first, Datasize(t))
      else
        ToDenseElements(element, subsize, dst, base, to, src, first)
    case Compound(_, fields, extent) =>
      if IsDense(t) then
        Memcpy(dst, to, src, from, extent)
      else
        ToDenseFields(fields, dst, base, to, src, from)
  }

  function ToDenseElements(t: Type, n: nat, dst: seq<Byte>, base: nat, to: nat, src: seq<Byte>, from: nat): Outcome
    decreases t, 1, n
  {
    if n == 0 then Copied(dst, to)
    else
      match ToDense(t, dst, base, to + Padding(base + to, AlignmentOf(t)), src, from)
      case Fault => Fault
      case Copied(d, cursor) => ToDenseElements(t, n - 1, d, base, cursor, src, from + Buffersize(t))
  }

  function ToDenseFields(fs: Fields, dst: seq<Byte>, base: nat, to: nat, src: seq<Byte>, from: nat): Outcome
    decreases fs, 1
  {
    match fs
    case Nil => Copied(dst, to)
    case Cons(f, rest) =>
      match ToDense(f.typ, dst, base, to + Padding(base + to, AlignmentOf(f.typ)), src, from + f.offset)
      case Fault => Fault
      case Copied(d, cursor) => ToDenseFields(rest, d, base, cursor, src, from)
  }

  // ----- data_from_dense_copy -----

  function FromDense(t: Type, dst: seq<Byte>, base: nat, to: nat, src: seq<Byte>, sbase: nat, from: nat): Outcome
    decreases t, 0
  {
    match t
    case Scalar(_, bytes, _) => Memcpy(dst, to, src, from, bytes)
    case Pointer(_) => Memcpy(dst, to, src, from, ADDRESS_SIZE)
    case Array(element, _, start, subsize) =>
      var first := to + Span(start, Buffersize(element));
      var copied :=
        if IsDense(element) then
          Memcpy(dst, first, src, from, Datasize(t))
        else
          FromDenseElements(element, subsize, dst, base, first, src, sbase, from);
      Rewind(copied, to + Buffersize(t))
    case Compound(_, fields, extent) =>
      var copied :=
        if IsDense(t) then
          Memcpy(dst, to, src, from, extent)
        else
          FromDenseFields(fields, dst, base, to, src, sbase, from);
      Rewind(copied, to + extent)
  }

  /** The compound and array copies return the end of the whole destination. */
  function Rewind(r: Outcome, cursor: nat): Outcome {
    match r
    case Fault => Fault
    case Copied(bytes, _) => Copied(bytes, cursor)
  }

  function FromDenseElements(t: Type, n: nat, dst: seq<Byte>, base: nat, to: nat, src: seq<Byte>, sbase: nat,
                             from: nat): Outcome
    decreases t, 1, n
  {
    if n == 0 then Copied(dst, to)
    else
      var at := from + Padding(sbase + from, AlignmentOf(t));
      match FromDense(t, dst, base, to + Padding(base + to, AlignmentOf(t)), src, sbase, at)
      case Fault => Fault
      case Copied(d, cursor) => FromDenseElements(t, n - 1, d, base, cursor, src, sbase, at + Datasize(t))
  }

  function FromDenseFields(fs: Fields, dst: seq<Byte>, base: nat, to: nat, src: seq<Byte>, sbase: nat,
                           from: nat): Outcome
    decreases fs, 1
  {
    match fs
    case Nil => Copied(dst, to)
    case Cons(f, rest) =>
      var at := from + Padding(sbase + from, AlignmentOf(f.typ));
      match FromDense(f.typ, dst, base, to + f.offset, src, sbase, at)
      case Fault => Fault
      case Copied(d, _) => FromDenseFields(rest, d, base, to, src, sbase, at + Datasize(f.typ))
  }
}
