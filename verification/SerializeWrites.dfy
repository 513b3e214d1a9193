/** What `serialize_copy` leaves in every byte of its buffer. */
module SerializeWrites {
  import opened Options
  import opened Alignment
  import opened Datatypes
  import opened DensifyAlgebra
  import opened DenseCopy
  import opened DenseCopyBounds
  import opened Leaves
  import opened Serialize
  import opened SerializeLeaves

  // ----- the last leaf written to a place -----

  ghost function Writer(t: Type, x: nat, y: nat): (w: Option<Path>)
    ensures w.Some? ==> Reaches(t, w.value) && Position(Written, t, x, w.value) == y
    decreases t, 0
  {
    match t
    case Scalar(_, bytes, _) => if x <= y < x + bytes then Some(Here(y - x)) else None
    case Array(element, _, _, subsize) => Step(ElementWriter(element, subsize, Head(Written, element, x), y))
    case Compound(_, fields, _) => Step(FieldWriter(fields, 0, x, y))
    case Pointer(target) => Writer(target, x, y)
  }

  ghost function ElementWriter(t: Type, n: nat, x: nat, y: nat): (w: Option<(nat, Path)>)
    ensures w.Some? ==>
      && w.value.0 < n && Reaches(t, w.value.1)
      && Position(Written, t, x + Span(w.value.0, SerialData(t)), w.value.1) == y
    decreases t, 1, n
  {
    if n == 0 then None
    else
      match ElementWriter(t, n - 1, x + SerialData(t), y)
      case Some(w) =>
        SpanSucc(w.0, SerialData(t));
        Some((w.0 + 1, w.1))
      case None =>
        SpanSucc(0, SerialData(t));
        First(Writer(t, x, y))
  }

  ghost function FieldWriter(fs: Fields, at: nat, x: nat, y: nat): (w: Option<(nat, Path)>)
    ensures w.Some? ==>
      FieldReaches(fs, w.value.0, w.value.1) && FieldPosition(Written, fs, at, x, w.value.0, w.value.1) == y
    decreases fs, 1
  {
    match fs
    case Nil => None
    case Cons(f, rest) =>
      var offset := AlignUp(at, SerialAlignment(f.typ));
      match FieldWriter(rest, offset + SerialSize(f.typ), x, y)
      case Some(w) => Some((w.0 + 1, w.1))
      case None => First(Writer(f.typ, x + offset, y))
  }

  function Step(w: Option<(nat, Path)>): Option<Path> {
    match w
    case None => None
    case Some(v) => Some(Into(v.0, v.1))
  }

  function First(w: Option<Path>): Option<(nat, Path)> {
    match w
    case None => None
    case Some(p) => Some((0, p))
  }

  /** The place of a leaf is written. */
  lemma {:induction false} LeafHasWriter(t: Type, x: nat, p: Path)
    requires Reaches(t, p)
    ensures Writer(t, x, Position(Written, t, x, p)).Some?
    decreases t, 0
  {
    hide Span, AlignUp;
    match t
    case Scalar(_, _, _) =>
    case Pointer(target) => LeafHasWriter(target, x, p);
    case Array(element, _, _, subsize) => ElementHasWriter(element, subsize, Head(Written, element, x), p.i, p.rest);
    case Compound(_, fields, _) => FieldHasWriter(fields, 0, x, p.i, p.rest);
  }

  lemma {:induction false} ElementHasWriter(t: Type, n: nat, x: nat, i: nat, p: Path)
    requires i < n && Reaches(t, p)
    ensures ElementWriter(t, n, x, Position(Written, t, x + Span(i, SerialData(t)), p)).Some?
    decreases t, 1, n
  {
    hide Span, Position, Reaches, SerialData, Writer;
    SpanSucc(0, SerialData(t));
    if i == 0 {
      LeafHasWriter(t, x, p);
    } else {
      SpanSucc(i - 1, SerialData(t));
      ElementHasWriter(t, n - 1, x + SerialData(t), i - 1, p);
    }
  }

  lemma {:induction false} FieldHasWriter(fs: Fields, at: nat, x: nat, i: nat, p: Path)
    requires FieldReaches(fs, i, p)
    ensures FieldWriter(fs, at, x, FieldPosition(Written, fs, at, x, i, p)).Some?
    decreases fs, 1
  {
    hide AlignUp, Position, Reaches, SerialAlignment, SerialSize, Writer;
    var f, rest := fs.head, fs.tail;
    var offset := AlignUp(at, SerialAlignment(f.typ));
    if i == 0 {
      LeafHasWriter(f.typ, x + offset, p);
    } else {
      FieldHasWriter(rest, offset + SerialSize(f.typ), x, i - 1, p);
    }
  }

  // ----- the bytes written -----

  function ByteAt(memory: seq<Byte>, x: nat): Byte {
    if x < |memory| then memory[x] else 0
  }

  ghost function Sent(t: Type, dst: seq<Byte>, x: nat, base: nat, y: nat, memory: seq<Byte>, from: nat): Byte
  {
    match Writer(t, x, base + y)
    case None => ByteAt(dst, y)
    case Some(p) => ByteAt(memory, Source(t, memory, from, p))
  }

  ghost function ElementsSent(t: Type, n: nat, dst: seq<Byte>, x: nat, base: nat, y: nat, memory: seq<Byte>,
                              from: nat): Byte
  {
    match ElementWriter(t, n, x, base + y)
    case None => ByteAt(dst, y)
    case Some(w) => ByteAt(memory, ElementSource(t, memory, from, w.0, w.1))
  }

  ghost function FieldsSent(fs: Fields, at: nat, dst: seq<Byte>, x: nat, base: nat, y: nat, memory: seq<Byte>,
                            from: nat): Byte
  {
    match FieldWriter(fs, at, x, base + y)
    case None => ByteAt(dst, y)
    case Some(w) => ByteAt(memory, FieldSource(fs, memory, from, w.0, w.1))
  }

  ghost predicate Filled(r: Counted, dst: seq<Byte>, y: nat, count: nat, sent: Byte) {
    r.Counted? && r.count == count && |r.bytes| == |dst| && (y < |dst| ==> r.bytes[y] == sent)
  }

  lemma TransferFills(dst: seq<Byte>, to: nat, memory: seq<Byte>, from: nat, n: nat, y: nat)
    requires to + n <= |dst| && from + n <= |memory|
    ensures var r := Transfer(dst, to, memory, from, n);
      Filled(r, dst, y, n, if to <= y < to + n then memory[from + (y - to)] else ByteAt(dst, y))
  {
  }

  lemma NoneSent(t: Type, dst: seq<Byte>, x: nat, base: nat, y: nat, memory: seq<Byte>, from: nat)
    ensures ElementsSent(t, 0, dst, x, base, y, memory, from) == ByteAt(dst, y)
  {
  }

  /** The elements after the first are sent over what the first left. */
  lemma ElementsSentStep(t: Type, n: nat, dst: seq<Byte>, d: seq<Byte>, x: nat, base: nat, y: nat, memory: seq<Byte>,
                         from: nat)
    requires n > 0 && ByteAt(d, y) == Sent(t, dst, x, base, y, memory, from)
    ensures ElementsSent(t, n, dst, x, base, y, memory, from)
         == ElementsSent(t, n - 1, d, x + SerialData(t), base, y, memory, from + Buffersize(t))
  {
    hide Span, Writer, Source, Reaches, Position, SerialData, Buffersize, ByteAt;
    var later := ElementWriter(t, n - 1, x + SerialData(t), base + y);
    SpanSucc(0, Buffersize(t));
    if later.Some? { SpanSucc(later.value.0, Buffersize(t)); }
  }

  lemma NextDue(t: Type, n: nat, due: nat)
    requires WellFormed(t) && Aligned(due, SerialAlignment(t)) && n > 0
    ensures SerialData(t) <= SerialSize(t) <= Span(n, SerialSize(t))
    ensures Aligned(due + SerialSize(t), SerialAlignment(t))
    ensures Span(n, SerialSize(t)) == SerialSize(t) + Span(n - 1, SerialSize(t))
  {
    hide Span, Aligned, WellFormed, SerialData, SerialSize, SerialAlignment;
    SerialDataFits(t);
    SerialAligned(t);
    AlignedAdd(due, SerialSize(t), SerialAlignment(t));
    SpanSucc(n - 1, SerialSize(t));
  }

  /** `serialize_copy` counts the data of the serialized type and leaves in each byte of the buffer the last leaf
      written there, or what was there. It needs room for the serialized type at the next aligned address. */
  lemma {:induction false} SerializeFills(t: Type, dst: seq<Byte>, base: nat, to: nat, due: nat, memory: seq<Byte>,
                                          from: nat, y: nat)
    requires WellFormed(t) && InMemory(t, memory, from)
    requires base + to <= due && Aligned(due, SerialAlignment(t)) && due + SerialSize(t) <= base + |dst|
    ensures Filled(SerializeCopy(t, dst, base, to, memory, from), dst, y, SerialData(t),
                   Sent(t, dst, base + to, base, y, memory, from))
    decreases t, 0
  {
    hide Padding, Aligned, Span, LoadPointer, Transfer, SerializeElements, SerializeFields, ElementWriter, FieldWriter,
      PackEnd;
    match t
    case Scalar(_, bytes, _) => TransferFills(dst, to, memory, from, bytes, y);
    case Pointer(target) => SerializeFills(target, dst, base, to, due, memory, LoadPointer(memory, from), y);
    case Array(element, _, start, subsize) =>
      ElementDue(Written, element, base + to, due, 0, 1);
      SpanSucc(0, SerialSize(element));
      SpanSucc(0, SerialData(element));
      var at := to + Padding(base + to, SerialAlignment(element));
      SerializeElementsFills(element, subsize, dst, base, at, due, memory, from + Span(start, Buffersize(element)), y);
    case Compound(_, fields, _) =>
      PackKeeps(SerializeEach(fields), 0, 0);
      AlignUpBounds(PackEnd(SerializeEach(fields), 0), FieldsAlignment(SerializeEach(fields)));
      SerializeFieldsFills(fields, 0, dst, base, to, due, memory, from, y);
  }

  lemma {:induction false} SerializeElementsFills(t: Type, n: nat, dst: seq<Byte>, base: nat, to: nat, due: nat,
                                                  memory: seq<Byte>, from: nat, y: nat)
    requires WellFormed(t) && ElementsInMemory(t, n, memory, from)
    requires base + to <= due && Aligned(due, SerialAlignment(t)) && due + Span(n, SerialSize(t)) <= base + |dst|
    ensures Filled(SerializeElements(t, n, dst, base, to, memory, from), dst, y, Span(n, SerialData(t)),
                   ElementsSent(t, n, dst, base + to, base, y, memory, from))
    decreases t, 1, n
  {
    hide Aligned, Span, WellFormed, InMemory, SerializeCopy, Writer, Source, Reaches, Position, SerialAlignment,
      SerialSize, SerialData, Buffersize, ElementsSent, Sent;
    if n > 0 {
      var r := SerializeCopy(t, dst, base, to, memory, from);
      NextDue(t, n, due);
      SpanSucc(n - 1, SerialData(t));
      SerializeFills(t, dst, base, to, due, memory, from, y);
      SerializeElementsFills(t, n - 1, r.bytes, base, to + SerialData(t), due + SerialSize(t), memory,
                             from + Buffersize(t), y);
      if y < |dst| { ElementsSentStep(t, n, dst, r.bytes, base + to, base, y, memory, from); }
    } else {
      SpanSucc(0, SerialData(t));
      assert y < |dst| ==> dst[y] == ElementsSent(t, 0, dst, base + to, base, y, memory, from) by {
        NoneSent(t, dst, base + to, base, y, memory, from);
      }
    }
  }

  lemma {:induction false} SerializeFieldsFills(fs: Fields, at: nat, dst: seq<Byte>, base: nat, to: nat, due: nat,
                                                memory: seq<Byte>, from: nat, y: nat)
    requires FieldsWellFormed(fs) && FieldsInMemory(fs, memory, from)
    requires base + to <= due && Aligned(due, FieldsAlignment(SerializeEach(fs)))
    requires due + PackEnd(SerializeEach(fs), at) <= base + |dst|
    ensures Filled(SerializeFields(fs, Pack(SerializeEach(fs), at), dst, base, to, memory, from), dst, y,
                   FieldsDatasize(SerializeEach(fs)), FieldsSent(fs, at, dst, base + to, base, y, memory, from))
    decreases fs, 1
  {
    hide Padding, Aligned, WellFormed, InMemory, SerializeCopy, Writer, Source, Reaches, Position, SerializeType,
      AlignmentOf, Buffersize, Datasize;
    match fs
    case Nil =>
    case Cons(f, rest) =>
      var offset := AlignUp(at, SerialAlignment(f.typ));
      FieldDue(f, rest, at, due);
      SerializeFills(f.typ, dst, base, to + offset, due + offset, memory, from + f.offset, y);
      var r := SerializeCopy(f.typ, dst, base, to + offset, memory, from + f.offset);
      SerializeFieldsFills(rest, offset + SerialSize(f.typ), r.bytes, base, to, due, memory, from, y);
  }

  // ----- where it writes -----

  /** A caller gives room for the serialized type at an aligned address. */
  ghost predicate Suits(t: Type, dst: seq<Byte>, base: nat, to: nat) {
    Aligned(base + to, SerialAlignment(t)) && to + SerialSize(t) <= |dst|
  }

  /** For every well-formed type, `serialize_copy` counts the data of the serialized type and writes nothing outside
      the bytes it takes. */
  lemma SerializeStaysInside(t: Type, dst: seq<Byte>, base: nat, to: nat, memory: seq<Byte>, from: nat)
    requires WellFormed(t) && InMemory(t, memory, from) && Suits(t, dst, base, to)
    ensures var r := SerializeCopy(t, dst, base, to, memory, from);
      r.Counted? && r.count == SerialData(t) && KeptOutside(dst, r.bytes, to, to + SerialSize(t))
  {
    hide WellFormed, InMemory, Aligned, SerialAlignment, SerialSize, SerialData, SerializeCopy, Writer, Source,
      Reaches, Position;
    var r := SerializeCopy(t, dst, base, to, memory, from);
    SerializeFills(t, dst, base, to, base + to, memory, from, 0);
    forall y | 0 <= y < |dst|
      ensures r.Counted? && |r.bytes| == |dst| && (y < to || to + SerialSize(t) <= y ==> r.bytes[y] == dst[y])
    {
      SerializeFills(t, dst, base, to, base + to, memory, from, y);
      var w := Writer(t, base + to, base + y);
      if w.Some? { PositionBound(Written, t, base + to, base + to, w.value); }
    }
  }
}
