/** Serializing and deserializing: exactly which types have every leaf restored, behind any nest of pointers. */
module SerializeRoundTrip {
  import opened Alignment
  import opened Datatypes
  import opened DensifyAlgebra
  import opened DenseCopy
  import opened Leaves
  import opened Serialize
  import opened SerializeLeaves
  import opened SerializeWrites

  // ----- deserialize_copy -----

  /** `ser` holds each leaf of the value at `a` where `deserialize_copy` reads it, starting at `s`. */
  ghost predicate Fetches(t: Type, ser: seq<Byte>, s: nat, memory: seq<Byte>, a: nat) {
    forall p | Reaches(t, p) :: SameAt(ser, Position(Read, t, s, p), memory, Source(t, memory, a, p))
  }

  ghost predicate ElementsFetch(t: Type, n: nat, ser: seq<Byte>, s: nat, memory: seq<Byte>, a: nat) {
    forall i: nat, p | i < n && Reaches(t, p) ::
      SameAt(ser, Position(Read, t, s + Span(i, SerialData(t)), p), memory, ElementSource(t, memory, a, i, p))
  }

  ghost predicate FieldsFetch(fs: Fields, at: nat, ser: seq<Byte>, s: nat, memory: seq<Byte>, a: nat) {
    forall i: nat, p | FieldReaches(fs, i, p) ::
      SameAt(ser, FieldPosition(Read, fs, at, s, i, p), memory, FieldSource(fs, memory, a, i, p))
  }

  /** The pointers of the value are in `now` what they are in `want`. */
  ghost predicate SlotsKept(t: Type, want: seq<Byte>, a: nat, now: seq<Byte>) {
    |now| == |want| && forall x | 0 <= x < |now| && SlotAt(t, want, a, x) :: now[x] == want[x]
  }

  ghost predicate ElementSlotsKept(t: Type, n: nat, want: seq<Byte>, a: nat, now: seq<Byte>) {
    |now| == |want| && forall x | 0 <= x < |now| && ElementSlotAt(t, n, want, a, x) :: now[x] == want[x]
  }

  ghost predicate FieldSlotsKept(fs: Fields, want: seq<Byte>, a: nat, now: seq<Byte>) {
    |now| == |want| && forall x | 0 <= x < |now| && FieldSlotAt(fs, want, a, x) :: now[x] == want[x]
  }

  /** The copy succeeded with `count` bytes, put the leaves of `want` into `now` and changed nothing else. */
  ghost predicate Scattered(r: Counted, t: Type, want: seq<Byte>, a: nat, now: seq<Byte>, count: nat) {
    && r.Counted? && r.count == count && |r.bytes| == |now| == |want|
    && forall x | 0 <= x < |now| :: r.bytes[x] == if LeafAt(t, want, a, x) then want[x] else now[x]
  }

  ghost predicate ElementsScattered(r: Counted, t: Type, n: nat, want: seq<Byte>, a: nat, now: seq<Byte>, count: nat) {
    && r.Counted? && r.count == count && |r.bytes| == |now| == |want|
    && forall x | 0 <= x < |now| :: r.bytes[x] == if ElementLeafAt(t, n, want, a, x) then want[x] else now[x]
  }

  ghost predicate FieldsScattered(r: Counted, fs: Fields, want: seq<Byte>, a: nat, now: seq<Byte>, count: nat) {
    && r.Counted? && r.count == count && |r.bytes| == |now| == |want|
    && forall x | 0 <= x < |now| :: r.bytes[x] == if FieldLeafAt(fs, want, a, x) then want[x] else now[x]
  }

  lemma {:induction false} LoadBytesSame(m: seq<Byte>, m': seq<Byte>, a: nat, n: nat)
    requires a + n <= |m| == |m'| && forall x | a <= x < a + n :: m[x] == m'[x]
    ensures LoadBytes(m, a, n) == LoadBytes(m', a, n)
    decreases n
  {
    if n > 0 { LoadBytesSame(m, m', a + 1, n - 1); }
  }

  /** The pointer itself is kept, and so are the pointers it leads to. */
  lemma PointerKept(t: Type, want: seq<Byte>, a: nat, now: seq<Byte>)
    requires t.Pointer? && SlotsKept(t, want, a, now) && a + ADDRESS_SIZE <= |want|
    ensures LoadPointer(now, a) == LoadPointer(want, a) && SlotsKept(t.target, want, LoadPointer(want, a), now)
  {
    hide LoadBytes;
    assert forall x | a <= x < a + ADDRESS_SIZE :: now[x] == want[x] by {
      assert forall x | a <= x < a + ADDRESS_SIZE :: SlotAt(t, want, a, x);
    }
    LoadBytesSame(now, want, a, ADDRESS_SIZE);
    var b := LoadPointer(want, a);
    assert forall x: nat :: SlotAt(t.target, want, b, x) ==> SlotAt(t, want, a, x);
  }

  /** `deserialize_copy` puts the leaves that it finds in the serialized buffer back in place, following the pointers,
      and touches nothing else. */
  lemma {:induction false} DeserializeCopyScatters(t: Type, now: seq<Byte>, a: nat, ser: seq<Byte>, s: nat,
                                                   want: seq<Byte>)
    requires InMemory(t, want, a) && s + SerialSize(t) <= |ser|
    requires Fetches(t, ser, s, want, a) && SlotsKept(t, want, a, now)
    ensures Scattered(DeserializeCopy(t, now, a, ser, s), t, want, a, now, SerialData(t))
    decreases t, 0
  {
    hide Padding, Span, LoadPointer, Transfer, DeserializeElements, DeserializeFields, SameAt, PackEnd;
    match t
    case Scalar(_, bytes, _) =>
      TransferScatters(t, now, a, ser, s, want);
    case Pointer(target) =>
      PointerKept(t, want, a, now);
      var b := LoadPointer(want, a);
      forall p | Reaches(target, p)
        ensures SameAt(ser, Position(Read, target, s, p), want, Source(target, want, b, p))
      {
        assert Reaches(t, p);
      }
      DeserializeCopyScatters(target, now, b, ser, s, want);
    case Array(element, _, start, subsize) =>
      var b := a + Span(start, Buffersize(element));
      forall i: nat, p | i < subsize && Reaches(element, p)
        ensures SameAt(ser, Position(Read, element, s + Span(i, SerialData(element)), p),
                       want, ElementSource(element, want, b, i, p))
      {
        assert Reaches(t, Into(i, p));
      }
      assert forall x: nat :: ElementSlotAt(element, subsize, want, b, x) ==> SlotAt(t, want, a, x);
      DeserializeElementsScatters(element, subsize, now, b, ser, s, want);
    case Compound(_, fields, _) => DeserializeCompoundScatters(t, now, a, ser, s, want);
  }

  lemma {:induction false} DeserializeCompoundScatters(t: Type, now: seq<Byte>, a: nat, ser: seq<Byte>, s: nat,
                                                       want: seq<Byte>)
    requires t.Compound? && InMemory(t, want, a) && s + SerialSize(t) <= |ser|
    requires Fetches(t, ser, s, want, a) && SlotsKept(t, want, a, now)
    ensures Scattered(DeserializeCopy(t, now, a, ser, s), t, want, a, now, SerialData(t))
    decreases t.fields, 2
  {
    hide Padding, DeserializeFields, SameAt, PackEnd;
    var fields := t.fields;
    var ser' := SerializeEach(fields);
    PackKeeps(ser', 0, 0);
    AlignUpBounds(PackEnd(ser', 0), FieldsAlignment(ser'));
    forall i: nat, p | FieldReaches(fields, i, p)
      ensures SameAt(ser, FieldPosition(Read, fields, 0, s, i, p), want, FieldSource(fields, want, a, i, p))
    {
      assert Reaches(t, Into(i, p));
    }
    assert forall x: nat :: FieldSlotAt(fields, want, a, x) ==> SlotAt(t, want, a, x);
    DeserializeFieldsScatters(fields, 0, now, a, ser, s, want);
  }

  lemma TransferScatters(t: Type, now: seq<Byte>, a: nat, ser: seq<Byte>, s: nat, want: seq<Byte>)
    requires t.Scalar? && |now| == |want| && a + t.bytes <= |want| && s + t.bytes <= |ser|
    requires Fetches(t, ser, s, want, a)
    ensures Scattered(Transfer(now, a, ser, s, t.bytes), t, want, a, now, t.bytes)
  {
    var r := Transfer(now, a, ser, s, t.bytes);
    forall x | 0 <= x < |now|
      ensures r.bytes[x] == if a <= x < a + t.bytes then want[x] else now[x]
    {
      if a <= x < a + t.bytes {
        assert Reaches(t, Here(x - a));
      }
    }
  }

  lemma {:induction false} DeserializeElementsScatters(t: Type, n: nat, now: seq<Byte>, a: nat, ser: seq<Byte>, s: nat,
                                                       want: seq<Byte>)
    requires ElementsInMemory(t, n, want, a) && s + Span(n, SerialSize(t)) <= |ser|
    requires ElementsFetch(t, n, ser, s, want, a) && ElementSlotsKept(t, n, want, a, now)
    ensures ElementsScattered(DeserializeElements(t, n, now, a, ser, s), t, n, want, a, now, Span(n, SerialData(t)))
    decreases t, 1, n
  {
    hide Span, InMemory, DeserializeCopy, SerialData, SerialSize, Buffersize, LeafAt, SlotAt, SameAt, Position,
      Reaches, Source, Fetches, ElementsFetch;
    SpanSucc(0, SerialData(t));
    if n > 0 {
      SpanSucc(n - 1, SerialData(t));
      SpanSucc(n - 1, SerialSize(t));
      SerialDataFits(t);
      ElementsFetchStep(t, n, ser, s, want, a);
      DeserializeCopyScatters(t, now, a, ser, s, want);
      var r := DeserializeCopy(t, now, a, ser, s);
      DeserializeElementsScatters(t, n - 1, r.bytes, a + Buffersize(t), ser, s + SerialData(t), want);
    }
  }

  lemma ElementsFetchStep(t: Type, n: nat, ser: seq<Byte>, s: nat, want: seq<Byte>, a: nat)
    requires n > 0 && ElementsFetch(t, n, ser, s, want, a)
    ensures Fetches(t, ser, s, want, a) && ElementsFetch(t, n - 1, ser, s + SerialData(t), want, a + Buffersize(t))
  {
    hide Span, SerialData, Buffersize, SameAt, Position, Reaches, Source;
    SpanSucc(0, SerialData(t));
    SpanSucc(0, Buffersize(t));
    forall p | Reaches(t, p)
      ensures SameAt(ser, Position(Read, t, s, p), want, Source(t, want, a, p))
    {
      assert SameAt(ser, Position(Read, t, s + Span(0, SerialData(t)), p), want, ElementSource(t, want, a, 0, p));
    }
    var s', a' := s + SerialData(t), a + Buffersize(t);
    forall i: nat, p | i < n - 1 && Reaches(t, p)
      ensures SameAt(ser, Position(Read, t, s' + Span(i, SerialData(t)), p), want, ElementSource(t, want, a', i, p))
    {
      SpanSucc(i, SerialData(t));
      SpanSucc(i, Buffersize(t));
      assert SameAt(ser, Position(Read, t, s + Span(i + 1, SerialData(t)), p), want,
                    ElementSource(t, want, a, i + 1, p));
    }
  }

  lemma {:induction false} DeserializeFieldsScatters(fs: Fields, at: nat, now: seq<Byte>, a: nat, ser: seq<Byte>,
                                                     s: nat, want: seq<Byte>)
    requires FieldsInMemory(fs, want, a) && s + PackEnd(SerializeEach(fs), at) <= |ser|
    requires FieldsFetch(fs, at, ser, s, want, a) && FieldSlotsKept(fs, want, a, now)
    ensures FieldsScattered(DeserializeFields(fs, Pack(SerializeEach(fs), at), now, a, ser, s), fs, want, a, now,
                            FieldsDatasize(SerializeEach(fs)))
    decreases fs, 1
  {
    hide Padding, InMemory, DeserializeCopy, SerializeType, Buffersize, Datasize, LeafAt, SlotAt, AlignmentOf, SameAt,
      Position, Reaches, Source, Fetches, FieldsFetch;
    match fs
    case Nil =>
    case Cons(f, rest) =>
      var offset := AlignUp(at, SerialAlignment(f.typ));
      PackEndGrows(SerializeEach(rest), offset + SerialSize(f.typ));
      FieldsFetchStep(f, rest, at, ser, s, want, a);
      DeserializeCopyScatters(f.typ, now, a + f.offset, ser, s + offset, want);
      var r := DeserializeCopy(f.typ, now, a + f.offset, ser, s + offset);
      DeserializeFieldsScatters(rest, offset + SerialSize(f.typ), r.bytes, a, ser, s, want);
  }

  lemma FieldsFetchStep(f: Field, rest: Fields, at: nat, ser: seq<Byte>, s: nat, want: seq<Byte>, a: nat)
    requires FieldsFetch(Cons(f, rest), at, ser, s, want, a)
    ensures var offset := AlignUp(at, SerialAlignment(f.typ));
      && Fetches(f.typ, ser, s + offset, want, a + f.offset)
      && FieldsFetch(rest, offset + SerialSize(f.typ), ser, s, want, a)
  {
    hide Padding, SerialAlignment, SerialSize, SameAt, Position, Reaches, Source;
    var fs := Cons(f, rest);
    var offset := AlignUp(at, SerialAlignment(f.typ));
    forall p | Reaches(f.typ, p)
      ensures SameAt(ser, Position(Read, f.typ, s + offset, p), want, Source(f.typ, want, a + f.offset, p))
    {
      assert FieldReaches(fs, 0, p);
      assert SameAt(ser, FieldPosition(Read, fs, at, s, 0, p), want, FieldSource(fs, want, a, 0, p));
    }
    forall i: nat, p | FieldReaches(rest, i, p)
      ensures SameAt(ser, FieldPosition(Read, rest, offset + SerialSize(f.typ), s, i, p), want,
                     FieldSource(rest, want, a, i, p))
    {
      assert FieldReaches(fs, i + 1, p);
      assert SameAt(ser, FieldPosition(Read, fs, at, s, i + 1, p), want, FieldSource(fs, want, a, i + 1, p));
    }
  }

  // ----- the addresses of the leaves -----

  /** Every leaf of a value in memory is there, and the address is that of a leaf. */
  lemma {:induction false} SourceInside(t: Type, memory: seq<Byte>, a: nat, p: Path)
    requires Reaches(t, p) && InMemory(t, memory, a)
    ensures Source(t, memory, a, p) < |memory| && LeafAt(t, memory, a, Source(t, memory, a, p))
    decreases t, 0
  {
    hide Span, LoadPointer;
    match t
    case Scalar(_, _, _) =>
    case Pointer(target) => SourceInside(target, memory, LoadPointer(memory, a), p);
    case Array(element, _, start, subsize) =>
      ElementSourceInside(element, subsize, memory, a + Span(start, Buffersize(element)), p.i, p.rest);
    case Compound(_, fields, _) => FieldSourceInside(fields, memory, a, p.i, p.rest);
  }

  lemma {:induction false} ElementSourceInside(t: Type, n: nat, memory: seq<Byte>, a: nat, i: nat, p: Path)
    requires i < n && Reaches(t, p) && ElementsInMemory(t, n, memory, a)
    ensures var x := ElementSource(t, memory, a, i, p);
      x < |memory| && ElementLeafAt(t, n, memory, a, x)
    decreases t, 1, n
  {
    hide Span, Reaches, Source, InMemory, LeafAt, Buffersize;
    SpanSucc(0, Buffersize(t));
    if i == 0 {
      SourceInside(t, memory, a, p);
    } else {
      SpanSucc(i - 1, Buffersize(t));
      ElementSourceInside(t, n - 1, memory, a + Buffersize(t), i - 1, p);
    }
  }

  lemma {:induction false} FieldSourceInside(fs: Fields, memory: seq<Byte>, a: nat, i: nat, p: Path)
    requires FieldReaches(fs, i, p) && FieldsInMemory(fs, memory, a)
    ensures var x := FieldSource(fs, memory, a, i, p);
      x < |memory| && FieldLeafAt(fs, memory, a, x)
    decreases fs, 1
  {
    hide Reaches, Source, InMemory, LeafAt;
    if i == 0 {
      SourceInside(fs.head.typ, memory, a + fs.head.offset, p);
    } else {
      FieldSourceInside(fs.tail, memory, a, i - 1, p);
    }
  }

  /** A memory with the same pointers holds the value, with its leaves at the same addresses. */
  lemma {:induction false} ShapeKept(t: Type, memory: seq<Byte>, a: nat, now: seq<Byte>)
    requires InMemory(t, memory, a) && SlotsKept(t, memory, a, now)
    ensures InMemory(t, now, a)
    decreases t, 0
  {
    hide Span, LoadPointer;
    match t
    case Scalar(_, _, _) =>
    case Pointer(target) =>
      PointerKept(t, memory, a, now);
      ShapeKept(target, memory, LoadPointer(memory, a), now);
    case Array(element, _, start, subsize) =>
      var b := a + Span(start, Buffersize(element));
      assert forall x: nat :: ElementSlotAt(element, subsize, memory, b, x) ==> SlotAt(t, memory, a, x);
      ElementsShapeKept(element, subsize, memory, b, now);
    case Compound(_, fields, _) =>
      assert forall x: nat :: FieldSlotAt(fields, memory, a, x) ==> SlotAt(t, memory, a, x);
      FieldsShapeKept(fields, memory, a, now);
  }

  lemma {:induction false} ElementsShapeKept(t: Type, n: nat, memory: seq<Byte>, a: nat, now: seq<Byte>)
    requires ElementsInMemory(t, n, memory, a) && ElementSlotsKept(t, n, memory, a, now)
    ensures ElementsInMemory(t, n, now, a)
    decreases t, 1, n
  {
    hide InMemory, SlotAt, Buffersize;
    if n > 0 {
      ShapeKept(t, memory, a, now);
      ElementsShapeKept(t, n - 1, memory, a + Buffersize(t), now);
    }
  }

  lemma {:induction false} FieldsShapeKept(fs: Fields, memory: seq<Byte>, a: nat, now: seq<Byte>)
    requires FieldsInMemory(fs, memory, a) && FieldSlotsKept(fs, memory, a, now)
    ensures FieldsInMemory(fs, now, a)
    decreases fs, 1
  {
    hide InMemory, SlotAt;
    match fs
    case Nil =>
    case Cons(f, rest) =>
      ShapeKept(f.typ, memory, a + f.offset, now);
      FieldsShapeKept(rest, memory, a, now);
  }

  lemma {:induction false} SlotKept(t: Type, memory: seq<Byte>, a: nat, now: seq<Byte>, x: nat)
    requires InMemory(t, memory, a) && SlotsKept(t, memory, a, now)
    ensures SlotAt(t, now, a, x) <==> SlotAt(t, memory, a, x)
    decreases t, 0
  {
    hide Span, LoadPointer;
    match t
    case Scalar(_, _, _) =>
    case Pointer(target) =>
      PointerKept(t, memory, a, now);
      SlotKept(target, memory, LoadPointer(memory, a), now, x);
    case Array(element, _, start, subsize) =>
      var b := a + Span(start, Buffersize(element));
      assert forall y: nat :: ElementSlotAt(element, subsize, memory, b, y) ==> SlotAt(t, memory, a, y);
      ElementSlotKept(element, subsize, memory, b, now, x);
    case Compound(_, fields, _) =>
      assert forall y: nat :: FieldSlotAt(fields, memory, a, y) ==> SlotAt(t, memory, a, y);
      FieldSlotKept(fields, memory, a, now, x);
  }

  lemma {:induction false} ElementSlotKept(t: Type, n: nat, memory: seq<Byte>, a: nat, now: seq<Byte>, x: nat)
    requires ElementsInMemory(t, n, memory, a) && ElementSlotsKept(t, n, memory, a, now)
    ensures ElementSlotAt(t, n, now, a, x) <==> ElementSlotAt(t, n, memory, a, x)
    decreases t, 1, n
  {
    hide InMemory, SlotAt, Buffersize;
    if n > 0 {
      SlotKept(t, memory, a, now, x);
      ElementSlotKept(t, n - 1, memory, a + Buffersize(t), now, x);
    }
  }

  lemma {:induction false} FieldSlotKept(fs: Fields, memory: seq<Byte>, a: nat, now: seq<Byte>, x: nat)
    requires FieldsInMemory(fs, memory, a) && FieldSlotsKept(fs, memory, a, now)
    ensures FieldSlotAt(fs, now, a, x) <==> FieldSlotAt(fs, memory, a, x)
    decreases fs, 1
  {
    hide InMemory, SlotAt;
    match fs
    case Nil =>
    case Cons(f, rest) =>
      SlotKept(f.typ, memory, a + f.offset, now, x);
      FieldSlotKept(rest, memory, a, now, x);
  }

  lemma {:induction false} SourceKept(t: Type, memory: seq<Byte>, a: nat, now: seq<Byte>, p: Path)
    requires Reaches(t, p) && InMemory(t, memory, a) && SlotsKept(t, memory, a, now)
    ensures Source(t, now, a, p) == Source(t, memory, a, p)
    decreases t, 0
  {
    hide Span, LoadPointer;
    match t
    case Scalar(_, _, _) =>
    case Pointer(target) =>
      PointerKept(t, memory, a, now);
      SourceKept(target, memory, LoadPointer(memory, a), now, p);
    case Array(element, _, start, subsize) =>
      var b := a + Span(start, Buffersize(element));
      assert forall x: nat :: ElementSlotAt(element, subsize, memory, b, x) ==> SlotAt(t, memory, a, x);
      ElementSourceKept(element, subsize, memory, b, now, p.i, p.rest);
    case Compound(_, fields, _) =>
      assert forall x: nat :: FieldSlotAt(fields, memory, a, x) ==> SlotAt(t, memory, a, x);
      FieldSourceKept(fields, memory, a, now, p.i, p.rest);
  }

  lemma {:induction false} ElementSourceKept(t: Type, n: nat, memory: seq<Byte>, a: nat, now: seq<Byte>, i: nat,
                                             p: Path)
    requires i < n && Reaches(t, p) && ElementsInMemory(t, n, memory, a) && ElementSlotsKept(t, n, memory, a, now)
    ensures ElementSource(t, now, a, i, p) == ElementSource(t, memory, a, i, p)
    decreases t, 1, n
  {
    hide Span, Reaches, Source, InMemory, SlotAt, Buffersize;
    SpanSucc(0, Buffersize(t));
    if i == 0 {
      SourceKept(t, memory, a, now, p);
    } else {
      SpanSucc(i - 1, Buffersize(t));
      ElementSourceKept(t, n - 1, memory, a + Buffersize(t), now, i - 1, p);
    }
  }

  lemma {:induction false} FieldSourceKept(fs: Fields, memory: seq<Byte>, a: nat, now: seq<Byte>, i: nat, p: Path)
    requires FieldReaches(fs, i, p) && FieldsInMemory(fs, memory, a) && FieldSlotsKept(fs, memory, a, now)
    ensures FieldSource(fs, now, a, i, p) == FieldSource(fs, memory, a, i, p)
    decreases fs, 1
  {
    hide Reaches, Source, InMemory, SlotAt;
    if i == 0 {
      SourceKept(fs.head.typ, memory, a + fs.head.offset, now, p);
    } else {
      FieldSourceKept(fs.tail, memory, a, now, i - 1, p);
    }
  }

  // ----- when the round trip restores every leaf -----

  /** Every leaf is read where it is written, and no two leaves share a place. */
  ghost predicate Lossless(t: Type) {
    && (forall p | Reaches(t, p) :: Position(Written, t, 0, p) == Position(Read, t, 0, p))
    && (forall p, q | Reaches(t, p) && Reaches(t, q) ::
          Position(Read, t, 0, p) == Position(Read, t, 0, q) ==> p == q)
  }

  /** A serialized buffer, and the memory before and after it was filled. */
  datatype Trip = Trip(memory: seq<Byte>, dst: seq<Byte>, base: nat, to: nat, changed: seq<Byte>)

  /** Every leaf is again what it was in the memory that was serialized, every other byte is what it had become. */
  ghost predicate Returned(t: Type, a: nat, w: Trip) {
    var ser := SerializeCopy(t, w.dst, w.base, w.to, w.memory, a);
    && ser.Counted?
    && ser.count == SerialData(t)
    && Scattered(DeserializeCopy(t, w.changed, a, ser.bytes, w.to), t, w.memory, a, w.changed, SerialData(t))
  }

  /** The leaves that are not overwritten are where `deserialize_copy` reads them. */
  lemma LosslessFetches(t: Type, a: nat, w: Trip)
    requires WellFormed(t) && Lossless(t) && InMemory(t, w.memory, a) && Suits(t, w.dst, w.base, w.to)
    ensures var ser := SerializeCopy(t, w.dst, w.base, w.to, w.memory, a);
      ser.Counted? && ser.count == SerialData(t) && |ser.bytes| == |w.dst| && Fetches(t, ser.bytes, w.to, w.memory, a)
  {
    hide WellFormed, InMemory, SerializeCopy, Reaches, Position, Source, Writer, SerialAlignment, SerialSize,
      SerialData, Aligned;
    var ser := SerializeCopy(t, w.dst, w.base, w.to, w.memory, a);
    var x := w.base + w.to;
    SerializeFills(t, w.dst, w.base, w.to, x, w.memory, a, 0);
    forall p | Reaches(t, p)
      ensures SameAt(ser.bytes, Position(Read, t, w.to, p), w.memory, Source(t, w.memory, a, p))
    {
      var y := Position(Read, t, w.to, p);
      PositionBound(Read, t, x, x, p);
      PositionShift(Read, t, w.base, w.to, p);
      SerializeFills(t, w.dst, w.base, w.to, x, w.memory, a, y);
      PositionShift(Written, t, x, 0, p);
      PositionShift(Read, t, x, 0, p);
      LeafHasWriter(t, x, p);
      var q := Writer(t, x, w.base + y).value;
      PositionShift(Written, t, x, 0, q);
      assert Position(Read, t, 0, q) == Position(Read, t, 0, p);
      SourceInside(t, w.memory, a, p);
    }
  }

  /** Serialize the value at `a` into any aligned buffer of the right size, let the memory change in any way that keeps
      the pointers of the value, and deserialize: every leaf of a value of a lossless type is what it was, every other
      byte is what the change made it. Pointers may share their targets. */
  lemma RoundTrip(t: Type, a: nat, w: Trip)
    requires WellFormed(t) && Lossless(t) && InMemory(t, w.memory, a) && Suits(t, w.dst, w.base, w.to)
    requires SlotsKept(t, w.memory, a, w.changed)
    ensures Returned(t, a, w)
  {
    hide WellFormed, Lossless, InMemory, SerializeCopy, DeserializeCopy, SlotsKept, Scattered, Fetches, Aligned;
    LosslessFetches(t, a, w);
    DeserializeCopyScatters(t, w.changed, a, SerializeCopy(t, w.dst, w.base, w.to, w.memory, a).bytes, w.to, w.memory);
  }
}
