/** Types on both sides of the layout conditions of the serialize plugin. */
module SerializeExamples {
  import opened Alignment
  import opened Datatypes
  import opened DensifyAlgebra
  import opened DenseCopy
  import opened DenseCopyExamples
  import opened Leaves
  import opened Serialize
  import opened SerializeLeaves
  import opened SerializeRoundTrip
  import opened SerializePlaced

  // ----- padded array elements -----

  lemma PaddedRecordSerialized(t: Type)
    requires t == PaddedRecord()
    ensures SerializeType(t) == t && Buffersize(t) == 8
  {
    hide Padding, Aligned, IsPow2, SerializeType, Densify, WellFormed, IsDense;
    PaddedRecordLayout(t);
    assert t.fields.tail.tail == Nil;
    SerializeIsDensifyIff(t);
    DensifyIdentityIff(t);
  }

  function Moved(dst: seq<Byte>, to: nat, src: seq<Byte>, from: nat): (r: seq<Byte>)
    requires to + 8 <= |dst| && from + 8 <= |src|
    ensures |r| == |dst|
  {
    dst[..to] + [src[from]] + dst[to + 1..to + 4] + src[from + 4..from + 8] + dst[to + 8..]
  }

  /** One record: its byte goes to offset 0, its word to offset 4, and 5 bytes are counted. */
  lemma PaddedRecordMoves(t: Type, dst: seq<Byte>, to: nat, src: seq<Byte>, from: nat)
    requires t == PaddedRecord() && to + 8 <= |dst| && from + 8 <= |src|
    ensures SerializeCopy(t, dst, 0, to, src, from) == Counted(Moved(dst, to, src, from), 5)
    ensures DeserializeCopy(t, dst, to, src, from) == Counted(Moved(dst, to, src, from), 5)
  {
    hide Padding, Aligned, IsPow2, SerializeType;
    PaddedRecordSerialized(t);
    var fields := t.fields;
    var last := fields.tail;
    var d := Memcpy(dst, to, src, from, 1).bytes;
    var d' := Memcpy(d, to + 4, src, from + 4, 4).bytes;
    assert d' == Moved(dst, to, src, from);
    assert SerializeFields(last, last, d, 0, to, src, from) == Counted(d', 4);
    assert DeserializeFields(last, last, d, to, src, from) == Counted(d', 4);
  }

  lemma TwoSerialized(t: Type, n: nat, memory: seq<Byte>, dst: seq<Byte>)
    requires t == PaddedRecord() && n == 2 && |memory| == |dst| == 16
    ensures SerializeElements(t, n, dst, 0, 0, memory, 0)
         == Counted(Moved(Moved(dst, 0, memory, 0), 5, memory, 8), 10)
  {
    hide PaddedRecord, SerializeCopy, Buffersize, Moved;
    PaddedRecordSerialized(t);
    PaddedRecordMoves(t, dst, 0, memory, 0);
    var d := Moved(dst, 0, memory, 0);
    PaddedRecordMoves(t, d, 5, memory, 8);
    var d' := Moved(d, 5, memory, 8);
    assert SerializeElements(t, n - 2, d', 0, 10, memory, 16) == Counted(d', 0);
    assert SerializeElements(t, n - 1, d, 0, 5, memory, 8) == Counted(d', 5);
  }

  lemma TwoDeserialized(t: Type, n: nat, serial: seq<Byte>, changed: seq<Byte>)
    requires t == PaddedRecord() && n == 2 && |serial| == |changed| == 16
    ensures DeserializeElements(t, n, changed, 0, serial, 0)
         == Counted(Moved(Moved(changed, 0, serial, 0), 8, serial, 5), 10)
  {
    hide PaddedRecord, DeserializeCopy, Buffersize, Moved;
    PaddedRecordSerialized(t);
    PaddedRecordMoves(t, changed, 0, serial, 0);
    var m := Moved(changed, 0, serial, 0);
    PaddedRecordMoves(t, m, 8, serial, 5);
    var m' := Moved(m, 8, serial, 5);
    assert DeserializeElements(t, n - 2, m', 16, serial, 10) == Counted(m', 0);
    assert DeserializeElements(t, n - 1, m, 8, serial, 5) == Counted(m', 5);
  }

  /** Where the bytes of a moved record go. */
  lemma MovedAt(dst: seq<Byte>, to: nat, src: seq<Byte>, from: nat, i: nat)
    requires to + 8 <= |dst| && from + 8 <= |src| && i < |dst|
    ensures Moved(dst, to, src, from)[i] ==
      if i == to then src[from] else if to + 4 <= i < to + 8 then src[from + (i - to)] else dst[i]
  {
  }

  /** The elements of an array are written as far apart as they have data, not as they are large.
      With two elements made of a byte and an aligned word, the byte of the second overwrites one of
      the word of the first: what comes back in place of byte 5 is byte 8. */
  lemma PaddedElementsOverlap(t: Type, n: nat, memory: seq<Byte>, dst: seq<Byte>, changed: seq<Byte>)
    returns (ser: Counted, back: Counted)
    requires t == PaddedRecord() && n == 2 && |memory| == |changed| == |dst| == 16
    ensures WellFormed(t)
    ensures ser == SerializeElements(t, n, dst, 0, 0, memory, 0) && ser.Counted?
    ensures back == DeserializeElements(t, n, changed, 0, ser.bytes, 0) && back.Counted?
    ensures |back.bytes| == 16 && back.bytes[5] == memory[8]
  {
    hide PaddedRecord, SerializeElements, DeserializeElements, WellFormed, Moved, IsDense, Buffersize, Datasize,
      PackEnd, FieldsDense;
    PaddedRecordLayout(t);
    TwoSerialized(t, n, memory, dst);
    var d := Moved(dst, 0, memory, 0);
    ser := Counted(Moved(d, 5, memory, 8), 10);
    TwoDeserialized(t, n, ser.bytes, changed);
    var m := Moved(changed, 0, ser.bytes, 0);
    back := Counted(Moved(m, 8, ser.bytes, 5), 10);
    MovedAt(m, 8, ser.bytes, 5, 5);
    MovedAt(changed, 0, ser.bytes, 0, 5);
    MovedAt(d, 5, memory, 8, 5);
  }

  // ----- the word first -----

  /** An aligned word and a byte: 5 bytes of data over 8. */
  function WordFirst(): Type {
    Compound(Record, Cons(Field(0, WORD, "w"), Cons(Field(4, BYTE, "b"), Nil)), 8)
  }

  /** A record of two members that the greedy layout leaves alone. */
  lemma PairSerialized(t: Type, f: Field, g: Field)
    requires t.Compound? && t.fields == Cons(f, Cons(g, Nil))
    requires SerializeType(f.typ) == f.typ && SerializeType(g.typ) == g.typ
    requires f.offset == 0 && g.offset == AlignUp(Buffersize(f.typ), AlignmentOf(g.typ))
    requires t.extent == AlignUp(g.offset + Buffersize(g.typ), AlignmentOf(t))
    ensures SerializeType(t) == t && Datasize(t) == Datasize(f.typ) + Datasize(g.typ)
  {
    hide AlignUp, Buffersize;
    AlignUpZero(AlignmentOf(f.typ));
    var fs, last := t.fields, Cons(g, Nil);
    assert SerializeEach(Nil) == Nil;
    assert SerializeEach(last) == last && SerializeEach(fs) == fs;
    assert PackEnd(last, Buffersize(f.typ)) == PackEnd(Nil, g.offset + Buffersize(g.typ));
    assert Pack(last, Buffersize(f.typ)) == last && Pack(fs, 0) == fs;
    assert PackEnd(fs, 0) == PackEnd(last, Buffersize(f.typ));
    assert FieldsDatasize(last) == Datasize(g.typ) + FieldsDatasize(Nil);
  }

  lemma WordFirstIs(t: Type)
    requires t == WordFirst()
    ensures SerializeType(t) == t && AlignmentOf(t) == 4 && Buffersize(t) == 8 && Datasize(t) == 5
  {
    hide AlignUp, Aligned, IsPow2, SerializeType;
    ByOne(4);
    UpToTwelve();
    assert FieldsAlignment(t.fields.tail) == 1;
    ScalarSerialized(WORD);
    ScalarSerialized(BYTE);
    PairSerialized(t, t.fields.head, t.fields.tail.head);
  }

  lemma ScalarSerialized(t: Type)
    requires t.Scalar?
    ensures SerializeType(t) == t
  {
  }

  lemma WordFirstFits(t: Type)
    requires t == WordFirst()
    ensures WellFormed(t) && ElementsPaddingFree(t)
  {
    hide AlignUp, Aligned, IsPow2;
    Fours();
    ByOne(1);
    ByOne(4);
    var last := t.fields.tail;
    assert last.tail == Nil && FieldsAlignment(last) == 1 && FieldsFit(last, 4, 8) && FieldsWellFormed(last);
    assert FieldElementsPaddingFree(last);
  }

  lemma WordFirstPosition(how: Place, t: Type, x: nat, p: Path)
    requires t == WordFirst() && Reaches(t, p)
    ensures p.Into? && p.rest.Here? && p.i < 2 && (p.i == 0 ==> p.rest.k < 4) && (p.i == 1 ==> p.rest.k == 0)
    ensures Position(how, t, x, p) == x + (if p.i == 0 then p.rest.k else 4)
  {
    hide AlignUp, IsPow2;
    AlignUpZero(FOUR);
    ByOne(4);
    var last := t.fields.tail;
    assert last.tail == Nil;
    assert p.i > 0 ==> FieldReaches(last, p.i - 1, p.rest);
  }

  /** Such elements are 5 bytes apart, not 8: nothing is lost, but nothing after the first is where the serialized type
      has it. */
  lemma WordFirstReturns(e: Type, n: nat)
    requires e == WordFirst() && n >= 2
    ensures var t := Array(e, n, 0, n);
      WellFormed(t) && Lossless(t) && !InLayout(t)
  {
    hide WordFirst, AlignUp, Span, WellFormed, ElementsPaddingFree, InLayout, Reaches, Position;
    var t := Array(e, n, 0, n);
    WordFirstIs(e);
    WordFirstFits(e);
    assert WellFormed(t) by { ArrayFits(e, n); }
    ArrayInLayoutIff(t);
    forall p | Reaches(t, p)
      ensures Position(Written, t, 0, p) == Position(Read, t, 0, p)
    {
      WordFirstPlace(Written, e, n, p);
      WordFirstPlace(Read, e, n, p);
    }
    forall p, q | Reaches(t, p) && Reaches(t, q) && Position(Read, t, 0, p) == Position(Read, t, 0, q)
      ensures p == q
    {
      WordFirstPlace(Read, e, n, p);
      WordFirstPlace(Read, e, n, q);
      SameIndex(p.i, q.i, 5, WordFirstByte(p), WordFirstByte(q));
    }
  }

  lemma ArrayFits(e: Type, n: nat)
    requires WellFormed(e)
    ensures WellFormed(Array(e, n, 0, n))
  {
  }

  function WordFirstByte(p: Path): nat {
    if p.Into? && p.rest.Into? && p.rest.rest.Here? && p.rest.i == 0 then p.rest.rest.k else 4
  }

  lemma WordFirstPlace(how: Place, e: Type, n: nat, p: Path)
    requires e == WordFirst() && how != Laid && Reaches(Array(e, n, 0, n), p)
    ensures p.Into? && p.rest.Into? && p.rest.rest.Here? && WordFirstByte(p) < 5
    ensures (p.rest.i == 0 && p.rest.rest.k < 4) || (p.rest.i == 1 && p.rest.rest.k == 0)
    ensures Position(how, Array(e, n, 0, n), 0, p) == Span(p.i, 5) + WordFirstByte(p)
  {
    hide WordFirst, AlignUp, Span, SerializeType;
    WordFirstIs(e);
    AlignUpZero(FOUR);
    WordFirstPosition(how, e, Span(p.i, 5), p.rest);
  }

  // ----- a nested array -----

  /** A byte and an array of one aligned word. */
  function NestedRecord(): Type {
    Compound(Record, Cons(Field(0, BYTE, "b"), Cons(Field(4, Array(WORD, 1, 0, 1), "w"), Nil)), 8)
  }

  lemma NestedRecordIs(t: Type)
    requires t == NestedRecord()
    ensures SerializeType(t) == t && AlignmentOf(t) == 4 && Datasize(t) == 5
  {
    hide AlignUp, Aligned, IsPow2, SerializeType, Span;
    OneUp();
    UpToTwelve();
    SpanSucc(0, 4);
    var words := t.fields.tail.head.typ;
    assert FieldsAlignment(t.fields.tail) == 4;
    ScalarSerialized(BYTE);
    WordsSerialized(words);
    PairSerialized(t, t.fields.head, t.fields.tail.head);
  }

  lemma NestedRecordFits(t: Type)
    requires t == NestedRecord()
    ensures WellFormed(t)
  {
    hide AlignUp, Aligned, IsPow2, Span;
    Fours();
    ByOne(0);
    ByOne(1);
    SpanSucc(0, 4);
    var last := t.fields.tail;
    assert last.tail == Nil && FieldsAlignment(last) == 4 && FieldsFit(last, 1, 8) && FieldsWellFormed(last);
  }

  lemma WordsSerialized(t: Type)
    requires t == Array(WORD, 1, 0, 1)
    ensures SerializeType(t) == t
  {
  }

  lemma NestedSizes(words: Type)
    requires words == Array(WORD, 1, 0, 1)
    ensures SerialAlignment(BYTE) == ONE && SerialSize(BYTE) == 1
    ensures SerialAlignment(WORD) == FOUR && SerialAlignment(words) == FOUR
  {
    hide IsPow2, Span;
  }

  /** Where the word of an array of one goes. */
  lemma OneWordPlace(how: Place, words: Type, x: nat, p: Path)
    requires words == Array(WORD, 1, 0, 1) && p == Into(0, Here(0))
    ensures Reaches(words, p) && Position(how, words, x, p) == Head(how, WORD, x)
  {
    hide IsPow2, Span, Head, Stride;
    SpanSucc(0, Stride(how, WORD));
    assert Reaches(WORD, Here(0));
  }

  /** Where the word of a record that starts at 5 goes. */
  lemma NestedWordPlace(how: Place, e: Type, p: Path)
    requires e == NestedRecord() && p == Into(0, Here(0)) && how != Laid
    ensures FieldReaches(e.fields, 1, p)
    ensures FieldPosition(how, e.fields, 0, 5, 1, p) == if how == Written then 12 else 9
  {
    hide AlignUp, IsPow2, Span, SerialAlignment, SerialSize, Position, Reaches;
    var last := e.fields.tail;
    var words := last.head.typ;
    NestedSizes(words);
    AlignUpZero(ONE);
    OneUp();
    UpToTwelve();
    OneWordPlace(how, words, 9, p);
    assert FieldReaches(last, 0, p);
    assert FieldPosition(how, e.fields, 0, 5, 1, p) == FieldPosition(how, last, 1, 5, 0, p);
  }

  /** The word of the second record is written at its next aligned address, 12, and read at 9. */
  lemma NestedWordMoves(e: Type, n: nat)
    requires e == NestedRecord() && n >= 2
    ensures var t := Array(e, n, 0, n);
      WellFormed(t) && !Lossless(t)
  {
    hide AlignUp, IsPow2, Lossless, FieldPosition, FieldReaches, Span, SerializeType, WellFormed;
    var t := Array(e, n, 0, n);
    var p := Into(0, Here(0));
    NestedRecordFits(e);
    ArrayFits(e, n);
    NestedRecordIs(e);
    NestedWordPlace(Written, e, p);
    NestedWordPlace(Read, e, p);
    AlignUpZero(FOUR);
    SpanSucc(0, 5);
    NotLossless(t, Into(1, Into(1, p)));
  }

  lemma NotLossless(t: Type, p: Path)
    requires Reaches(t, p) && Position(Written, t, 0, p) != Position(Read, t, 0, p)
    ensures !Lossless(t)
  {
  }
}
