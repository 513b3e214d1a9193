/** Exactly which types have every leaf restored by the round trip: no more are than the layout condition says. */
module SerializeExact {
  import opened Alignment
  import opened Datatypes
  import opened DensifyAlgebra
  import opened DenseCopy
  import opened Leaves
  import opened Serialize
  import opened SerializeLeaves
  import opened SerializeWrites
  import opened SerializeRoundTrip

  // ----- plain values -----

  /** The leaves of the value have addresses of their own, which are not those of its pointers. */
  ghost predicate Plain(t: Type, memory: seq<Byte>, a: nat) {
    && (forall p, q | Reaches(t, p) && Reaches(t, q) :: Source(t, memory, a, p) == Source(t, memory, a, q) ==> p == q)
    && (forall p | Reaches(t, p) :: !SlotAt(t, memory, a, Source(t, memory, a, p)))
  }

  lemma PlainKept(t: Type, memory: seq<Byte>, a: nat, now: seq<Byte>)
    requires InMemory(t, memory, a) && SlotsKept(t, memory, a, now) && Plain(t, memory, a)
    ensures Plain(t, now, a)
  {
    hide Reaches, Source, SlotAt, InMemory, SlotsKept;
    forall p | Reaches(t, p)
      ensures Source(t, now, a, p) == Source(t, memory, a, p)
    {
      SourceKept(t, memory, a, now, p);
    }
    forall p | Reaches(t, p)
      ensures !SlotAt(t, now, a, Source(t, now, a, p))
    {
      SlotKept(t, memory, a, now, Source(t, memory, a, p));
    }
  }

  lemma SlotsKeptBoth(t: Type, memory: seq<Byte>, a: nat, m: seq<Byte>, m': seq<Byte>)
    requires InMemory(t, memory, a) && SlotsKept(t, memory, a, m) && SlotsKept(t, memory, a, m')
    ensures SlotsKept(t, m, a, m')
  {
    hide SlotAt, InMemory;
    forall x | 0 <= x < |m'| && SlotAt(t, m, a, x)
      ensures m'[x] == m[x]
    {
      SlotKept(t, memory, a, m, x);
    }
  }

  // ----- what deserialize_copy brings back -----

  ghost predicate Comes(t: Type, memory: seq<Byte>, a: nat, x: nat, p: Path) {
    Reaches(t, p) && Source(t, memory, a, p) == x
  }

  /** The memory with each leaf replaced by what `deserialize_copy` finds for it. */
  ghost function Refilled(t: Type, memory: seq<Byte>, a: nat, ser: seq<Byte>, s: nat): (m: seq<Byte>)
    ensures |m| == |memory|
  {
    seq(|memory|, x requires 0 <= x < |memory| =>
      if exists p :: Comes(t, memory, a, x, p) then
        var p :| Comes(t, memory, a, x, p);
        ByteAt(ser, Position(Read, t, s, p))
      else
        memory[x])
  }

  lemma ReadInside(t: Type, s: nat, p: Path)
    requires WellFormed(t) && Reaches(t, p)
    ensures Position(Read, t, s, p) == s + Position(Read, t, 0, p) < s + SerialSize(t)
  {
    hide WellFormed, Reaches, Position, SerialAlignment, SerialSize;
    PositionShift(Read, t, s, 0, p);
    AlignUpZero(SerialAlignment(t));
    PositionBound(Read, t, 0, 0, p);
  }

  lemma RefilledAt(t: Type, memory: seq<Byte>, a: nat, ser: seq<Byte>, s: nat, p: Path)
    requires WellFormed(t) && InMemory(t, memory, a) && Plain(t, memory, a) && s + SerialSize(t) <= |ser|
    requires Reaches(t, p)
    ensures SameAt(ser, Position(Read, t, s, p), Refilled(t, memory, a, ser, s), Source(t, memory, a, p))
  {
    hide WellFormed, InMemory, Reaches, Source, Position, SlotAt, SerialSize;
    ReadInside(t, s, p);
    SourceInside(t, memory, a, p);
    assert Comes(t, memory, a, Source(t, memory, a, p), p);
  }

  lemma RefilledKeeps(t: Type, memory: seq<Byte>, a: nat, ser: seq<Byte>, s: nat)
    requires Plain(t, memory, a)
    ensures SlotsKept(t, memory, a, Refilled(t, memory, a, ser, s))
  {
    hide Reaches, Source, Position, SlotAt;
  }

  /** Every leaf of a plain value comes back as the byte at its reading place. */
  lemma Reread(t: Type, memory: seq<Byte>, a: nat, ser: seq<Byte>, s: nat, now: seq<Byte>, p: Path)
    requires WellFormed(t) && InMemory(t, memory, a) && Plain(t, memory, a) && s + SerialSize(t) <= |ser|
    requires Reaches(t, p)
    requires SlotsKept(t, memory, a, now)
    ensures var r := DeserializeCopy(t, now, a, ser, s);
      r.Counted? && SameAt(r.bytes, Source(t, memory, a, p), ser, Position(Read, t, s, p))
  {
    hide WellFormed, InMemory, Reaches, Source, Position, SlotAt, SerialSize, Plain, SlotsKept, Refilled,
      DeserializeCopy, LeafAt;
    var want := Refilled(t, memory, a, ser, s);
    RefilledKeeps(t, memory, a, ser, s);
    ShapeKept(t, memory, a, want);
    forall q | Reaches(t, q)
      ensures SameAt(ser, Position(Read, t, s, q), want, Source(t, want, a, q))
    {
      SourceKept(t, memory, a, want, q);
      RefilledAt(t, memory, a, ser, s, q);
    }
    SlotsKeptBoth(t, memory, a, want, now);
    DeserializeCopyScatters(t, now, a, ser, s, want);
    SourceKept(t, memory, a, want, p);
    RefilledAt(t, memory, a, ser, s, p);
    SourceInside(t, want, a, p);
  }

  // ----- one byte set -----

  /** The pointers of the value, a one in one leaf and zeros elsewhere. */
  ghost function Marked(t: Type, memory: seq<Byte>, a: nat, p: Path): (m: seq<Byte>)
    requires Reaches(t, p)
    ensures |m| == |memory|
  {
    var x := Source(t, memory, a, p);
    seq(|memory|, i requires 0 <= i < |memory| =>
      if SlotAt(t, memory, a, i) then memory[i] else if i == x then 1 else 0)
  }

  lemma MarkedAt(t: Type, memory: seq<Byte>, a: nat, p: Path, q: Path)
    requires InMemory(t, memory, a) && Plain(t, memory, a) && Reaches(t, p) && Reaches(t, q)
    ensures var m := Marked(t, memory, a, p);
      && SlotsKept(t, memory, a, m) && Source(t, m, a, q) == Source(t, memory, a, q) < |m|
      && m[Source(t, m, a, q)] == if q == p then 1 else 0
  {
    hide InMemory, Reaches, Source, SlotAt;
    var m := Marked(t, memory, a, p);
    SourceKept(t, memory, a, m, q);
    SourceInside(t, memory, a, q);
  }

  /** The trip of a marked value through a blank buffer. */
  ghost function MarkedTrip(t: Type, memory: seq<Byte>, a: nat, p: Path): Trip
    requires Reaches(t, p)
  {
    Trip(Marked(t, memory, a, p), seq(SerialSize(t), _ => 0), 0, 0, memory)
  }

  /** In the serialized buffer the mark can only be where it was written. */
  lemma MarkLands(t: Type, memory: seq<Byte>, a: nat, p: Path, y: nat)
    requires WellFormed(t) && InMemory(t, memory, a) && Plain(t, memory, a) && Reaches(t, p) && y < SerialSize(t)
    ensures var w := MarkedTrip(t, memory, a, p);
      var ser := SerializeCopy(t, w.dst, 0, 0, w.memory, a);
      && Suits(t, w.dst, 0, 0) && SlotsKept(t, memory, a, w.memory)
      && ser.Counted? && |ser.bytes| == SerialSize(t)
      && (y != Position(Written, t, 0, p) ==> ser.bytes[y] == 0)
  {
    hide WellFormed, InMemory, Reaches, Source, Position, SlotAt, SerialSize, SerialAlignment, Plain, SlotsKept,
      Marked, Writer, SerializeCopy, Aligned;
    var w := MarkedTrip(t, memory, a, p);
    AlignUpZero(SerialAlignment(t));
    MarkedAt(t, memory, a, p, p);
    ShapeKept(t, memory, a, w.memory);
    SerializeFills(t, w.dst, 0, 0, 0, w.memory, a, y);
    var q := Writer(t, 0, y);
    if q.Some? { MarkedAt(t, memory, a, p, q.value); }
  }

  // ----- the exact condition -----

  /** The round trip restores every leaf of the value at `a`, whatever the leaves hold, as long as the pointers are
      those of `memory`. */
  ghost predicate Returns(t: Type, memory: seq<Byte>, a: nat) {
    forall w: Trip ::
      SlotsKept(t, memory, a, w.memory) && SlotsKept(t, memory, a, w.changed) && Suits(t, w.dst, w.base, w.to)
      ==> Returned(t, a, w)
  }

  /** What comes back to a leaf of the marked value is what it held. */
  lemma MarkReturns(t: Type, memory: seq<Byte>, a: nat, p: Path, q: Path)
    requires WellFormed(t) && InMemory(t, memory, a) && Plain(t, memory, a) && Returns(t, memory, a)
    requires Reaches(t, p) && Reaches(t, q)
    ensures Position(Read, t, 0, q) < SerialSize(t)
    ensures var w := MarkedTrip(t, memory, a, p);
      var ser := SerializeCopy(t, w.dst, 0, 0, w.memory, a);
      && ser.Counted? && |ser.bytes| == SerialSize(t)
      && ser.bytes[Position(Read, t, 0, q)] == if q == p then 1 else 0
  {
    hide WellFormed, InMemory, Reaches, Source, Position, SlotAt, SerialSize, SerialAlignment, Plain, Marked,
      SerializeCopy, DeserializeCopy, Aligned, SerialData, LeafAt;
    var w := MarkedTrip(t, memory, a, p);
    ReadInside(t, 0, q);
    MarkLands(t, memory, a, p, Position(Read, t, 0, q));
    MarkedAt(t, memory, a, p, q);
    assert SlotsKept(t, memory, a, w.changed);
    assert Returned(t, a, w);
    var ser := SerializeCopy(t, w.dst, 0, 0, w.memory, a).bytes;
    Reread(t, memory, a, ser, 0, memory, q);
    ShapeKept(t, memory, a, w.memory);
    SourceInside(t, w.memory, a, q);
  }

  /** For a plain value, behind any nest of pointers: whatever its leaves hold and whatever becomes of them, the round
      trip restores every one exactly when its type is lossless. */
  lemma RoundTripIff(t: Type, memory: seq<Byte>, a: nat)
    requires WellFormed(t) && InMemory(t, memory, a) && Plain(t, memory, a)
    ensures Returns(t, memory, a) <==> Lossless(t)
  {
    hide WellFormed, InMemory, Reaches, Source, Position, SlotAt, SerialSize, Plain, SlotsKept, Marked, Returned, Suits;
    if Lossless(t) {
      forall w: Trip | SlotsKept(t, memory, a, w.memory) && SlotsKept(t, memory, a, w.changed) && Suits(t, w.dst,
                                                                                                        w.base, w.to)
        ensures Returned(t, a, w)
      {
        ShapeKept(t, memory, a, w.memory);
        SlotsKeptBoth(t, memory, a, w.memory, w.changed);
        RoundTrip(t, a, w);
      }
    }
    if Returns(t, memory, a) {
      forall p | Reaches(t, p)
        ensures Position(Written, t, 0, p) == Position(Read, t, 0, p)
      {
        MarkReturns(t, memory, a, p, p);
        MarkLands(t, memory, a, p, Position(Read, t, 0, p));
      }
      forall p, q | Reaches(t, p) && Reaches(t, q) && Position(Read, t, 0, p) == Position(Read, t, 0, q)
        ensures p == q
      {
        MarkReturns(t, memory, a, p, p);
        MarkReturns(t, memory, a, p, q);
      }
    }
  }

  // ----- without pointers -----

  /** Without pointers the leaves are those of the type, at its offsets. */
  lemma {:induction false} PointerFreeSource(t: Type, memory: seq<Byte>, a: nat, p: Path)
    requires PointerFree(t) && Reaches(t, p)
    ensures IsLeaf(t, p) && Source(t, memory, a, p) == a + OffsetOf(t, p)
    decreases t, 0
  {
    hide Span;
    match t
    case Scalar(_, _, _) =>
    case Array(element, _, start, _) =>
      SpanAdd(start, p.i, Buffersize(element));
      PointerFreeSource(element, memory, a + Span(start, Buffersize(element)) + Span(p.i, Buffersize(element)), p.rest);
    case Compound(_, fields, _) => PointerFreeFieldSource(fields, memory, a, p.i, p.rest);
  }

  lemma {:induction false} PointerFreeFieldSource(fs: Fields, memory: seq<Byte>, a: nat, i: nat, p: Path)
    requires FieldsPointerFree(fs) && FieldReaches(fs, i, p)
    ensures IsFieldLeaf(fs, i, p) && FieldSource(fs, memory, a, i, p) == a + FieldOffsetOf(fs, i, p)
    decreases fs, 1
  {
    hide PointerFree, Reaches, Source, IsLeaf, OffsetOf;
    if i == 0 {
      PointerFreeSource(fs.head.typ, memory, a + fs.head.offset, p);
    } else {
      PointerFreeFieldSource(fs.tail, memory, a, i - 1, p);
    }
  }

  lemma {:induction false} PointerFreeSlots(t: Type, memory: seq<Byte>, a: nat, x: nat)
    requires PointerFree(t)
    ensures !SlotAt(t, memory, a, x)
    decreases t, 0
  {
    hide Span;
    match t
    case Scalar(_, _, _) =>
    case Array(element, _, start, subsize) =>
      PointerFreeElementSlots(element, subsize, memory, a + Span(start, Buffersize(element)), x);
    case Compound(_, fields, _) => PointerFreeFieldSlots(fields, memory, a, x);
  }

  lemma {:induction false} PointerFreeElementSlots(t: Type, n: nat, memory: seq<Byte>, a: nat, x: nat)
    requires PointerFree(t)
    ensures !ElementSlotAt(t, n, memory, a, x)
    decreases t, 1, n
  {
    hide PointerFree, SlotAt, Buffersize;
    if n > 0 {
      PointerFreeSlots(t, memory, a, x);
      PointerFreeElementSlots(t, n - 1, memory, a + Buffersize(t), x);
    }
  }

  lemma {:induction false} PointerFreeFieldSlots(fs: Fields, memory: seq<Byte>, a: nat, x: nat)
    requires FieldsPointerFree(fs)
    ensures !FieldSlotAt(fs, memory, a, x)
    decreases fs, 1
  {
    hide PointerFree, SlotAt;
    match fs
    case Nil =>
    case Cons(f, rest) =>
      PointerFreeSlots(f.typ, memory, a + f.offset, x);
      PointerFreeFieldSlots(rest, memory, a, x);
  }

  /** Every value without pointers is plain. */
  lemma PointerFreeIsPlain(t: Type, memory: seq<Byte>, a: nat)
    requires WellFormed(t) && PointerFree(t)
    ensures Plain(t, memory, a)
  {
    hide WellFormed, PointerFree, Reaches, Source, SlotAt, IsLeaf, OffsetOf;
    forall p, q | Reaches(t, p) && Reaches(t, q) && Source(t, memory, a, p) == Source(t, memory, a, q)
      ensures p == q
    {
      PointerFreeSource(t, memory, a, p);
      PointerFreeSource(t, memory, a, q);
      OffsetsDiffer(t, p, q);
    }
    forall p | Reaches(t, p)
      ensures !SlotAt(t, memory, a, Source(t, memory, a, p))
    {
      PointerFreeSlots(t, memory, a, Source(t, memory, a, p));
    }
  }
}
