/** The condition under which nothing is lost on the way to a serialized buffer and back, to be checked member by
    member and without looking at pairs of leaves. */
module SerializeLossless {
  import opened Alignment
  import opened Datatypes
  import opened Leaves
  import opened SerializeLeaves
  import opened SerializeRoundTrip

  // ----- read where it was written -----

  /** Written from `x`, no array with data is moved to be aligned: not the first element of one around it, and not the
      second, after which no other is. */
  predicate Unmoved(t: Type, x: nat)
    decreases t, 0
  {
    match t
    case Scalar(_, _, _) => true
    case Array(element, _, _, subsize) =>
      || subsize == 0 || SerialData(element) == 0
      || (&& Aligned(x, SerialAlignment(element)) && Unmoved(element, x)
          && (subsize > 1 ==> Unmoved(element, x + SerialData(element))))
    case Compound(_, fields, _) => FieldsUnmoved(fields, 0, x)
    case Pointer(target) => Unmoved(target, x)
  }

  predicate FieldsUnmoved(fs: Fields, at: nat, x: nat)
    decreases fs, 1
  {
    match fs
    case Nil => true
    case Cons(f, rest) =>
      var offset := AlignUp(at, SerialAlignment(f.typ));
      Unmoved(f.typ, x + offset) && FieldsUnmoved(rest, offset + SerialSize(f.typ), x)
  }

  /** A distance that does not move it from one place does not move it from another. */
  lemma {:induction false} UnmovedStep(t: Type, x: nat, y: nat, d: nat)
    requires Unmoved(t, x) && Unmoved(t, x + d) && Unmoved(t, y)
    ensures Unmoved(t, y + d)
    decreases t, 0
  {
    hide Aligned, Padding;
    match t
    case Scalar(_, _, _) =>
    case Pointer(target) => UnmovedStep(target, x, y, d);
    case Array(element, _, _, subsize) =>
      if subsize > 0 && SerialData(element) > 0 {
        AlignedAdd(x, d, SerialAlignment(element));
        AlignedAdd(y, d, SerialAlignment(element));
        UnmovedStep(element, x, y, d);
        if subsize > 1 {
          var e := SerialData(element);
          assert x + d + e == x + e + d && y + d + e == y + e + d;
          UnmovedStep(element, x + e, y + e, d);
        }
      }
    case Compound(_, fields, _) => FieldsUnmovedStep(fields, 0, x, y, d);
  }

  lemma {:induction false} FieldsUnmovedStep(fs: Fields, at: nat, x: nat, y: nat, d: nat)
    requires FieldsUnmoved(fs, at, x) && FieldsUnmoved(fs, at, x + d) && FieldsUnmoved(fs, at, y)
    ensures FieldsUnmoved(fs, at, y + d)
    decreases fs, 1
  {
    hide Padding, Unmoved, SerializeType, AlignmentOf, Buffersize;
    match fs
    case Nil =>
    case Cons(f, rest) =>
      var offset := AlignUp(at, SerialAlignment(f.typ));
      assert x + d + offset == x + offset + d && y + d + offset == y + offset + d;
      UnmovedStep(f.typ, x + offset, y + offset, d);
      FieldsUnmovedStep(rest, offset + SerialSize(f.typ), x, y, d);
  }

  /** The second element stands for all that follow. */
  lemma {:induction false} EachUnmoved(t: Type, x: nat, d: nat, i: nat)
    requires Unmoved(t, x) && (i > 0 ==> Unmoved(t, x + d))
    ensures Unmoved(t, x + Span(i, d))
    decreases i
  {
    hide Unmoved, Span;
    SpanSucc(0, d);
    if i > 0 {
      SpanSucc(i - 1, d);
      EachUnmoved(t, x, d, i - 1);
      UnmovedStep(t, x, x + Span(i - 1, d), d);
      assert x + Span(i, d) == x + Span(i - 1, d) + d;
    }
  }

  /** Something with a leaf has data. */
  lemma {:induction false} LeafHasData(t: Type, p: Path)
    requires Reaches(t, p)
    ensures SerialData(t) > 0
    decreases t, 0
  {
    SerialLeaf(t, 0, p);
    LeafCounted(SerializeType(t), p);
  }

  lemma {:induction false} LeafCounted(t: Type, p: Path)
    requires IsLeaf(t, p)
    ensures Datasize(t) > 0
    decreases t, 0
  {
    hide Span;
    match t
    case Scalar(_, _, _) =>
    case Pointer(_) =>
    case Array(element, _, _, subsize) =>
      LeafCounted(element, p.rest);
      SpanSucc(0, Datasize(element));
      SpanMonotone(1, subsize, Datasize(element), Datasize(element));
    case Compound(_, fields, _) => FieldLeafCounted(fields, p.i, p.rest);
  }

  lemma {:induction false} FieldLeafCounted(fs: Fields, i: nat, p: Path)
    requires IsFieldLeaf(fs, i, p)
    ensures FieldsDatasize(fs) > 0
    decreases fs, 1
  {
    if i == 0 { LeafCounted(fs.head.typ, p); } else { FieldLeafCounted(fs.tail, i - 1, p); }
  }

  lemma {:induction false} UnmovedLeaf(t: Type, x: nat, p: Path)
    requires Unmoved(t, x) && Reaches(t, p)
    ensures Position(Written, t, x, p) == Position(Read, t, x, p)
    decreases t, 0
  {
    hide Span, Padding, Aligned;
    match t
    case Scalar(_, _, _) =>
    case Pointer(target) => UnmovedLeaf(target, x, p);
    case Array(element, _, _, subsize) =>
      LeafHasData(element, p.rest);
      AlignUpIdle(x, SerialAlignment(element));
      EachUnmoved(element, x, SerialData(element), p.i);
      UnmovedLeaf(element, x + Span(p.i, SerialData(element)), p.rest);
    case Compound(_, fields, _) => UnmovedFieldLeaf(fields, 0, x, p.i, p.rest);
  }

  lemma {:induction false} UnmovedFieldLeaf(fs: Fields, at: nat, x: nat, i: nat, p: Path)
    requires FieldsUnmoved(fs, at, x) && FieldReaches(fs, i, p)
    ensures FieldPosition(Written, fs, at, x, i, p) == FieldPosition(Read, fs, at, x, i, p)
    decreases fs, 1
  {
    hide Padding, Unmoved, Reaches, Position, SerializeType, AlignmentOf, Buffersize;
    var f, rest := fs.head, fs.tail;
    var offset := AlignUp(at, SerialAlignment(f.typ));
    if i == 0 {
      UnmovedLeaf(f.typ, x + offset, p);
    } else {
      UnmovedFieldLeaf(rest, offset + SerialSize(f.typ), x, i - 1, p);
    }
  }

  /** Nothing is written before where it would be read. */
  lemma {:induction false} WrittenAfterRead(t: Type, x: nat, p: Path)
    requires Reaches(t, p)
    ensures Position(Read, t, x, p) <= Position(Written, t, x, p)
    decreases t, 0
  {
    hide Span, Padding, Aligned;
    match t
    case Scalar(_, _, _) =>
    case Pointer(target) => WrittenAfterRead(target, x, p);
    case Array(element, _, _, _) =>
      var h, behind := AlignUp(x, SerialAlignment(element)), Span(p.i, SerialData(element));
      AlignUpBounds(x, SerialAlignment(element));
      WrittenAfterRead(element, h + behind, p.rest);
      PositionShift(Read, element, h - x, x + behind, p.rest);
      assert h - x + (x + behind) == h + behind;
    case Compound(_, fields, _) => FieldWrittenAfterRead(fields, 0, x, p.i, p.rest);
  }

  lemma {:induction false} FieldWrittenAfterRead(fs: Fields, at: nat, x: nat, i: nat, p: Path)
    requires FieldReaches(fs, i, p)
    ensures FieldPosition(Read, fs, at, x, i, p) <= FieldPosition(Written, fs, at, x, i, p)
    decreases fs, 1
  {
    hide Padding, Reaches, Position, SerializeType, AlignmentOf, Buffersize;
    var f, rest := fs.head, fs.tail;
    var offset := AlignUp(at, SerialAlignment(f.typ));
    if i == 0 {
      WrittenAfterRead(f.typ, x + offset, p);
    } else {
      FieldWrittenAfterRead(rest, offset + SerialSize(f.typ), x, i - 1, p);
    }
  }

  ghost predicate ReadBack(t: Type, x: nat) {
    forall p | Reaches(t, p) :: Position(Written, t, x, p) == Position(Read, t, x, p)
  }

  ghost predicate FieldsReadBack(fs: Fields, at: nat, x: nat) {
    forall i, p | FieldReaches(fs, i, p) ::
      FieldPosition(Written, fs, at, x, i, p) == FieldPosition(Read, fs, at, x, i, p)
  }

  /** An array with data whose leaves are read where they are written starts aligned, and so do its elements. */
  lemma ArrayReadBack(t: Type, x: nat)
    requires t.Array? && t.subsize > 0 && SerialData(t.element) > 0 && ReadBack(t, x)
    ensures Aligned(x, SerialAlignment(t.element)) && ReadBack(t.element, x)
    ensures t.subsize > 1 ==> ReadBack(t.element, x + SerialData(t.element))
  {
    hide Span, Padding, SerialAlignment, SerialData, Buffersize;
    var e := t.element;
    var h := AlignUp(x, SerialAlignment(e));
    AlignUpBounds(x, SerialAlignment(e));
    SpanSucc(0, SerialData(e));
    var q := FirstSerialLeaf(e);
    assert Reaches(t, Into(0, q));
    WrittenAfterRead(e, h, q);
    PositionShift(Read, e, h - x, x, q);
    assert h == x;
    forall p | Reaches(e, p)
      ensures Position(Written, e, x, p) == Position(Read, e, x, p)
    {
      assert Reaches(t, Into(0, p));
    }
    if t.subsize > 1 {
      forall p | Reaches(e, p)
        ensures Position(Written, e, x + SerialData(e), p) == Position(Read, e, x + SerialData(e), p)
      {
        assert Reaches(t, Into(1, p));
      }
    }
  }

  lemma FirstSerialLeaf(t: Type) returns (p: Path)
    requires SerialData(t) > 0
    ensures Reaches(t, p)
  {
    p := FirstLeaf(SerializeType(t));
    SerialLeaf(t, 0, p);
  }

  lemma {:induction false} ReadBackUnmoved(t: Type, x: nat)
    requires ReadBack(t, x)
    ensures Unmoved(t, x)
    decreases t, 0
  {
    hide Span, Padding, Aligned, Position, ReadBack;
    match t
    case Scalar(_, _, _) =>
    case Pointer(target) =>
      PointerReadBack(t, x);
      ReadBackUnmoved(target, x);
    case Array(element, _, _, subsize) =>
      if subsize > 0 && SerialData(element) > 0 {
        ArrayReadBack(t, x);
        ReadBackUnmoved(element, x);
        if subsize > 1 { ReadBackUnmoved(element, x + SerialData(element)); }
      }
    case Compound(_, fields, _) =>
      CompoundReadBack(t, x);
      FieldsReadBackUnmoved(fields, 0, x);
  }

  lemma PointerReadBack(t: Type, x: nat)
    requires t.Pointer? && ReadBack(t, x)
    ensures ReadBack(t.target, x)
  {
    forall p | Reaches(t.target, p)
      ensures Position(Written, t.target, x, p) == Position(Read, t.target, x, p)
    {
      assert Reaches(t, p);
    }
  }

  lemma CompoundReadBack(t: Type, x: nat)
    requires t.Compound? && ReadBack(t, x)
    ensures FieldsReadBack(t.fields, 0, x)
  {
    hide FieldReaches, FieldPosition;
    forall i, p | FieldReaches(t.fields, i, p)
      ensures FieldPosition(Written, t.fields, 0, x, i, p) == FieldPosition(Read, t.fields, 0, x, i, p)
    {
      assert Reaches(t, Into(i, p));
    }
  }

  lemma {:induction false} FieldsReadBackUnmoved(fs: Fields, at: nat, x: nat)
    requires FieldsReadBack(fs, at, x)
    ensures FieldsUnmoved(fs, at, x)
    decreases fs, 1
  {
    hide Padding, Unmoved, Reaches, Position, SerializeType, AlignmentOf, Buffersize;
    match fs
    case Nil =>
    case Cons(f, rest) =>
      var offset := AlignUp(at, SerialAlignment(f.typ));
      forall p | Reaches(f.typ, p)
        ensures Position(Written, f.typ, x + offset, p) == Position(Read, f.typ, x + offset, p)
      {
        assert FieldReaches(fs, 0, p);
      }
      ReadBackUnmoved(f.typ, x + offset);
      var next := offset + SerialSize(f.typ);
      forall i: nat, p | FieldReaches(rest, i, p)
        ensures FieldPosition(Written, rest, next, x, i, p) == FieldPosition(Read, rest, next, x, i, p)
      {
        assert FieldReaches(fs, i + 1, p);
      }
      FieldsReadBackUnmoved(rest, next, x);
  }

  // ----- places apart -----

  function Interval(x: nat, n: nat): (places: set<nat>)
    ensures forall y :: y in places <==> x <= y < x + n
  {
    if n == 0 then {} else Interval(x, n - 1) + {x + n - 1}
  }

  /** The places that are read from `x` on. */
  function ReadPlaces(t: Type, x: nat): set<nat>
    decreases t, 0
  {
    match t
    case Scalar(_, bytes, _) => Interval(x, bytes)
    case Array(element, _, _, subsize) => ElementPlaces(element, subsize, x)
    case Compound(_, fields, _) => FieldPlaces(fields, 0, x)
    case Pointer(target) => ReadPlaces(target, x)
  }

  function ElementPlaces(t: Type, n: nat, x: nat): set<nat>
    decreases t, 1, n
  {
    if n == 0 then {} else ElementPlaces(t, n - 1, x) + ReadPlaces(t, x + Span(n - 1, SerialData(t)))
  }

  function FieldPlaces(fs: Fields, at: nat, x: nat): set<nat>
    decreases fs, 1
  {
    match fs
    case Nil => {}
    case Cons(f, rest) =>
      var offset := AlignUp(at, SerialAlignment(f.typ));
      ReadPlaces(f.typ, x + offset) + FieldPlaces(rest, offset + SerialSize(f.typ), x)
  }

  lemma {:induction false} PlaceOfLeaf(t: Type, x: nat, p: Path)
    requires Reaches(t, p)
    ensures Position(Read, t, x, p) in ReadPlaces(t, x)
    decreases t, 0
  {
    hide Span, Padding;
    match t
    case Scalar(_, _, _) =>
    case Pointer(target) => PlaceOfLeaf(target, x, p);
    case Array(element, _, _, subsize) =>
      PlaceOfLeaf(element, x + Span(p.i, SerialData(element)), p.rest);
      ElementPlace(element, subsize, x, p.i, Position(Read, t, x, p));
    case Compound(_, fields, _) => PlaceOfFieldLeaf(fields, 0, x, p.i, p.rest);
  }

  lemma {:induction false} ElementPlace(t: Type, n: nat, x: nat, i: nat, y: nat)
    requires i < n && y in ReadPlaces(t, x + Span(i, SerialData(t)))
    ensures y in ElementPlaces(t, n, x)
    decreases n
  {
    hide ReadPlaces, Span;
    if i < n - 1 { ElementPlace(t, n - 1, x, i, y); }
  }

  lemma {:induction false} PlaceOfFieldLeaf(fs: Fields, at: nat, x: nat, i: nat, p: Path)
    requires FieldReaches(fs, i, p)
    ensures FieldPosition(Read, fs, at, x, i, p) in FieldPlaces(fs, at, x)
    decreases fs, 1
  {
    hide Padding, Reaches, Position, ReadPlaces, SerializeType, AlignmentOf, Buffersize;
    var f, rest := fs.head, fs.tail;
    var offset := AlignUp(at, SerialAlignment(f.typ));
    if i == 0 {
      PlaceOfLeaf(f.typ, x + offset, p);
    } else {
      PlaceOfFieldLeaf(rest, offset + SerialSize(f.typ), x, i - 1, p);
    }
  }

  lemma {:induction false} LeafOfPlace(t: Type, x: nat, y: nat) returns (p: Path)
    requires y in ReadPlaces(t, x)
    ensures Reaches(t, p) && Position(Read, t, x, p) == y
    decreases t, 0
  {
    hide Span, Padding;
    match t
    case Scalar(_, _, _) => p := Here(y - x);
    case Pointer(target) => p := LeafOfPlace(target, x, y);
    case Array(element, _, _, subsize) =>
      var i, q := LeafOfElementPlace(element, subsize, x, y);
      p := Into(i, q);
    case Compound(_, fields, _) =>
      var i, q := LeafOfFieldPlace(fields, 0, x, y);
      p := Into(i, q);
  }

  lemma {:induction false} LeafOfElementPlace(t: Type, n: nat, x: nat, y: nat) returns (i: nat, p: Path)
    requires y in ElementPlaces(t, n, x)
    ensures i < n && Reaches(t, p) && Position(Read, t, x + Span(i, SerialData(t)), p) == y
    decreases t, 1, n
  {
    hide ReadPlaces, Span, Reaches, Position;
    if y in ElementPlaces(t, n - 1, x) {
      i, p := LeafOfElementPlace(t, n - 1, x, y);
    } else {
      i := n - 1;
      p := LeafOfPlace(t, x + Span(n - 1, SerialData(t)), y);
    }
  }

  lemma {:induction false} LeafOfFieldPlace(fs: Fields, at: nat, x: nat, y: nat) returns (i: nat, p: Path)
    requires y in FieldPlaces(fs, at, x)
    ensures FieldReaches(fs, i, p) && FieldPosition(Read, fs, at, x, i, p) == y
    decreases fs, 1
  {
    hide Padding, Reaches, Position, ReadPlaces, SerializeType, AlignmentOf, Buffersize;
    var f, rest := fs.head, fs.tail;
    var offset := AlignUp(at, SerialAlignment(f.typ));
    if y in ReadPlaces(f.typ, x + offset) {
      i := 0;
      p := LeafOfPlace(f.typ, x + offset, y);
    } else {
      i, p := LeafOfFieldPlace(rest, offset + SerialSize(f.typ), x, y);
      i := i + 1;
    }
  }

  /** No two leaves are read at the same place: only the elements of an array can get in the way of each other. */
  predicate Apart(t: Type) {
    match t
    case Scalar(_, _, _) => true
    case Array(element, _, _, subsize) => subsize == 0 || (Apart(element) && ElementsApart(element, subsize))
    case Compound(_, fields, _) => FieldsApart(fields)
    case Pointer(target) => Apart(target)
  }

  predicate FieldsApart(fs: Fields) {
    match fs
    case Nil => true
    case Cons(f, rest) => Apart(f.typ) && FieldsApart(rest)
  }

  predicate ElementsApart(t: Type, n: nat) {
    forall k | 0 < k < n :: ReadPlaces(t, 0) !! ReadPlaces(t, Span(k, SerialData(t)))
  }

  lemma {:induction false} ApartLeaves(t: Type, p: Path, q: Path)
    requires WellFormed(t) && Apart(t) && Reaches(t, p) && Reaches(t, q)
    requires Position(Read, t, 0, p) == Position(Read, t, 0, q)
    ensures p == q
    decreases t, 0
  {
    hide Span, Padding, Aligned, ReadPlaces, ElementsApart;
    match t
    case Scalar(_, _, _) =>
    case Pointer(target) => ApartLeaves(target, p, q);
    case Array(element, _, _, subsize) =>
      var d := SerialData(element);
      if p.i == q.i {
        PositionShift(Read, element, Span(p.i, d), 0, p.rest);
        PositionShift(Read, element, Span(p.i, d), 0, q.rest);
        ApartLeaves(element, p.rest, q.rest);
      } else if p.i < q.i {
        ElementsClash(element, subsize, p.i, p.rest, q.i, q.rest);
      } else {
        ElementsClash(element, subsize, q.i, q.rest, p.i, p.rest);
      }
    case Compound(_, fields, _) => ApartFieldLeaves(fields, 0, p.i, p.rest, q.i, q.rest);
  }

  /** Leaves of different elements are read at different places. */
  lemma ElementsClash(t: Type, n: nat, i: nat, p: Path, j: nat, q: Path)
    requires ElementsApart(t, n) && i < j < n && Reaches(t, p) && Reaches(t, q)
    ensures Position(Read, t, Span(i, SerialData(t)), p) != Position(Read, t, Span(j, SerialData(t)), q)
  {
    hide Span, Reaches, Position, ReadPlaces, SerialData;
    var d := SerialData(t);
    SpanAdd(i, j - i, d);
    PositionShift(Read, t, Span(i, d), 0, p);
    PositionShift(Read, t, Span(i, d), Span(j - i, d), q);
    PlaceOfLeaf(t, 0, p);
    PlaceOfLeaf(t, Span(j - i, d), q);
  }

  lemma {:induction false} ApartFieldLeaves(fs: Fields, at: nat, i: nat, p: Path, j: nat, q: Path)
    requires FieldsWellFormed(fs) && FieldsApart(fs) && FieldReaches(fs, i, p) && FieldReaches(fs, j, q)
    requires FieldPosition(Read, fs, at, 0, i, p) == FieldPosition(Read, fs, at, 0, j, q)
    ensures i == j && p == q
    decreases fs, 1
  {
    hide Padding, WellFormed, Apart, Reaches, Position, SerializeType, AlignmentOf, Buffersize;
    var f, rest := fs.head, fs.tail;
    var offset := AlignUp(at, SerialAlignment(f.typ));
    var next := offset + SerialSize(f.typ);
    if i == 0 { ReadInField(f.typ, at, p); } else { ReadAfter(rest, next, i - 1, p); }
    if j == 0 { ReadInField(f.typ, at, q); } else { ReadAfter(rest, next, j - 1, q); }
    if i == 0 && j == 0 {
      PositionShift(Read, f.typ, offset, 0, p);
      PositionShift(Read, f.typ, offset, 0, q);
      ApartLeaves(f.typ, p, q);
    } else if i > 0 && j > 0 {
      ApartFieldLeaves(rest, next, i - 1, p, j - 1, q);
    }
  }

  lemma ReadInField(t: Type, at: nat, p: Path)
    requires WellFormed(t) && Reaches(t, p)
    ensures var offset := AlignUp(at, SerialAlignment(t));
      at <= offset <= Position(Read, t, offset, p) < offset + SerialSize(t)
  {
    hide Padding, Aligned, WellFormed, Reaches, Position, SerialSize, SerialAlignment;
    AlignUpBounds(at, SerialAlignment(t));
    var offset := AlignUp(at, SerialAlignment(t));
    PositionBound(Read, t, offset, offset, p);
  }

  lemma {:induction false} ReadAfter(fs: Fields, at: nat, i: nat, p: Path)
    requires FieldsWellFormed(fs) && FieldReaches(fs, i, p)
    ensures FieldPosition(Read, fs, at, 0, i, p) >= at
    decreases fs
  {
    hide Padding, WellFormed, Reaches, Position, SerializeType, AlignmentOf, Buffersize;
    var f := fs.head;
    var offset := AlignUp(at, SerialAlignment(f.typ));
    if i == 0 {
      ReadInField(f.typ, at, p);
    } else {
      AlignUpBounds(at, SerialAlignment(f.typ));
      ReadAfter(fs.tail, offset + SerialSize(f.typ), i - 1, p);
    }
  }

  ghost predicate LeavesApart(t: Type) {
    forall p, q | Reaches(t, p) && Reaches(t, q) :: Position(Read, t, 0, p) == Position(Read, t, 0, q) ==> p == q
  }

  ghost predicate FieldLeavesApart(fs: Fields, at: nat) {
    forall i, p, q | FieldReaches(fs, i, p) && FieldReaches(fs, i, q) ::
      FieldPosition(Read, fs, at, 0, i, p) == FieldPosition(Read, fs, at, 0, i, q) ==> p == q
  }

  lemma {:induction false} LeavesApartCheck(t: Type)
    requires LeavesApart(t)
    ensures Apart(t)
    decreases t, 0
  {
    hide Span, Padding, ReadPlaces, LeavesApart, Position, Reaches;
    match t
    case Scalar(_, _, _) =>
    case Pointer(target) =>
      PointerLeavesApart(t);
      LeavesApartCheck(target);
    case Array(element, _, _, subsize) =>
      if subsize > 0 {
        ArrayLeavesApart(t);
        LeavesApartCheck(element);
      }
    case Compound(_, fields, _) =>
      CompoundLeavesApart(t);
      FieldLeavesApartCheck(fields, 0);
  }

  lemma PointerLeavesApart(t: Type)
    requires t.Pointer? && LeavesApart(t)
    ensures LeavesApart(t.target)
  {
    forall p, q | Reaches(t.target, p) && Reaches(t.target, q) &&
                  Position(Read, t.target, 0, p) == Position(Read, t.target, 0, q)
      ensures p == q
    {
      assert Reaches(t, p) && Reaches(t, q);
    }
  }

  lemma CompoundLeavesApart(t: Type)
    requires t.Compound? && LeavesApart(t)
    ensures FieldLeavesApart(t.fields, 0)
  {
    hide FieldReaches, FieldPosition;
    forall i, p, q | FieldReaches(t.fields, i, p) && FieldReaches(t.fields, i, q) &&
                     FieldPosition(Read, t.fields, 0, 0, i, p) == FieldPosition(Read, t.fields, 0, 0, i, q)
      ensures p == q
    {
      assert Reaches(t, Into(i, p)) && Reaches(t, Into(i, q));
    }
  }

  lemma ArrayLeavesApart(t: Type)
    requires t.Array? && t.subsize > 0 && LeavesApart(t)
    ensures LeavesApart(t.element) && ElementsApart(t.element, t.subsize)
  {
    hide Span, ReadPlaces, SerialData;
    var e := t.element;
    SpanSucc(0, SerialData(e));
    forall p, q | Reaches(e, p) && Reaches(e, q) && Position(Read, e, 0, p) == Position(Read, e, 0, q)
      ensures p == q
    {
      assert Reaches(t, Into(0, p)) && Reaches(t, Into(0, q));
    }
    forall k | 0 < k < t.subsize
      ensures ReadPlaces(e, 0) !! ReadPlaces(e, Span(k, SerialData(e)))
    {
      forall y | y in ReadPlaces(e, 0)
        ensures y !in ReadPlaces(e, Span(k, SerialData(e)))
      {
        if y in ReadPlaces(e, Span(k, SerialData(e))) {
          var p := LeafOfPlace(e, 0, y);
          var q := LeafOfPlace(e, Span(k, SerialData(e)), y);
          assert Reaches(t, Into(0, p)) && Reaches(t, Into(k, q));
          assert false;
        }
      }
    }
  }

  lemma {:induction false} FieldLeavesApartCheck(fs: Fields, at: nat)
    requires FieldLeavesApart(fs, at)
    ensures FieldsApart(fs)
    decreases fs, 1
  {
    hide Padding, Apart, Reaches, Position, SerializeType, AlignmentOf, Buffersize;
    match fs
    case Nil =>
    case Cons(f, rest) =>
      var offset := AlignUp(at, SerialAlignment(f.typ));
      forall p, q | Reaches(f.typ, p) && Reaches(f.typ, q) && Position(Read, f.typ, 0, p) == Position(Read, f.typ, 0, q)
        ensures p == q
      {
        PositionShift(Read, f.typ, offset, 0, p);
        PositionShift(Read, f.typ, offset, 0, q);
        assert FieldReaches(fs, 0, p) && FieldReaches(fs, 0, q);
      }
      LeavesApartCheck(f.typ);
      RestLeavesApart(fs, at);
      FieldLeavesApartCheck(rest, offset + SerialSize(f.typ));
  }

  lemma RestLeavesApart(fs: Fields, at: nat)
    requires fs.Cons? && FieldLeavesApart(fs, at)
    ensures FieldLeavesApart(fs.tail, AlignUp(at, SerialAlignment(fs.head.typ)) + SerialSize(fs.head.typ))
  {
    hide Padding, Reaches, Position, SerialAlignment, SerialSize;
    var rest, next := fs.tail, AlignUp(at, SerialAlignment(fs.head.typ)) + SerialSize(fs.head.typ);
    forall i: nat, p, q | FieldReaches(rest, i, p) && FieldReaches(rest, i, q) &&
                          FieldPosition(Read, rest, next, 0, i, p) == FieldPosition(Read, rest, next, 0, i, q)
      ensures p == q
    {
      assert FieldReaches(fs, i + 1, p) && FieldReaches(fs, i + 1, q);
    }
  }

  /** Nothing is lost exactly when no array with data is moved and no elements get in each other's way. */
  lemma LosslessIff(t: Type)
    requires WellFormed(t)
    ensures Lossless(t) <==> Unmoved(t, 0) && Apart(t)
  {
    hide WellFormed, Reaches, Position, Unmoved, Apart;
    if Unmoved(t, 0) && Apart(t) {
      forall p | Reaches(t, p)
        ensures Position(Written, t, 0, p) == Position(Read, t, 0, p)
      {
        UnmovedLeaf(t, 0, p);
      }
      forall p, q | Reaches(t, p) && Reaches(t, q) && Position(Read, t, 0, p) == Position(Read, t, 0, q)
        ensures p == q
      {
        ApartLeaves(t, p, q);
      }
    }
    if Lossless(t) {
      ReadBackUnmoved(t, 0);
      LeavesApartCheck(t);
    }
  }
}
