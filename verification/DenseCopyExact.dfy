/** Exactly when the dense copies keep every leaf, for all contents of all buffers. */
module DenseCopyExact {
  import opened Alignment
  import opened Datatypes
  import opened DenseCopy
  import opened Leaves
  import opened DenseCopyBounds
  import opened DenseCopyLeaves
  import opened DenseCopyBack
  import opened DenseCopyOneByte
  import opened DenseCopyLayout

  /** `dense` holds at `d`, laid out as `Densify(t)`, the leaves that `sparse` holds at `s`, laid out as `t`. */
  ghost predicate DenseImage(t: Type, dense: seq<Byte>, d: nat, sparse: seq<Byte>, s: nat) {
    forall p | IsLeaf(t, p) :: SameAt(dense, d + DenseOffset(t, p), sparse, s + OffsetOf(t, p))
  }

  /** Both buffers hold the same selected leaves of type `t`. */
  ghost predicate SameLeaves(t: Type, a: seq<Byte>, i: nat, b: seq<Byte>, j: nat) {
    forall p | IsLeaf(t, p) :: SameAt(a, i + OffsetOf(t, p), b, j + OffsetOf(t, p))
  }

  /** Two buffers with one dense image hold the same leaves. */
  lemma ImageDeterminesLeaves(t: Type, dense: seq<Byte>, d: nat, a: seq<Byte>, i: nat, b: seq<Byte>, j: nat)
    requires DenseImage(t, dense, d, a, i) && DenseImage(t, dense, d, b, j)
    ensures SameLeaves(t, a, i, b, j)
  {
    hide IsLeaf, OffsetOf, DenseOffset;
    forall p | IsLeaf(t, p)
      ensures SameAt(a, i + OffsetOf(t, p), b, j + OffsetOf(t, p))
    {
      assert SameAt(dense, d + DenseOffset(t, p), a, i + OffsetOf(t, p));
    }
  }

  /** A dense value copied byte by byte is its own dense image. */
  lemma WholeCopyIsImage(t: Type, a: seq<Byte>, i: nat, b: seq<Byte>, j: nat)
    requires WellFormed(t) && IsDense(t) && i + Buffersize(t) <= |a| && j + Buffersize(t) <= |b|
    requires a[i..i + Buffersize(t)] == b[j..j + Buffersize(t)]
    ensures DenseImage(t, a, i, b, j)
  {
    hide IsLeaf, OffsetOf, DenseOffset, WellFormed, IsDense, Buffersize;
    var n := Buffersize(t);
    forall p | IsLeaf(t, p)
      ensures SameAt(a, i + DenseOffset(t, p), b, j + OffsetOf(t, p))
    {
      DenseOffsetSame(t, p);
      LeafInside(t, p);
      assert a[i..i + n][OffsetOf(t, p)] == b[j..j + n][OffsetOf(t, p)];
    }
  }

  // ----- into dense memory -----

  /** What a caller of the copy into dense memory provides. */
  ghost predicate Suits(t: Type, dst: seq<Byte>, base: nat, to: nat, src: seq<Byte>, from: nat) {
    && Aligned(base + to, AlignmentOf(t))
    && to + Buffersize(Densify(t)) <= |dst|
    && from + Buffersize(t) <= |src|
  }

  ghost predicate Placed(t: Type, dst: seq<Byte>, base: nat, to: nat, src: seq<Byte>, from: nat) {
    var r := ToDense(t, dst, base, to, src, from);
    r.Copied? && |r.bytes| == |dst| && DenseImage(t, r.bytes, to, src, from)
  }

  ghost predicate PlacesEveryLeaf(t: Type) {
    forall dst: seq<Byte>, base, to, src: seq<Byte>, from ::
      Suits(t, dst, base, to, src, from) ==> Placed(t, dst, base, to, src, from)
  }

  /** When the type is in place for writing, the copy makes the dense image. */
  lemma ToDenseImage(t: Type, dst: seq<Byte>, base: nat, to: nat, src: seq<Byte>, from: nat)
    requires WellFormed(t) && InPlace(true, t) && Suits(t, dst, base, to, src, from)
    ensures Placed(t, dst, base, to, src, from)
  {
    hide ToDense, WellFormed, InPlace, IsLeaf, OffsetOf, DenseOffset, Position, Moved, Densify, Buffersize, Aligned,
      AlignmentOf, KeptOutside, DenseSpan, IsDense, Datasize, SameAt;
    ToDenseBounded(t, dst, base, to, src, from);
    var r := ToDense(t, dst, base, to, src, from);
    forall p | IsLeaf(t, p)
      ensures SameAt(r.bytes, to + DenseOffset(t, p), src, from + OffsetOf(t, p))
    {
      InPlaceLeaf(true, t, p);
      ToDenseLeaf(t, dst, base, to, src, from, p);
    }
  }

  /** All zero but for a one. */
  ghost function OneAt(n: nat, x: nat): (s: seq<Byte>)
    ensures |s| == n && OnlyAt(s, x) && (x < n ==> s[x] == 1)
  {
    seq(n, i => if i == x then 1 else 0)
  }

  ghost function Blank(n: nat): (s: seq<Byte>)
    ensures |s| == n && forall x :: OnlyAt(s, x)
  {
    seq(n, _ => 0)
  }

  /** A leaf that is out of place is lost when only its byte is set. */
  lemma OutOfPlaceIsLost(t: Type, p: Path)
    requires WellFormed(t) && IsLeaf(t, p) && !LeafInPlace(true, t, p)
    ensures !PlacesEveryLeaf(t)
  {
    hide ToDense, WellFormed, IsLeaf, OffsetOf, DenseOffset, Position, Moved, Densify, Buffersize, Aligned, AlignmentOf,
      KeptOutside, DenseSpan, IsDense, Datasize, OnlyAt;
    LeafInside(t, p);
    DenseOffsetInside(t, p);
    var dst, src := Blank(Buffersize(Densify(t))), OneAt(Buffersize(t), OffsetOf(t, p));
    AlignUpZero(AlignmentOf(t));
    assert Suits(t, dst, 0, 0, src, 0);
    if Placed(t, dst, 0, 0, src, 0) {
      Hit(t, dst, 0, 0, src, 0, p);
      var r := ToDense(t, dst, 0, 0, src, 0).bytes;
      OnlyOne(r, Arrival(t, p, dst, 0), DenseOffset(t, p));
    }
  }

  lemma OnlyOne(s: seq<Byte>, x: nat, y: nat)
    requires OnlyAt(s, x) && y < |s| && y != x
    ensures s[y] == 0
  {
  }

  lemma DenseOffsetInside(t: Type, p: Path)
    requires WellFormed(t) && IsLeaf(t, p)
    ensures DenseOffset(t, p) < Buffersize(Densify(t))
  {
    hide WellFormed, IsLeaf, OffsetOf, Densify, Buffersize;
    DenseLeaf(t, p);
    LeafInsideDense(t, p);
  }

  lemma {:induction false} LeafInsideDense(t: Type, p: Path)
    requires WellFormed(t) && IsLeaf(t, p)
    ensures IsLeaf(Densify(t), p) && OffsetOf(Densify(t), p) < Buffersize(Densify(t))
    decreases t, 0
  {
    hide Span, Padding, Aligned, PackEnd;
    DenseLeaf(t, p);
    match t
    case Scalar(_, _, _) =>
    case Pointer(_) =>
    case Array(element, _, _, subsize) =>
      LeafInsideDense(element, p.rest);
      var b := Buffersize(Densify(element));
      SpanSucc(p.i, b);
      SpanMonotone(p.i + 1, subsize, b, b);
    case Compound(_, fields, _) =>
      DenseFieldLeaf(fields, 0, p.i, p.rest);
      FieldInsideDense(fields, 0, p.i, p.rest);
      AlignUpBounds(PackEnd(DensifyEach(fields), 0), FieldsAlignment(fields));
  }

  lemma {:induction false} FieldInsideDense(fs: Fields, at: nat, i: nat, p: Path)
    requires FieldsWellFormed(fs) && IsFieldLeaf(fs, i, p) && IsFieldLeaf(Pack(DensifyEach(fs), at), i, p)
    ensures FieldOffsetOf(Pack(DensifyEach(fs), at), i, p) < PackEnd(DensifyEach(fs), at)
    decreases fs, 1
  {
    hide Padding, WellFormed, Densify, Buffersize, OffsetOf, IsLeaf, AlignmentOf;
    var f, rest, g := fs.head, fs.tail, Densify(fs.head.typ);
    var at' := AlignUp(at, AlignmentOf(g)) + Buffersize(g);
    if i == 0 {
      LeafInsideDense(f.typ, p);
      PackEndHoldsData(rest, at');
    } else {
      FieldInsideDense(rest, at', i - 1, p);
    }
  }

  /** The copy into dense memory places every leaf, whatever the buffers hold, exactly when the type is in place for
      writing: for every well-formed type. */
  lemma PlacesIff(t: Type)
    requires WellFormed(t)
    ensures PlacesEveryLeaf(t) <==> InPlace(true, t)
  {
    hide WellFormed, InPlace, Placed, Suits, IsLeaf, LeafInPlace;
    if InPlace(true, t) {
      forall dst: seq<Byte>, base, to, src: seq<Byte>, from | Suits(t, dst, base, to, src, from)
        ensures Placed(t, dst, base, to, src, from)
      {
        ToDenseImage(t, dst, base, to, src, from);
      }
    } else {
      var p := LeafOutOfPlace(true, t);
      OutOfPlaceIsLost(t, p);
    }
  }

  // ----- out of dense memory -----

  /** What a caller of the copy out of dense memory provides. */
  ghost predicate SuitsBack(t: Type, dst: seq<Byte>, base: nat, to: nat, src: seq<Byte>, sbase: nat, from: nat) {
    && Aligned(base + to, AlignmentOf(t)) && Aligned(sbase + from, AlignmentOf(t))
    && to + Buffersize(t) <= |dst|
    && from + Buffersize(Densify(t)) <= |src|
  }

  ghost predicate Unpacked(t: Type, dst: seq<Byte>, base: nat, to: nat, src: seq<Byte>, sbase: nat, from: nat) {
    var r := FromDense(t, dst, base, to, src, sbase, from);
    r.Copied? && KeptOutside(dst, r.bytes, to, to + Buffersize(t)) && DenseImage(t, src, from, r.bytes, to)
  }

  ghost predicate FetchesEveryLeaf(t: Type) {
    forall dst: seq<Byte>, base, to, src: seq<Byte>, sbase, from ::
      SuitsBack(t, dst, base, to, src, sbase, from) ==> Unpacked(t, dst, base, to, src, sbase, from)
  }

  /** When the type is in place for reading, the copy makes the destination a value with the given dense image. */
  lemma FromDenseImage(t: Type, dst: seq<Byte>, base: nat, to: nat, src: seq<Byte>, sbase: nat, from: nat)
    requires WellFormed(t) && InPlace(false, t) && SuitsBack(t, dst, base, to, src, sbase, from)
    ensures Unpacked(t, dst, base, to, src, sbase, from)
  {
    hide FromDense, WellFormed, InPlace, IsLeaf, OffsetOf, DenseOffset, Position, Moved, Densify, Buffersize, Aligned,
      AlignmentOf, KeptOutside, SameAt;
    FromDenseBounded(t, dst, base, to, src, sbase, from);
    var r := FromDense(t, dst, base, to, src, sbase, from);
    forall p | IsLeaf(t, p)
      ensures SameAt(src, from + DenseOffset(t, p), r.bytes, to + OffsetOf(t, p))
    {
      InPlaceLeaf(false, t, p);
      FromDenseLeaf(t, dst, base, to, src, sbase, from, p);
      SameAtFlip(r.bytes, to + OffsetOf(t, p), src, from + Position(false, t, p));
    }
  }

  lemma SameAtFlip(a: seq<Byte>, i: nat, b: seq<Byte>, j: nat)
    requires SameAt(a, i, b, j)
    ensures SameAt(b, j, a, i)
  {
  }

  lemma OutOfPlaceIsNotFetched(t: Type, p: Path)
    requires WellFormed(t) && IsLeaf(t, p) && !LeafInPlace(false, t, p)
    ensures !FetchesEveryLeaf(t)
  {
    hide FromDense, WellFormed, IsLeaf, OffsetOf, DenseOffset, Position, Moved, Densify, Buffersize, Aligned,
      AlignmentOf, KeptOutside, OnlyAt;
    LeafInside(t, p);
    DenseOffsetInside(t, p);
    PositionBound(false, t, p);
    var dst, src := Blank(Buffersize(t)), OneAt(Buffersize(Densify(t)), DenseOffset(t, p));
    AlignUpZero(AlignmentOf(t));
    assert SuitsBack(t, dst, 0, 0, src, 0, 0);
    if Unpacked(t, dst, 0, 0, src, 0, 0) {
      FromDenseLeaf(t, dst, 0, 0, src, 0, 0, p);
      var r := FromDense(t, dst, 0, 0, src, 0, 0).bytes;
      assert SameAt(src, 0 + DenseOffset(t, p), r, 0 + OffsetOf(t, p));
      OnlyOne(dst, |dst|, OffsetOf(t, p));
      if Moved(t, p) { OnlyOne(src, DenseOffset(t, p), Position(false, t, p)); }
    }
  }

  /** The copy out of dense memory finds every leaf where the densified type has it exactly when the type is in place
      for reading: for every well-formed type. */
  lemma FetchesIff(t: Type)
    requires WellFormed(t)
    ensures FetchesEveryLeaf(t) <==> InPlace(false, t)
  {
    hide WellFormed, InPlace, Unpacked, SuitsBack, IsLeaf, LeafInPlace;
    if InPlace(false, t) {
      forall dst: seq<Byte>, base, to, src: seq<Byte>, sbase, from | SuitsBack(t, dst, base, to, src, sbase, from)
        ensures Unpacked(t, dst, base, to, src, sbase, from)
      {
        FromDenseImage(t, dst, base, to, src, sbase, from);
      }
    } else {
      var p := LeafOutOfPlace(false, t);
      OutOfPlaceIsNotFetched(t, p);
    }
  }

  // ----- there and back -----

  /** A value at `from`, dense memory at `at`, and a destination at `to`. */
  datatype Trip = Trip(src: seq<Byte>, from: nat, dense: seq<Byte>, base: nat, at: nat, dst: seq<Byte>, dbase: nat,
                       to: nat)

  ghost predicate SuitsTrip(t: Type, w: Trip) {
    Suits(t, w.dense, w.base, w.at, w.src, w.from) && SuitsBack(t, w.dst, w.dbase, w.to, w.dense, w.base, w.at)
  }

  ghost predicate Returned(t: Type, w: Trip) {
    var image := ToDense(t, w.dense, w.base, w.at, w.src, w.from);
    && image.Copied?
    && var back := FromDense(t, w.dst, w.dbase, w.to, image.bytes, w.base, w.at);
    && back.Copied?
    && SameLeaves(t, back.bytes, w.to, w.src, w.from)
    && KeptOutside(w.dst, back.bytes, w.to, w.to + Buffersize(t))
  }

  ghost predicate RoundTrips(t: Type) {
    forall w :: SuitsTrip(t, w) ==> Returned(t, w)
  }

  /** When both copies use the same positions, copying a value into any dense buffer and back out into any buffer
      restores every selected leaf and touches nothing else, whatever the two buffers held before. */
  lemma DenseRoundTrip(t: Type, w: Trip)
    requires WellFormed(t) && Agrees(t) && SuitsTrip(t, w)
    ensures Returned(t, w)
  {
    hide ToDense, FromDense, WellFormed, Agrees, IsLeaf, OffsetOf, Position, Moved, Densify, Buffersize, Aligned,
      AlignmentOf, KeptOutside, DenseSpan, IsDense, Datasize, SameAt;
    ToDenseBounded(t, w.dense, w.base, w.at, w.src, w.from);
    var image := ToDense(t, w.dense, w.base, w.at, w.src, w.from).bytes;
    FromDenseBounded(t, w.dst, w.dbase, w.to, image, w.base, w.at);
    var back := FromDense(t, w.dst, w.dbase, w.to, image, w.base, w.at).bytes;
    forall p | IsLeaf(t, p)
      ensures SameAt(back, w.to + OffsetOf(t, p), w.src, w.from + OffsetOf(t, p))
    {
      AgreesLeaf(t, p);
      ToDenseLeaf(t, w.dense, w.base, w.at, w.src, w.from, p);
      FromDenseLeaf(t, w.dst, w.dbase, w.to, image, w.base, w.at, p);
      SameAtTrans(back, w.to + OffsetOf(t, p), image, w.at + Position(false, t, p), w.src, w.from + OffsetOf(t, p));
    }
  }

  lemma SameAtTrans(a: seq<Byte>, i: nat, b: seq<Byte>, j: nat, c: seq<Byte>, k: nat)
    requires SameAt(a, i, b, j) && SameAt(b, j, c, k)
    ensures SameAt(a, i, c, k)
  {
  }

  lemma DisagreementIsLost(t: Type, p: Path)
    requires WellFormed(t) && IsLeaf(t, p) && !LeafAgrees(t, p)
    ensures !RoundTrips(t)
  {
    hide ToDense, FromDense, WellFormed, IsLeaf, OffsetOf, Position, Moved, Densify, Buffersize, Aligned, AlignmentOf,
      KeptOutside, DenseSpan, IsDense, Datasize, OnlyAt, DenseOffset;
    LeafInside(t, p);
    PositionBound(false, t, p);
    DenseOffsetInside(t, p);
    var n, m := Buffersize(t), Buffersize(Densify(t));
    var w := Trip(OneAt(n, OffsetOf(t, p)), 0, Blank(m), 0, 0, Blank(n), 0, 0);
    AlignUpZero(AlignmentOf(t));
    assert SuitsTrip(t, w);
    ToDenseBounded(t, w.dense, 0, 0, w.src, 0);
    var image := ToDense(t, w.dense, 0, 0, w.src, 0).bytes;
    assert |image| == m by { KeptOutsideLength(w.dense, image, 0, m); }
    if Returned(t, w) {
      Hit(t, w.dense, 0, 0, w.src, 0, p);
      var back := FromDense(t, w.dst, 0, 0, image, 0, 0).bytes;
      FromDenseLeaf(t, w.dst, 0, 0, image, 0, 0, p);
      assert SameAt(back, 0 + OffsetOf(t, p), w.src, 0 + OffsetOf(t, p));
      OnlyOne(w.dst, n, OffsetOf(t, p));
      if Moved(t, p) { OnlyOne(image, Position(true, t, p), Position(false, t, p)); }
    }
  }

  lemma KeptOutsideLength(d: seq<Byte>, d': seq<Byte>, to: nat, end: nat)
    requires KeptOutside(d, d', to, end)
    ensures |d'| == |d|
  {
  }

  /** The round trip restores every selected leaf, whatever the buffers hold, exactly when the two copies agree: for
      every well-formed type. */
  lemma RoundTripIff(t: Type)
    requires WellFormed(t)
    ensures RoundTrips(t) <==> Agrees(t)
  {
    hide WellFormed, Agrees, Returned, SuitsTrip, IsLeaf, LeafAgrees;
    if Agrees(t) {
      forall w | SuitsTrip(t, w)
        ensures Returned(t, w)
      {
        DenseRoundTrip(t, w);
      }
    } else {
      var p := LeafDisagrees(t);
      DisagreementIsLost(t, p);
    }
  }
}
