/** The condition under which `serialize_copy` keeps to the layout of the serialized type, to be checked member by
    member and without looking at single leaves. */
module SerializeLayout {
  import opened Alignment
  import opened Datatypes
  import opened DensifyAlgebra
  import opened Leaves
  import opened SerializeLeaves
  import opened SerializePlaced

  // ----- in layout -----

  /** Written from `x`, every leaf gets where the type laid out at `due` has it. An array falls behind with every
      element, so that its last one decides. */
  predicate KeepsUp(t: Type, x: nat, due: nat)
    decreases t, 0
  {
    match t
    case Scalar(_, bytes, _) => bytes == 0 || x == due
    case Array(element, _, _, subsize) =>
      subsize == 0 ||
      KeepsUp(element, AlignUp(x, SerialAlignment(element)) + Span(subsize - 1, SerialData(element)),
              due + Span(subsize - 1, SerialSize(element)))
    case Compound(_, fields, _) => FieldsKeepUp(fields, 0, x, due)
    case Pointer(target) => KeepsUp(target, x, due)
  }

  predicate FieldsKeepUp(fs: Fields, at: nat, x: nat, due: nat)
    decreases fs, 1
  {
    match fs
    case Nil => true
    case Cons(f, rest) =>
      var offset := AlignUp(at, SerialAlignment(f.typ));
      KeepsUp(f.typ, x + offset, due + offset) && FieldsKeepUp(rest, offset + SerialSize(f.typ), x, due)
  }

  lemma {:induction false} KeepsUpShift(t: Type, x: nat, due: nat, k: nat)
    requires Aligned(k, SerialAlignment(t))
    ensures KeepsUp(t, x + k, due + k) <==> KeepsUp(t, x, due)
    decreases t, 0
  {
    hide Span, Padding, Aligned;
    match t
    case Scalar(_, _, _) =>
    case Pointer(target) => KeepsUpShift(target, x, due, k);
    case Array(element, _, _, subsize) =>
      if subsize > 0 {
        AlignUpShift(k, x, SerialAlignment(element));
        KeepsUpShift(element, AlignUp(x, SerialAlignment(element)) + Span(subsize - 1, SerialData(element)),
                     due + Span(subsize - 1, SerialSize(element)), k);
      }
    case Compound(_, fields, _) =>
      PackKeeps(SerializeEach(fields), 0, 0);
      FieldsKeepUpShift(fields, 0, x, due, k);
  }

  lemma {:induction false} FieldsKeepUpShift(fs: Fields, at: nat, x: nat, due: nat, k: nat)
    requires Aligned(k, FieldsAlignment(SerializeEach(fs)))
    ensures FieldsKeepUp(fs, at, x + k, due + k) <==> FieldsKeepUp(fs, at, x, due)
    decreases fs, 1
  {
    hide Padding, Aligned, KeepsUp, SerializeType, AlignmentOf, Buffersize;
    match fs
    case Nil =>
    case Cons(f, rest) =>
      var a, b := SerialAlignment(f.typ), FieldsAlignment(SerializeEach(rest));
      AlignedWeaken(k, a, MaxPow2(a, b));
      AlignedWeaken(k, b, MaxPow2(a, b));
      var offset := AlignUp(at, a);
      KeepsUpShift(f.typ, x + offset, due + offset, k);
      FieldsKeepUpShift(rest, offset + SerialSize(f.typ), x, due, k);
  }

  /** Starting later, but not too late, does not harm. */
  lemma {:induction false} KeepsUpLater(t: Type, x: nat, x': nat, due: nat)
    requires WellFormed(t) && x <= x' <= due && Aligned(due, SerialAlignment(t)) && KeepsUp(t, x, due)
    ensures KeepsUp(t, x', due)
    decreases t, 0
  {
    hide Span, Padding, Aligned;
    match t
    case Scalar(_, _, _) =>
    case Pointer(target) => KeepsUpLater(target, x, x', due);
    case Array(element, _, _, subsize) =>
      if subsize > 0 {
        AlignUpMonotone(x, x', SerialAlignment(element));
        ElementDue(Written, element, x', due, subsize - 1, subsize);
        var behind := Span(subsize - 1, SerialData(element));
        KeepsUpLater(element, AlignUp(x, SerialAlignment(element)) + behind,
                     AlignUp(x', SerialAlignment(element)) + behind, due + Span(subsize - 1, SerialSize(element)));
      }
    case Compound(_, fields, _) =>
      PackKeeps(SerializeEach(fields), 0, 0);
      FieldsKeepUpLater(fields, 0, x, x', due);
  }

  lemma {:induction false} FieldsKeepUpLater(fs: Fields, at: nat, x: nat, x': nat, due: nat)
    requires FieldsWellFormed(fs) && x <= x' <= due && Aligned(due, FieldsAlignment(SerializeEach(fs)))
    requires FieldsKeepUp(fs, at, x, due)
    ensures FieldsKeepUp(fs, at, x', due)
    decreases fs, 1
  {
    hide Padding, Aligned, KeepsUp, WellFormed, SerializeType, AlignmentOf, Buffersize;
    match fs
    case Nil =>
    case Cons(f, rest) =>
      FieldDue(f, rest, at, due);
      var offset := AlignUp(at, SerialAlignment(f.typ));
      KeepsUpLater(f.typ, x + offset, x' + offset, due + offset);
      FieldsKeepUpLater(rest, offset + SerialSize(f.typ), x, x', due);
  }

  /** When the last of `n` elements keeps up, the others do. */
  lemma EachKeepsUp(t: Type, x: nat, due: nat, i: nat, n: nat)
    requires WellFormed(t) && x <= due && Aligned(due, SerialAlignment(t)) && i < n
    requires KeepsUp(t, x + Span(n - 1, SerialData(t)), due + Span(n - 1, SerialSize(t)))
    ensures KeepsUp(t, x + Span(i, SerialData(t)), due + Span(i, SerialSize(t)))
  {
    hide Span, Padding, Aligned, WellFormed, KeepsUp, SerialAlignment, SerialSize, SerialData;
    var d, s, k := SerialData(t), SerialSize(t), n - 1 - i;
    SerialDataFits(t);
    SerialAligned(t);
    SpanMonotone(i, i, d, s);
    SpanMonotone(k, k, d, s);
    SpanAdd(i, k, d);
    SpanAdd(i, k, s);
    AlignedSpan(k, s, SerialAlignment(t));
    AlignedSpan(n - 1, s, SerialAlignment(t));
    AlignedAdd(due, Span(n - 1, s), SerialAlignment(t));
    KeepsUpLater(t, x + Span(n - 1, d), x + Span(i, d) + Span(k, s), due + Span(n - 1, s));
    KeepsUpShift(t, x + Span(i, d), due + Span(i, s), Span(k, s));
  }

  lemma {:induction false} KeptUpLeaf(t: Type, x: nat, due: nat, p: Path)
    requires WellFormed(t) && x <= due && Aligned(due, SerialAlignment(t)) && KeepsUp(t, x, due) && Reaches(t, p)
    ensures Position(Written, t, x, p) == Position(Laid, t, due, p)
    decreases t, 0
  {
    hide Span, Padding, Aligned;
    match t
    case Scalar(_, _, _) =>
    case Pointer(target) => KeptUpLeaf(target, x, due, p);
    case Array(element, _, _, subsize) =>
      ElementDue(Written, element, x, due, p.i, subsize);
      AlignUpLeast(x, SerialAlignment(element), due);
      EachKeepsUp(element, AlignUp(x, SerialAlignment(element)), due, p.i, subsize);
      KeptUpLeaf(element, AlignUp(x, SerialAlignment(element)) + Span(p.i, SerialData(element)),
                 due + Span(p.i, SerialSize(element)), p.rest);
    case Compound(_, fields, _) =>
      PackKeeps(SerializeEach(fields), 0, 0);
      KeptUpFieldLeaf(fields, 0, x, due, p.i, p.rest);
  }

  lemma {:induction false} KeptUpFieldLeaf(fs: Fields, at: nat, x: nat, due: nat, i: nat, p: Path)
    requires FieldsWellFormed(fs) && x <= due && Aligned(due, FieldsAlignment(SerializeEach(fs)))
    requires FieldsKeepUp(fs, at, x, due) && FieldReaches(fs, i, p)
    ensures FieldPosition(Written, fs, at, x, i, p) == FieldPosition(Laid, fs, at, due, i, p)
    decreases fs, 1
  {
    hide Padding, Aligned, KeepsUp, WellFormed, Reaches, Position, SerializeType, AlignmentOf, Buffersize;
    var f, rest := fs.head, fs.tail;
    FieldDue(f, rest, at, due);
    var offset := AlignUp(at, SerialAlignment(f.typ));
    if i == 0 {
      KeptUpLeaf(f.typ, x + offset, due + offset, p);
    } else {
      KeptUpFieldLeaf(rest, offset + SerialSize(f.typ), x, due, i - 1, p);
    }
  }

  ghost predicate LeavesKeepUp(t: Type, x: nat, due: nat) {
    forall p | Reaches(t, p) :: Position(Written, t, x, p) == Position(Laid, t, due, p)
  }

  ghost predicate FieldLeavesKeepUp(fs: Fields, at: nat, x: nat, due: nat) {
    forall i, p | FieldReaches(fs, i, p) ::
      FieldPosition(Written, fs, at, x, i, p) == FieldPosition(Laid, fs, at, due, i, p)
  }

  lemma {:induction false} LeavesKeptUp(t: Type, x: nat, due: nat)
    requires LeavesKeepUp(t, x, due)
    ensures KeepsUp(t, x, due)
    decreases t, 0
  {
    hide Span, Padding;
    match t
    case Scalar(_, bytes, _) => if bytes > 0 { assert Reaches(t, Here(0)); }
    case Pointer(target) =>
      forall p | Reaches(target, p)
        ensures Position(Written, target, x, p) == Position(Laid, target, due, p)
      {
        assert Reaches(t, p);
      }
      LeavesKeptUp(target, x, due);
    case Array(element, _, _, subsize) =>
      if subsize > 0 {
        var h := AlignUp(x, SerialAlignment(element)) + Span(subsize - 1, SerialData(element));
        var l := due + Span(subsize - 1, SerialSize(element));
        forall p | Reaches(element, p)
          ensures Position(Written, element, h, p) == Position(Laid, element, l, p)
        {
          assert Reaches(t, Into(subsize - 1, p));
        }
        LeavesKeptUp(element, h, l);
      }
    case Compound(_, fields, _) =>
      forall i, p | FieldReaches(fields, i, p)
        ensures FieldPosition(Written, fields, 0, x, i, p) == FieldPosition(Laid, fields, 0, due, i, p)
      {
        assert Reaches(t, Into(i, p));
      }
      FieldLeavesKeptUp(fields, 0, x, due);
  }

  lemma {:induction false} FieldLeavesKeptUp(fs: Fields, at: nat, x: nat, due: nat)
    requires FieldLeavesKeepUp(fs, at, x, due)
    ensures FieldsKeepUp(fs, at, x, due)
    decreases fs, 1
  {
    hide Padding, KeepsUp, Reaches, Position, SerializeType, AlignmentOf, Buffersize;
    match fs
    case Nil =>
    case Cons(f, rest) =>
      var offset := AlignUp(at, SerialAlignment(f.typ));
      forall p | Reaches(f.typ, p)
        ensures Position(Written, f.typ, x + offset, p) == Position(Laid, f.typ, due + offset, p)
      {
        assert FieldReaches(fs, 0, p);
      }
      LeavesKeptUp(f.typ, x + offset, due + offset);
      var next := offset + SerialSize(f.typ);
      forall i: nat, p | FieldReaches(rest, i, p)
        ensures FieldPosition(Written, rest, next, x, i, p) == FieldPosition(Laid, rest, next, due, i, p)
      {
        assert FieldReaches(fs, i + 1, p);
      }
      FieldLeavesKeptUp(rest, next, x, due);
  }

  /** Every leaf is written where the serialized type has it exactly when the type keeps up with its layout. */
  lemma InLayoutIff(t: Type)
    requires WellFormed(t)
    ensures InLayout(t) <==> KeepsUp(t, 0, 0)
  {
    hide WellFormed, Reaches, Position, KeepsUp, SerialAlignment, SerialOffset, Aligned;
    AlignUpZero(SerialAlignment(t));
    if KeepsUp(t, 0, 0) {
      forall p | Reaches(t, p)
        ensures Position(Written, t, 0, p) == SerialOffset(t, p)
      {
        KeptUpLeaf(t, 0, 0, p);
      }
    }
    if InLayout(t) {
      forall p | Reaches(t, p)
        ensures Position(Written, t, 0, p) == Position(Laid, t, 0, p)
      {
        assert Position(Written, t, 0, p) == SerialOffset(t, p);
      }
      LeavesKeptUp(t, 0, 0);
    }
  }
}
