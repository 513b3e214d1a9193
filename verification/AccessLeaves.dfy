/** Sub-references and leaves: what a step selects, that following steps leads to the leaves, and that everything
    reached is aligned as its scalars and pointers ask for. */
module AccessLeaves {
  import opened Options
  import opened Alignment
  import opened Datatypes
  import opened Leaves
  import opened StructLayout

  // ----- what a step selects -----

  function Nth(fs: Fields): seq<Field> {
    match fs
    case Nil => []
    case Cons(f, rest) => [f] + Nth(rest)
  }

  /** An index selects the field at that place, if there is one. */
  lemma {:induction false} FindIndexIs(fs: Fields, index: nat)
    ensures FindIndex(fs, index) == if index < |Nth(fs)| then Some(Nth(fs)[index]) else None
    decreases fs
  {
    match fs
    case Nil =>
    case Cons(f, rest) => if index > 0 { FindIndexIs(rest, index - 1); }
  }

  /** A name selects the first field of that name, if there is one. */
  lemma {:induction false} FindMemberIs(fs: Fields, name: string, i: nat)
    requires i < |Nth(fs)| && Nth(fs)[i].name == name && forall j | 0 <= j < i :: Nth(fs)[j].name != name
    ensures FindMember(fs, name) == Some(Nth(fs)[i])
    decreases fs
  {
    var rest := Nth(fs.tail);
    assert forall j | 0 <= j < |rest| :: Nth(fs)[j + 1] == rest[j];
    if i > 0 {
      assert Nth(fs)[0] == fs.head;
      forall j | 0 <= j < i - 1
        ensures rest[j].name != name
      {
        assert Nth(fs)[j + 1].name != name;
      }
      FindMemberIs(fs.tail, name, i - 1);
    }
  }

  lemma {:induction false} FindMemberNone(fs: Fields, name: string)
    requires forall j | 0 <= j < |Nth(fs)| :: Nth(fs)[j].name != name
    ensures FindMember(fs, name) == None
    decreases fs
  {
    match fs
    case Nil =>
    case Cons(f, rest) =>
      assert Nth(fs)[0] == f;
      forall j | 0 <= j < |Nth(rest)|
        ensures Nth(rest)[j].name != name
      {
        assert Nth(fs)[j + 1] == Nth(rest)[j];
      }
      FindMemberNone(rest, name);
  }

  // ----- steps to a leaf -----

  /** Members of records have names of their own. */
  ghost predicate Distinguished(t: Type)
    decreases t, 0
  {
    match t
    case Scalar(_, _, _) => true
    case Pointer(_) => true
    case Array(element, _, _, _) => Distinguished(element)
    case Compound(form, fields, _) => (form == Record ==> NamesDiffer(Nth(fields))) && FieldsDistinguished(fields)
  }

  ghost predicate FieldsDistinguished(fs: Fields)
    decreases fs, 1
  {
    match fs
    case Nil => true
    case Cons(f, rest) => Distinguished(f.typ) && FieldsDistinguished(rest)
  }

  ghost predicate NamesDiffer(fields: seq<Field>) {
    forall i, j | 0 <= i < j < |fields| :: fields[i].name != fields[j].name
  }

  lemma {:induction false} LeafField(fs: Fields, i: nat, p: Path)
    requires IsFieldLeaf(fs, i, p)
    ensures i < |Nth(fs)| && IsLeaf(Nth(fs)[i].typ, p)
    ensures FieldOffsetOf(fs, i, p) == Nth(fs)[i].offset + OffsetOf(Nth(fs)[i].typ, p)
    ensures FieldsDistinguished(fs) ==> Distinguished(Nth(fs)[i].typ)
    ensures Nth(fs)[i].typ < fs
    decreases fs
  {
    hide IsLeaf, OffsetOf, Distinguished;
    if i > 0 {
      LeafField(fs.tail, i - 1, p);
      assert Nth(fs)[i] == Nth(fs.tail)[i - 1];
    }
  }

  /** The accesses that lead to the scalar or pointer of a leaf. */
  ghost function StepsTo(t: Type, p: Path): seq<Step>
    requires IsLeaf(t, p)
    decreases t
  {
    match t
    case Scalar(_, _, _) => []
    case Pointer(_) => []
    case Array(element, _, _, _) => [Index(p.i)] + StepsTo(element, p.rest)
    case Compound(form, fields, _) =>
      LeafField(fields, p.i, p.rest);
      var f := Nth(fields)[p.i];
      [if form == Tuple then Index(p.i) else Member(f.name)] + StepsTo(f.typ, p.rest)
  }

  function LastByte(p: Path): nat {
    match p
    case Here(k) => k
    case Into(_, rest) => LastByte(rest)
  }

  /** Following them from a value leads there, and the leaf is at its offset from the value. */
  lemma {:induction false} LeafIsFollowed(t: Type, address: nat, p: Path, load: nat -> nat)
    requires IsLeaf(t, p) && Distinguished(t)
    ensures match Follow(t, address, StepsTo(t, p), load)
      case None => false
      case Some((u, at)) =>
        (u.Scalar? || u.Pointer?) && LastByte(p) < Buffersize(u) && at + LastByte(p) == address + OffsetOf(t, p)
    decreases t
  {
    hide Span;
    match t
    case Scalar(_, _, _) =>
    case Pointer(_) =>
    case Array(element, _, start, _) =>
      var next := address + Span(start + p.i, Buffersize(element));
      LeafIsFollowed(element, next, p.rest, load);
      assert StepsTo(t, p)[0] == Index(p.i) && StepsTo(t, p)[1..] == StepsTo(element, p.rest);
    case Compound(form, fields, _) =>
      LeafField(fields, p.i, p.rest);
      var f := Nth(fields)[p.i];
      FindIndexIs(fields, p.i);
      if form == Record {
        assert forall j | 0 <= j < p.i :: Nth(fields)[j].name != f.name;
        FindMemberIs(fields, f.name, p.i);
      }
      LeafIsFollowed(f.typ, address + f.offset, p.rest, load);
      assert StepsTo(t, p)[1..] == StepsTo(f.typ, p.rest);
  }

  // ----- alignment -----

  /** What a scalar asks for, and a pointer. */
  ghost function OwnAlignment(t: Type): nat {
    match t
    case Scalar(_, _, align) => align
    case Pointer(_) => 8
    case _ => 1
  }

  /** A scalar or pointer inside a value, not behind its pointers. */
  ghost predicate Within(u: Type, t: Type)
    decreases t, 0
  {
    match t
    case Scalar(_, _, _) => u == t
    case Pointer(_) => u == t
    case Array(element, _, _, _) => Within(u, element)
    case Compound(_, fields, _) => WithinFields(u, fields)
  }

  ghost predicate WithinFields(u: Type, fs: Fields)
    decreases fs, 1
  {
    match fs
    case Nil => false
    case Cons(f, rest) => Within(u, f.typ) || WithinFields(u, rest)
  }

  /** The alignment of a type is the largest that something in it asks for. */
  lemma {:induction false} AlignmentUpper(t: Type, u: Type)
    requires Within(u, t)
    ensures OwnAlignment(u) <= AlignmentOf(t)
    decreases t, 0
  {
    match t
    case Scalar(_, _, _) =>
    case Pointer(_) =>
    case Array(element, _, _, _) => AlignmentUpper(element, u);
    case Compound(_, fields, _) => FieldsAlignmentUpper(fields, u);
  }

  lemma {:induction false} FieldsAlignmentUpper(fs: Fields, u: Type)
    requires WithinFields(u, fs)
    ensures OwnAlignment(u) <= FieldsAlignment(fs)
    decreases fs, 1
  {
    if Within(u, fs.head.typ) { AlignmentUpper(fs.head.typ, u); } else { FieldsAlignmentUpper(fs.tail, u); }
  }

  lemma {:induction false} AlignmentAttained(t: Type) returns (u: Type)
    ensures AlignmentOf(t) == 1 || (Within(u, t) && OwnAlignment(u) == AlignmentOf(t))
    decreases t, 0
  {
    u := t;
    match t
    case Scalar(_, _, _) =>
    case Pointer(_) =>
    case Array(element, _, _, _) => u := AlignmentAttained(element);
    case Compound(_, fields, _) => u := FieldsAlignmentAttained(fields);
  }

  lemma {:induction false} FieldsAlignmentAttained(fs: Fields) returns (u: Type)
    ensures FieldsAlignment(fs) == 1 || (WithinFields(u, fs) && OwnAlignment(u) == FieldsAlignment(fs))
    decreases fs, 1
  {
    match fs
    case Nil => u := Pointer(Scalar(Unknown, 0, 1));
    case Cons(f, rest) =>
      u := AlignmentAttained(f.typ);
      var v := FieldsAlignmentAttained(rest);
      if AlignmentOf(f.typ) < FieldsAlignment(rest) { u := v; }
  }

  /** From an aligned value, every scalar that is reached is at a multiple of what it asks for, and every pointer at a
      multiple of 8. */
  lemma ReachedAligned(t: Type, address: nat, path: seq<Step>, load: nat -> nat)
    requires WellFormed(t) && Aligned(address, AlignmentOf(t)) && TargetsAligned(t, address, load)
    ensures match Follow(t, address, path, load)
      case Some((Pointer(_), at)) => at % 8 == 0
      case Some((Scalar(_, _, align), at)) => at % align == 0
      case _ => true
  {
    hide WellFormed, TargetsAligned, Follow, Remainder;
    AccessPathAligned(t, address, path, load);
    match Follow(t, address, path, load)
    case Some((Pointer(_), at)) => RemainderIsMod(at, 8);
    case Some((Scalar(_, _, align), at)) => RemainderIsMod(at, align);
    case _ =>
  }
}
