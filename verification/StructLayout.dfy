/** Layouts computed for structs and tuples without explicit displacements, and the alignment of
    everything reached inside a value by indexing and member access. */
module StructLayout {
  import opened Options
  import opened Alignment
  import opened Datatypes
  import opened DensifyAlgebra
  import opened DenseCopyBounds
  import opened Leaves
  import opened DatatypeLoops

  // ----- Struct_template::evaluate and Tuple_template::evaluate -----

  /** The record or tuple over the given member types; their offsets are ignored. */
  function StructType(form: CompoundForm, members: Fields): Type {
    Compound(form, Pack(members, 0), PackedExtent(members))
  }

  method EvaluateStruct(form: CompoundForm, members: Fields) returns (t: Type)
    requires members.Cons?
    ensures t == StructType(form, members)
  {
    hide Padding;
    var displacement: nat, align: nat, rest, evaluated := 0, 0, members, Nil;
    while rest.Cons?
      invariant align == 0 <==> rest == members
      invariant align > 0 ==> IsPow2(align) && MaxPow2(align, FieldsAlignment(rest)) == FieldsAlignment(members)
      invariant Append(evaluated, Pack(rest, displacement)) == Pack(members, 0)
      invariant PackEnd(rest, displacement) == PackEnd(members, 0)
      decreases rest
    {
      var f := rest.head;
      displacement := displacement + Padding(displacement, AlignmentOf(f.typ));
      AppendOne(evaluated, Field(displacement, f.typ, f.name), Pack(rest.tail, displacement + Buffersize(f.typ)));
      evaluated := Append(evaluated, Cons(Field(displacement, f.typ, f.name), Nil));
      displacement := displacement + Buffersize(f.typ);
      align := Max(align, AlignmentOf(f.typ));
      rest := rest.tail;
    }
    AppendNil(evaluated);
    displacement := displacement + Padding(displacement, align);
    displacement := Max(1, displacement);
    t := Compound(form, evaluated, displacement);
  }

  /** The members of the computed layout are in order, aligned, disjoint and in bounds. */
  lemma {:induction false} PackFits(fs: Fields, at: nat, hi: nat)
    requires FieldsWellFormed(fs) && PackEnd(fs, at) <= hi
    ensures FieldsFit(Pack(fs, at), at, hi) && FieldsWellFormed(Pack(fs, at))
    decreases fs
  {
    hide Padding, Aligned;
    match fs
    case Nil =>
    case Cons(f, rest) =>
      AlignUpBounds(at, AlignmentOf(f.typ));
      PackFits(rest, AlignUp(at, AlignmentOf(f.typ)) + Buffersize(f.typ), hi);
  }

  ghost predicate SameMembers(fs: Fields, gs: Fields) {
    match (fs, gs)
    case (Nil, Nil) => true
    case (Cons(f, frest), Cons(g, grest)) => f.typ == g.typ && SameMembers(frest, grest)
    case _ => false
  }

  /** Every field of `fs` is at or before the one of `gs`. */
  ghost predicate NoLater(fs: Fields, gs: Fields) {
    match (fs, gs)
    case (Nil, Nil) => true
    case (Cons(f, frest), Cons(g, grest)) => f.offset <= g.offset && NoLater(frest, grest)
    case _ => false
  }

  /** No layout of the same members in the same order places any of them earlier. */
  lemma {:induction false} PackMinimal(fs: Fields, at: nat, gs: Fields, lo: nat, hi: nat)
    requires SameMembers(fs, gs) && FieldsFit(gs, lo, hi) && at <= lo
    ensures NoLater(Pack(fs, at), gs) && PackEnd(fs, at) <= hi
    decreases fs
  {
    hide Padding, Aligned;
    match (fs, gs)
    case (Nil, Nil) =>
    case (Cons(f, frest), Cons(g, grest)) =>
      AlignUpLeast(at, AlignmentOf(f.typ), g.offset);
      PackMinimal(frest, AlignUp(at, AlignmentOf(f.typ)) + Buffersize(f.typ), grest, g.offset + Buffersize(g.typ), hi);
  }

  lemma {:induction false} SameMembersAlign(fs: Fields, gs: Fields)
    requires SameMembers(fs, gs)
    ensures FieldsAlignment(fs) == FieldsAlignment(gs)
    decreases fs
  {
    match (fs, gs)
    case (Nil, Nil) =>
    case (Cons(_, frest), Cons(_, grest)) => SameMembersAlign(frest, grest);
  }

  /** The computed layout is the smallest well-formed one: its members come no later and its
      extent is no larger than in any other. */
  lemma StructIsMinimal(form: CompoundForm, members: Fields, other: Type)
    requires other.Compound? && WellFormed(other) && SameMembers(members, other.fields)
    ensures NoLater(StructType(form, members).fields, other.fields)
    ensures StructType(form, members).extent <= other.extent
  {
    hide Padding, Aligned, Pack;
    PackMinimal(members, 0, other.fields, 0, other.extent);
    SameMembersAlign(members, other.fields);
    AlignUpLeast(PackEnd(members, 0), FieldsAlignment(members), other.extent);
  }

  ghost function Offsets(fs: Fields): seq<nat> {
    match fs
    case Nil => []
    case Cons(f, rest) => [f.offset] + Offsets(rest)
  }

  lemma {:induction false} PackSameMembers(fs: Fields, at: nat)
    ensures SameMembers(fs, Pack(fs, at))
    decreases fs
  {
    hide AlignUp;
    match fs
    case Nil =>
    case Cons(f, rest) => PackSameMembers(rest, AlignUp(at, AlignmentOf(f.typ)) + Buffersize(f.typ));
  }

  lemma {:induction false} NoLaterBothWays(fs: Fields, gs: Fields)
    requires NoLater(fs, gs) && NoLater(gs, fs)
    ensures Offsets(fs) == Offsets(gs)
    decreases fs
  {
    match (fs, gs)
    case (Nil, Nil) =>
    case (Cons(_, frest), Cons(_, grest)) => NoLaterBothWays(frest, grest);
  }

  /** The computed layout is one of those it is compared with, and another that comes nowhere later places every
      member at the same offset. */
  lemma StructIsOnlyMinimal(form: CompoundForm, members: Fields, other: Type)
    requires other.Compound? && WellFormed(other) && SameMembers(members, other.fields)
    ensures SameMembers(members, StructType(form, members).fields)
    ensures NoLater(other.fields, StructType(form, members).fields) <==>
      Offsets(other.fields) == Offsets(StructType(form, members).fields)
  {
    hide Padding, Aligned, Pack, Offsets, WellFormed;
    var fields := StructType(form, members).fields;
    PackSameMembers(members, 0);
    StructIsMinimal(form, members, other);
    if NoLater(other.fields, fields) {
      NoLaterBothWays(fields, other.fields);
    }
    if Offsets(other.fields) == Offsets(fields) {
      SameOffsets(fields, other.fields);
    }
  }

  lemma {:induction false} SameOffsets(fs: Fields, gs: Fields)
    requires Offsets(fs) == Offsets(gs)
    ensures NoLater(gs, fs)
    decreases fs
  {
    if fs.Cons? && gs.Cons? {
      assert Offsets(fs)[1..] == Offsets(fs.tail) && Offsets(gs)[1..] == Offsets(gs.tail);
      assert Offsets(fs)[0] == Offsets(gs)[0];
      SameOffsets(fs.tail, gs.tail);
    }
  }

  ghost predicate AllEmpty(fs: Fields) {
    match fs
    case Nil => true
    case Cons(f, rest) => Buffersize(f.typ) == 0 && AllEmpty(rest)
  }

  lemma {:induction false} PackEndZeroIff(fs: Fields, at: nat)
    ensures at <= PackEnd(fs, at)
    ensures at == 0 ==> (PackEnd(fs, at) == 0 <==> AllEmpty(fs))
    decreases fs
  {
    hide Padding, Aligned;
    match fs
    case Nil =>
    case Cons(f, rest) =>
      AlignUpBounds(at, AlignmentOf(f.typ));
      AlignUpZero(AlignmentOf(f.typ));
      PackEndZeroIff(rest, AlignUp(at, AlignmentOf(f.typ)) + Buffersize(f.typ));
  }

  /** The computed type is well formed unless all its members are empty and some of them wants an
      alignment: the byte that makes its address unique then breaks the multiple-of-alignment rule. */
  lemma StructWellFormedIff(form: CompoundForm, members: Fields)
    requires members.Cons? && FieldsWellFormed(members)
    ensures WellFormed(StructType(form, members)) <==> !AllEmpty(members) || FieldsAlignment(members) == 1
  {
    hide Padding, Aligned;
    var end, align := PackEnd(members, 0), FieldsAlignment(members);
    AlignUpBounds(end, align);
    AlignUpZero(align);
    PackFits(members, 0, PackedExtent(members));
    PackKeeps(members, 0, 0);
    PackEndZeroIff(members, 0);
    AlignedOne(align);
    assert Pack(members, 0).Cons?;
  }

  lemma AlignedOne(a: Pow2)
    ensures Aligned(1, a) <==> a == 1
  {
    if a > 1 { DivModUnique(1, a, 0, 1); }
  }

  // ----- access paths -----

  datatype Step = Index(index: nat) | Member(name: string) | Dereference

  function FindIndex(fs: Fields, index: nat): Option<Field> {
    match fs
    case Nil => None
    case Cons(f, rest) => if index == 0 then Some(f) else FindIndex(rest, index - 1)
  }

  function FindMember(fs: Fields, name: string): Option<Field> {
    match fs
    case Nil => None
    case Cons(f, rest) => if f.name == name then Some(f) else FindMember(rest, name)
  }

  /** One sub-reference: where it points and its type, `None` when the source raises an error.
      `load` reads the address stored at an address. */
  function Access(t: Type, address: nat, step: Step, load: nat -> nat): Option<(Type, nat)>
    decreases t
  {
    match (t, step)
    case (Array(element, _, start, subsize), Index(index)) =>
      if index < subsize then Some((element, address + Span(start + index, Buffersize(element)))) else None
    case (Compound(Tuple, fields, _), Index(index)) => Placed(FindIndex(fields, index), address)
    case (Compound(Record, fields, _), Member(name)) => Placed(FindMember(fields, name), address)
    case (Pointer(target), Dereference) => Some((target, load(address)))
    case (Pointer(target), _) => Access(target, load(address), step, load)
    case _ => None
  }

  function Placed(f: Option<Field>, address: nat): Option<(Type, nat)> {
    match f
    case None => None
    case Some(f) => Some((f.typ, address + f.offset))
  }

  function Follow(t: Type, address: nat, path: seq<Step>, load: nat -> nat): Option<(Type, nat)>
    decreases |path|
  {
    if path == [] then Some((t, address))
    else
      match Access(t, address, path[0], load)
      case None => None
      case Some((t', address')) => Follow(t', address', path[1..], load)
  }

  /** Every pointer met on the way points to a suitably aligned address. */
  ghost predicate TargetsAligned(t: Type, address: nat, load: nat -> nat) {
    forall path ::
      match Follow(t, address, path, load)
      case Some((Pointer(target), at)) => Aligned(load(at), AlignmentOf(target))
      case _ => true
  }

  ghost predicate FieldOf(f: Field, fs: Fields) {
    fs.Cons? && (f == fs.head || FieldOf(f, fs.tail))
  }

  lemma {:induction false} FoundField(fs: Fields, index: nat, name: string)
    ensures FindIndex(fs, index).Some? ==> FieldOf(FindIndex(fs, index).value, fs)
    ensures FindMember(fs, name).Some? ==> FieldOf(FindMember(fs, name).value, fs)
    decreases fs
  {
    match fs
    case Nil =>
    case Cons(f, rest) => FoundField(rest, if index == 0 then 0 else index - 1, name);
  }

  /** A field of a well-formed compound at an aligned address is well formed, aligned and in bounds. */
  lemma {:induction false} FieldPlace(f: Field, fs: Fields, address: nat, lo: nat, hi: nat)
    requires FieldOf(f, fs) && FieldsWellFormed(fs) && FieldsFit(fs, lo, hi) && Aligned(address, FieldsAlignment(fs))
    ensures WellFormed(f.typ) && Aligned(address + f.offset, AlignmentOf(f.typ)) && f.offset + Buffersize(f.typ) <= hi
    decreases fs
  {
    hide Aligned;
    FieldPlaceAligned(fs.head, fs.tail, address);
    FieldsFitBound(fs.tail, fs.head.offset + Buffersize(fs.head.typ), hi);
    if f != fs.head {
      FieldPlace(f, fs.tail, address, fs.head.offset + Buffersize(fs.head.typ), hi);
    }
  }

  lemma ElementPlace(element: Type, size: nat, at: nat, address: nat)
    requires WellFormed(element) && at < size && Aligned(address, AlignmentOf(element))
    ensures var b := Buffersize(element);
      Aligned(address + Span(at, b), AlignmentOf(element)) && address + Span(at, b) + b <= address + Span(size, b)
  {
    hide Aligned, Span, Buffersize, WellFormed, AlignmentOf;
    var b := Buffersize(element);
    BuffersizeAligned(element);
    AlignedSpan(at, b, AlignmentOf(element));
    AlignedAdd(address, Span(at, b), AlignmentOf(element));
    SpanSucc(at, b);
    SpanMonotone(at + 1, size, b, b);
  }

  /** A sub-reference of a pointer-free step stays inside the value. */
  lemma AccessInBounds(t: Type, address: nat, step: Step, load: nat -> nat)
    requires WellFormed(t) && Aligned(address, AlignmentOf(t)) && !t.Pointer?
    ensures match Access(t, address, step, load)
      case None => true
      case Some((t', address')) =>
        && WellFormed(t') && Aligned(address', AlignmentOf(t'))
        && address <= address' && address' + Buffersize(t') <= address + Buffersize(t)
  {
    hide Aligned, Span;
    match (t, step)
    case (Array(element, size, start, subsize), Index(index)) =>
      if index < subsize { ElementPlace(element, size, start + index, address); }
    case (Compound(Tuple, fields, extent), Index(index)) =>
      FoundField(fields, index, "");
      if FindIndex(fields, index).Some? { FieldPlace(FindIndex(fields, index).value, fields, address, 0, extent); }
    case (Compound(Record, fields, extent), Member(name)) =>
      FoundField(fields, 0, name);
      if FindMember(fields, name).Some? { FieldPlace(FindMember(fields, name).value, fields, address, 0, extent); }
    case _ =>
  }

  /** Sub-references of sub-references keep the targets of pointers aligned. */
  lemma TargetsAlignedAfter(t: Type, address: nat, step: Step, load: nat -> nat)
    requires TargetsAligned(t, address, load)
    ensures match Access(t, address, step, load)
      case None => true
      case Some((t', address')) => TargetsAligned(t', address', load)
  {
    hide Access;
    match Access(t, address, step, load)
    case None =>
    case Some((t', address')) =>
      forall path
        ensures match Follow(t', address', path, load)
          case Some((Pointer(target), at)) => Aligned(load(at), AlignmentOf(target))
          case _ => true
      {
        assert ([step] + path)[1..] == path;
        assert Follow(t, address, [step] + path, load) == Follow(t', address', path, load);
      }
  }

  lemma {:induction false} AccessAligned(t: Type, address: nat, step: Step, load: nat -> nat)
    requires WellFormed(t) && Aligned(address, AlignmentOf(t)) && TargetsAligned(t, address, load)
    ensures match Access(t, address, step, load)
      case None => true
      case Some((t', address')) => WellFormed(t') && Aligned(address', AlignmentOf(t'))
    decreases t
  {
    hide Aligned, TargetsAligned;
    if t.Pointer? {
      assert Aligned(load(address), AlignmentOf(t.target)) by {
        TargetAligned(t, address, load);
      }
      TargetsAlignedAfter(t, address, Dereference, load);
      if step != Dereference { AccessAligned(t.target, load(address), step, load); }
    } else {
      AccessInBounds(t, address, step, load);
    }
  }

  lemma TargetAligned(t: Type, address: nat, load: nat -> nat)
    requires t.Pointer? && TargetsAligned(t, address, load)
    ensures Aligned(load(address), AlignmentOf(t.target))
  {
    assert Follow(t, address, [], load) == Some((t, address));
  }

  /** From an aligned value of a well-formed type, every sub-reference reached by any chain of
      index, member and dereference steps is aligned for its own type; scalars in particular. */
  lemma {:induction false} AccessPathAligned(t: Type, address: nat, path: seq<Step>, load: nat -> nat)
    requires WellFormed(t) && Aligned(address, AlignmentOf(t)) && TargetsAligned(t, address, load)
    ensures match Follow(t, address, path, load)
      case None => true
      case Some((t', address')) => WellFormed(t') && Aligned(address', AlignmentOf(t'))
    decreases |path|
  {
    hide Aligned, TargetsAligned, Access, WellFormed;
    if path != [] {
      AccessAligned(t, address, path[0], load);
      TargetsAlignedAfter(t, address, path[0], load);
      match Access(t, address, path[0], load)
      case None =>
      case Some((t', address')) => AccessPathAligned(t', address', path[1..], load);
    }
  }
}
