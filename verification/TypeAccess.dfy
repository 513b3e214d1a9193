/** The densified and the serialized form of a type have the same parts as the type: what can be reached in one can be
    reached in the other by the same steps, and is the same form of the same part. */
module TypeAccess {
  import opened Options
  import opened Alignment
  import opened Datatypes
  import opened StructLayout
  import opened AccessLeaves

  // ----- fields -----

  /** The same names and, field by field, the given types. */
  ghost predicate Corresponds(fs: Fields, gs: Fields, form: Type -> Type) {
    && |Nth(gs)| == |Nth(fs)|
    && forall i | 0 <= i < |Nth(fs)| :: Nth(gs)[i].name == Nth(fs)[i].name && Nth(gs)[i].typ == form(Nth(fs)[i].typ)
  }

  lemma {:induction false} PackedFields(fs: Fields, at: nat)
    ensures |Nth(Pack(fs, at))| == |Nth(fs)|
    ensures forall i | 0 <= i < |Nth(fs)| ::
      Nth(Pack(fs, at))[i].name == Nth(fs)[i].name && Nth(Pack(fs, at))[i].typ == Nth(fs)[i].typ
    decreases fs
  {
    hide AlignUp, AlignmentOf, Buffersize;
    match fs
    case Nil =>
    case Cons(f, rest) => PackedFields(rest, AlignUp(at, AlignmentOf(f.typ)) + Buffersize(f.typ));
  }

  lemma {:induction false} DensifiedFields(fs: Fields)
    ensures Corresponds(fs, DensifyEach(fs), Densify)
    decreases fs
  {
    hide Densify;
    match fs
    case Nil =>
    case Cons(f, rest) => DensifiedFields(rest);
  }

  lemma {:induction false} SerializedFields(fs: Fields)
    ensures Corresponds(fs, SerializeEach(fs), SerializeType)
    decreases fs
  {
    hide SerializeType;
    match fs
    case Nil =>
    case Cons(f, rest) => SerializedFields(rest);
  }

  lemma FindCorresponding(fs: Fields, gs: Fields, form: Type -> Type, index: nat)
    requires Corresponds(fs, gs, form)
    ensures FindIndex(gs, index).Some? <==> FindIndex(fs, index).Some?
    ensures FindIndex(fs, index).Some? ==> FindIndex(gs, index).value.typ == form(FindIndex(fs, index).value.typ)
  {
    hide FindIndex, Nth;
    FindIndexIs(fs, index);
    FindIndexIs(gs, index);
  }

  lemma FindNamed(fs: Fields, gs: Fields, form: Type -> Type, name: string)
    requires Corresponds(fs, gs, form)
    ensures FindMember(gs, name).Some? <==> FindMember(fs, name).Some?
    ensures FindMember(fs, name).Some? ==> FindMember(gs, name).value.typ == form(FindMember(fs, name).value.typ)
  {
    hide FindMember, Nth;
    if i :| 0 <= i < |Nth(fs)| && Nth(fs)[i].name == name {
      var k := FirstNamed(Nth(fs), name, i);
      FindMemberIs(fs, name, k);
      FindMemberIs(gs, name, k);
    } else {
      FindMemberNone(fs, name);
      FindMemberNone(gs, name);
    }
  }

  lemma {:induction false} FirstNamed(fields: seq<Field>, name: string, i: nat) returns (k: nat)
    requires i < |fields| && fields[i].name == name
    ensures k <= i && fields[k].name == name && forall j | 0 <= j < k :: fields[j].name != name
    decreases i
  {
    k := i;
    if j :| 0 <= j < i && fields[j].name == name { k := FirstNamed(fields, name, j); }
  }

  // ----- steps -----

  /** Both steps fail, or both lead to a part and the second to the given form of it. */
  ghost predicate SamePart(a: Option<(Type, nat)>, b: Option<(Type, nat)>, form: Type -> Type) {
    (a.None? && b.None?) || (a.Some? && b.Some? && b.value.0 == form(a.value.0))
  }

  lemma {:induction false} DensifiedStep(t: Type, step: Step, a: nat, load: nat -> nat, b: nat, load': nat -> nat)
    ensures SamePart(Access(t, a, step, load), Access(Densify(t), b, step, load'), Densify)
    decreases t
  {
    hide Span, AlignUp, PackEnd, Pack;
    match t
    case Scalar(_, _, _) =>
    case Array(_, _, _, _) =>
    case Pointer(target) => if step != Dereference { DensifiedStep(target, step, load(a), load, load'(b), load'); }
    case Compound(_, fields, _) =>
      var gs := Pack(DensifyEach(fields), 0);
      assert Corresponds(fields, gs, Densify) by {
        DensifiedFields(fields);
        PackedFields(DensifyEach(fields), 0);
      }
      if step.Index? { FindCorresponding(fields, gs, Densify, step.index); }
      if step.Member? { FindNamed(fields, gs, Densify, step.name); }
  }

  /** What any steps reach in the densified type is the densified form of what they reach in the type. */
  lemma {:induction false} DensifiedPath(t: Type, path: seq<Step>, a: nat, load: nat -> nat, b: nat, load': nat -> nat)
    ensures SamePart(Follow(t, a, path, load), Follow(Densify(t), b, path, load'), Densify)
    decreases |path|
  {
    hide Access, Densify;
    if path != [] {
      DensifiedStep(t, path[0], a, load, b, load');
      var x, y := Access(t, a, path[0], load), Access(Densify(t), b, path[0], load');
      if x.Some? { DensifiedPath(x.value.0, path[1..], x.value.1, load, y.value.1, load'); }
    }
  }

  lemma {:induction false} SerializedStep(t: Type, step: Step, a: nat, load: nat -> nat, b: nat, load': nat -> nat)
    requires step != Dereference
    ensures SamePart(Access(t, a, step, load), Access(SerializeType(t), b, step, load'), SerializeType)
    decreases t
  {
    hide Span, AlignUp, PackEnd, Pack;
    match t
    case Scalar(_, _, _) =>
    case Array(_, _, _, _) =>
    case Pointer(target) => SerializedStep(target, step, load(a), load, b, load');
    case Compound(_, fields, _) =>
      var gs := Pack(SerializeEach(fields), 0);
      assert Corresponds(fields, gs, SerializeType) by {
        SerializedFields(fields);
        PackedFields(SerializeEach(fields), 0);
      }
      if step.Index? { FindCorresponding(fields, gs, SerializeType, step.index); }
      if step.Member? { FindNamed(fields, gs, SerializeType, step.name); }
  }

  /** Serialized, pointers are gone: what steps reach through them, the same steps reach directly. */
  lemma {:induction false} SerializedPath(t: Type, path: seq<Step>, a: nat, load: nat -> nat, b: nat, load': nat -> nat)
    requires Dereference !in path
    ensures SamePart(Follow(t, a, path, load), Follow(SerializeType(t), b, path, load'), SerializeType)
    decreases |path|
  {
    hide Access, SerializeType;
    if path != [] {
      assert path[0] in path && forall s | s in path[1..] :: s in path;
      SerializedStep(t, path[0], a, load, b, load');
      var x, y := Access(t, a, path[0], load), Access(SerializeType(t), b, path[0], load');
      if x.Some? { SerializedPath(x.value.0, path[1..], x.value.1, load, y.value.1, load'); }
    }
  }
}
