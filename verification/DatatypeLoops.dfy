/** The layout queries as the source runs them: loops over the members with local accumulators. */
module DatatypeLoops {
  import opened Alignment
  import opened Datatypes

  function Append(fs: Fields, gs: Fields): Fields {
    match fs
    case Nil => gs
    case Cons(f, rest) => Cons(f, Append(rest, gs))
  }

  lemma {:induction false} AppendOne(fs: Fields, f: Field, gs: Fields)
    ensures Append(Append(fs, Cons(f, Nil)), gs) == Append(fs, Cons(f, gs))
    decreases fs
  {
    match fs
    case Nil =>
    case Cons(_, rest) => AppendOne(rest, f, gs);
  }

  lemma {:induction false} AppendNil(fs: Fields)
    ensures Append(fs, Nil) == fs
    decreases fs
  {
    match fs
    case Nil =>
    case Cons(_, rest) => AppendNil(rest);
  }

  method RecordDatasize(fs: Fields) returns (result: nat)
    ensures result == FieldsDatasize(fs)
  {
    result := 0;
    var rest := fs;
    while rest.Cons?
      invariant result + FieldsDatasize(rest) == FieldsDatasize(fs)
      decreases rest
    {
      result := result + Datasize(rest.head.typ);
      rest := rest.tail;
    }
  }

  method RecordAlignment(fs: Fields) returns (result: Pow2)
    ensures result == FieldsAlignment(fs)
  {
    result := 1;
    var rest := fs;
    while rest.Cons?
      invariant MaxPow2(result, FieldsAlignment(rest)) == FieldsAlignment(fs)
      decreases rest
    {
      result := MaxPow2(result, AlignmentOf(rest.head.typ));
      rest := rest.tail;
    }
  }

  method RecordDense(t: Type) returns (dense: bool)
    requires t.Compound?
    ensures dense == IsDense(t)
  {
    hide Padding;
    var displacement: nat, rest := 0, t.fields;
    while rest.Cons?
      invariant FieldsDense(rest, displacement) == FieldsDense(t.fields, 0)
      invariant PackEnd(rest, displacement) == PackEnd(t.fields, 0)
      decreases rest
    {
      if !IsDense(rest.head.typ) { return false; }
      displacement := displacement + Padding(displacement, AlignmentOf(rest.head.typ));
      if rest.head.offset > displacement { return false; }
      displacement := displacement + Buffersize(rest.head.typ);
      rest := rest.tail;
    }
    var align := RecordAlignment(t.fields);
    displacement := displacement + Padding(displacement, align);
    displacement := Max(1, displacement);
    return t.extent <= displacement;
  }

  method RecordDensify(t: Type) returns (dense: Type)
    requires t.Compound?
    ensures dense == Densify(t)
  {
    hide Padding, Densify;
    var displacement: nat, rest, members := 0, t.fields, Nil;
    while rest.Cons?
      invariant Append(members, Pack(DensifyEach(rest), displacement)) == Pack(DensifyEach(t.fields), 0)
      invariant PackEnd(DensifyEach(rest), displacement) == PackEnd(DensifyEach(t.fields), 0)
      decreases rest
    {
      var member := Densify(rest.head.typ);
      displacement := displacement + Padding(displacement, AlignmentOf(member));
      AppendOne(members, Field(displacement, member, rest.head.name),
                Pack(DensifyEach(rest.tail), displacement + Buffersize(member)));
      members := Append(members, Cons(Field(displacement, member, rest.head.name), Nil));
      displacement := displacement + Buffersize(member);
      rest := rest.tail;
    }
    AppendNil(members);
    var align := RecordAlignment(t.fields);
    displacement := displacement + Padding(displacement, align);
    dense := Compound(t.form, members, Max(1, displacement));
    DensifyCompound(t);
  }

  lemma DensifyCompound(t: Type)
    requires t.Compound?
    ensures var fields := DensifyEach(t.fields);
      Densify(t) == Compound(t.form, Pack(fields, 0), Max(1, AlignUp(PackEnd(fields, 0), FieldsAlignment(t.fields))))
  {
  }

  /** The record branch of the serialize plugin, which starts its alignment at 0 and keeps the
      extent in a second accumulator. */
  method RecordSerialize(t: Type) returns (ser: Type)
    requires t.Compound? && t.fields.Cons?
    ensures ser == SerializeType(t)
  {
    hide Padding, SerializeType;
    var offset: nat, align: nat, extent: nat, rest, members := 0, 0, 0, t.fields, Nil;
    while rest.Cons?
      invariant extent == offset
      invariant align == 0 <==> rest == t.fields
      invariant align > 0 ==>
        && IsPow2(align)
        && MaxPow2(align, FieldsAlignment(SerializeEach(rest))) == FieldsAlignment(SerializeEach(t.fields))
      invariant Append(members, Pack(SerializeEach(rest), offset)) == Pack(SerializeEach(t.fields), 0)
      invariant PackEnd(SerializeEach(rest), offset) == PackEnd(SerializeEach(t.fields), 0)
      decreases rest
    {
      var member := SerializeType(rest.head.typ);
      var spacing := Padding(offset, AlignmentOf(member));
      offset := offset + spacing;
      extent := extent + spacing;
      AppendOne(members, Field(offset, member, rest.head.name),
                Pack(SerializeEach(rest.tail), offset + Buffersize(member)));
      members := Append(members, Cons(Field(offset, member, rest.head.name), Nil));
      offset := offset + Buffersize(member);
      extent := extent + Buffersize(member);
      align := Max(align, AlignmentOf(member));
      rest := rest.tail;
    }
    AppendNil(members);
    extent := extent + Padding(offset, align);
    ser := Compound(t.form, members, extent);
    SerializeCompound(t);
  }

  lemma SerializeCompound(t: Type)
    requires t.Compound?
    ensures var fields := SerializeEach(t.fields);
      SerializeType(t) == Compound(t.form, Pack(fields, 0), AlignUp(PackEnd(fields, 0), FieldsAlignment(fields)))
  {
  }
}
