/** The dense copies as the source runs them: loops that write a buffer in place and move cursors. */
module DenseCopyCode {
  import opened Alignment
  import opened Datatypes
  import opened DensifyAlgebra
  import opened DenseCopy
  import opened DenseCopyBounds
  import opened DenseCopyLayout
  import opened DenseCopyExact

  method CopyBytes(dst: array<Byte>, to: nat, src: seq<Byte>, from: nat, n: nat) returns (cursor: nat)
    requires to + n <= dst.Length && from + n <= |src|
    modifies dst
    ensures Copied(dst[..], cursor) == old(Memcpy(dst[..], to, src, from, n))
  {
    var i := 0;
    while i < n
      invariant i <= n
      invariant dst[..] == old(dst[..to]) + src[from..from + i] + old(dst[to + i..])
    {
      dst[to + i] := src[from + i];
      i := i + 1;
    }
    cursor := to + n;
  }

  /** `std::align` with no size to reserve: the first place at or after the cursor whose address is aligned. */
  method AlignCursor(base: nat, cursor: nat, align: Pow2) returns (r: nat)
    ensures Aligned(base + r, align) && cursor <= r < cursor + align
    ensures forall x :: base + cursor <= x && Aligned(x, align) ==> base + r <= x
  {
    hide Aligned;
    r := cursor + (align - (base + cursor) % align) % align;
    PaddingIsIdiom(base + cursor, align);
    assert base + r == AlignUp(base + cursor, align);
    AlignUpBounds(base + cursor, align);
    forall x | base + cursor <= x && Aligned(x, align)
      ensures base + r <= x
    {
      AlignUpLeast(base + cursor, align, x);
    }
  }

  /** There is only one such place. */
  lemma AlignedPlace(base: nat, cursor: nat, align: Pow2, r: nat)
    requires Aligned(base + r, align) && cursor <= r < cursor + align
    ensures r == cursor + Padding(base + cursor, align)
  {
    var a := AlignUp(base + cursor, align);
    AlignUpBounds(base + cursor, align);
    AlignUpLeast(base + cursor, align, base + r);
    if a < base + r {
      AlignedAdd(a, base + r - a, align);
      DivModUnique(base + r - a, align, 0, base + r - a);
      assert false;
    }
  }

  method DataToDenseCopy(t: Type, dst: array<Byte>, base: nat, to: nat, src: seq<Byte>, from: nat)
    returns (cursor: nat)
    requires ToDense(t, dst[..], base, to, src, from).Copied?
    modifies dst
    ensures Copied(dst[..], cursor) == old(ToDense(t, dst[..], base, to, src, from))
    decreases t
  {
    hide Padding, Span, Aligned, AlignmentOf, IsDense, Buffersize, Datasize;
    match t {
      case Scalar(_, bytes, _) => cursor := CopyBytes(dst, to, src, from, bytes);
      case Pointer(_) => cursor := CopyBytes(dst, to, src, from, ADDRESS_SIZE);
      case Array(element, _, start, subsize) =>
        var at: nat := from + Span(start, Buffersize(element));
        if IsDense(element) {
          cursor := CopyBytes(dst, to, src, at, Datasize(t));
        } else {
          cursor := to;
          var done := 0;
          while done < subsize
            invariant done <= subsize
            invariant ToDenseElements(element, subsize - done, dst[..], base, cursor, src, at)
                      == old(ToDense(t, dst[..], base, to, src, from))
          {
            var place := AlignCursor(base, cursor, AlignmentOf(element));
            AlignedPlace(base, cursor, AlignmentOf(element), place);
            cursor := DataToDenseCopy(element, dst, base, place, src, at);
            at := at + Buffersize(element);
            done := done + 1;
          }
        }
      case Compound(_, fields, extent) =>
        if IsDense(t) {
          cursor := CopyBytes(dst, to, src, from, extent);
        } else {
          cursor := to;
          var rest := fields;
          while rest.Cons?
            invariant rest == fields || rest < fields
            invariant ToDenseFields(rest, dst[..], base, cursor, src, from)
                 == old(ToDense(t, dst[..], base, to, src, from))
            decreases rest
          {
            var place := AlignCursor(base, cursor, AlignmentOf(rest.head.typ));
            AlignedPlace(base, cursor, AlignmentOf(rest.head.typ), place);
            cursor := DataToDenseCopy(rest.head.typ, dst, base, place, src, from + rest.head.offset);
            rest := rest.tail;
          }
        }
    }
  }

  method DataFromDenseCopy(t: Type, dst: array<Byte>, base: nat, to: nat, src: seq<Byte>, sbase: nat, from: nat)
    returns (cursor: nat)
    requires FromDense(t, dst[..], base, to, src, sbase, from).Copied?
    modifies dst
    ensures Copied(dst[..], cursor) == old(FromDense(t, dst[..], base, to, src, sbase, from))
    decreases t, 1
  {
    hide Padding, Span, Aligned, AlignmentOf, IsDense, Buffersize, Datasize, FromDenseElements, FromDenseFields;
    match t {
      case Scalar(_, bytes, _) => cursor := CopyBytes(dst, to, src, from, bytes);
      case Pointer(_) => cursor := CopyBytes(dst, to, src, from, ADDRESS_SIZE);
      case Array(element, _, start, subsize) =>
        var first: nat := to + Span(start, Buffersize(element));
        if IsDense(element) {
          cursor := CopyBytes(dst, first, src, from, Datasize(t));
        } else {
          cursor := EachFromDenseCopy(element, subsize, dst, base, first, src, sbase, from);
        }
        cursor := to + Buffersize(t);
      case Compound(_, fields, extent) =>
        if IsDense(t) {
          cursor := CopyBytes(dst, to, src, from, extent);
        } else {
          cursor := MembersFromDenseCopy(fields, dst, base, to, src, sbase, from);
        }
        cursor := to + extent;
    }
  }

  /** The loop over the elements of an array. */
  method EachFromDenseCopy(element: Type, subsize: nat, dst: array<Byte>, base: nat, to: nat, src: seq<Byte>,
                           sbase: nat, from: nat)
    returns (cursor: nat)
    requires FromDenseElements(element, subsize, dst[..], base, to, src, sbase, from).Copied?
    modifies dst
    ensures Copied(dst[..], cursor) == old(FromDenseElements(element, subsize, dst[..], base, to, src, sbase, from))
    decreases element, 2
  {
    hide Padding, Aligned, AlignmentOf, Datasize, FromDense;
    cursor := to;
    var at: nat, done := from, 0;
    while done < subsize
      invariant done <= subsize
      invariant FromDenseElements(element, subsize - done, dst[..], base, cursor, src, sbase, at)
                == old(FromDenseElements(element, subsize, dst[..], base, to, src, sbase, from))
    {
      var place := AlignCursor(base, cursor, AlignmentOf(element));
      AlignedPlace(base, cursor, AlignmentOf(element), place);
      var source := AlignCursor(sbase, at, AlignmentOf(element));
      AlignedPlace(sbase, at, AlignmentOf(element), source);
      cursor := DataFromDenseCopy(element, dst, base, place, src, sbase, source);
      at := source + Datasize(element);
      done := done + 1;
    }
  }

  /** The loop over the members of a record. */
  method MembersFromDenseCopy(fields: Fields, dst: array<Byte>, base: nat, to: nat, src: seq<Byte>, sbase: nat,
                              from: nat)
    returns (cursor: nat)
    requires FromDenseFields(fields, dst[..], base, to, src, sbase, from).Copied?
    modifies dst
    ensures Copied(dst[..], cursor) == old(FromDenseFields(fields, dst[..], base, to, src, sbase, from))
    decreases fields, 2
  {
    hide Padding, Aligned, AlignmentOf, Datasize, FromDense;
    var at: nat, rest := from, fields;
    while rest.Cons?
      invariant rest == fields || rest < fields
      invariant FromDenseFields(rest, dst[..], base, to, src, sbase, at)
                == old(FromDenseFields(fields, dst[..], base, to, src, sbase, from))
      decreases rest
    {
      var source := AlignCursor(sbase, at, AlignmentOf(rest.head.typ));
      AlignedPlace(sbase, at, AlignmentOf(rest.head.typ), source);
      cursor := DataFromDenseCopy(rest.head.typ, dst, base, to + rest.head.offset, src, sbase, source);
      at := source + Datasize(rest.head.typ);
      rest := rest.tail;
    }
    cursor := to;
  }

  /** `do_copy`: a fresh buffer, over-allocated so that an aligned start always fits, holding the
      dense image. `address` is where the allocator put the buffer and `handle` the address later
      given back to it: `std::align` has moved it, so it is the allocated one only when that was
      aligned already. */
  method DoCopy(t: Type, src: seq<Byte>, from: nat, address: nat)
    returns (copied: bool, buffer: array<Byte>, data: nat, handle: nat)
    requires WellFormed(t) && from + Buffersize(t) <= |src|
    ensures fresh(buffer)
    ensures copied <==> Buffersize(Densify(t)) > 0
    ensures copied ==>
      && data + Buffersize(Densify(t)) <= buffer.Length == Buffersize(Densify(t)) + AlignmentOf(t) - 1
      && Aligned(address + data, AlignmentOf(t))
      && (InPlace(true, t) ==> DenseImage(t, buffer[..], data, src, from))
      && (handle == address <==> Aligned(address, AlignmentOf(t)))
  {
    hide Padding, Aligned, ToDense, Densify, DenseImage, WellFormed, InPlace, KeptOutside;
    var dense := Densify(t);
    DensifyKeepsAlignmentAndData(t);
    copied, data, handle := Buffersize(dense) > 0, 0, address;
    if !copied {
      buffer := new Byte[0];
      return;
    }
    buffer := new Byte[Buffersize(dense) + (AlignmentOf(dense) - 1)](_ => 0);
    data := AlignCursor(address, 0, AlignmentOf(dense));
    assert Aligned(address, AlignmentOf(dense)) ==> address + data <= address;
    handle := address + data;
    ToDenseBounded(t, buffer[..], address, data, src, from);
    if InPlace(true, t) {
      ToDenseImage(t, buffer[..], address, data, src, from);
    }
    var _ := DataToDenseCopy(t, buffer, address, data, src, from);
  }
}
