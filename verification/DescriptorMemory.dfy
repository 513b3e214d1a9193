/** What the memory behind a descriptor holds: the copy that a reclaim leaves behind the placeholder is a dense image of
    the value at that time, and stays it. Addresses are positions in one sequence of bytes. */
module DescriptorMemory {
  import opened Options
  import opened Alignment
  import opened Datatypes
  import opened DenseCopy
  import opened DenseCopyBounds
  import opened DenseCopyLayout
  import opened DenseCopyExact
  import opened Leaves
  import opened References
  import opened ReferenceInvariant
  import opened ReferenceRuns
  import opened Descriptor
  import opened DescriptorOps
  import opened DescriptorStack
  import opened DescriptorRuns

  /** `types` are the types of the data and `made` the data whose memory the library allocated. */
  datatype World = World(desc: Desc, types: map<Id, Type>, memory: seq<Byte>, made: set<Id>)

  /** A call or an operation on references, with the type of the data it makes, or a program writing to memory. */
  datatype Action = Call(event: Event, typ: Type) | Write(at: nat, bytes: seq<Byte>)

  /** Every value that is referenced has a type and is in memory. */
  ghost predicate Sane(w: World) {
    && Valid(w.desc)
    && forall e | Live(w.desc.store, e) ::
         e in w.types && w.desc.store.datas[e].address + Buffersize(w.types[e]) <= |w.memory|
  }

  predicate Apart(a: nat, n: nat, b: nat, m: nat) {
    a + n <= b || b + m <= a
  }

  // ----- what is done -----

  /** The data that an event makes for the user. */
  function NewData(e: Event): Option<(Id, nat)> {
    match e
    case Share(n, address, _, _, _, _) => Some((n.data, address))
    case Act(op) => if op.Wrap? || op.Sub? then Some((op.d, op.address)) else None
    case _ => None
  }

  /** Memory for the copy: aligned, and not that of anything referenced. */
  ghost predicate Room(w: World, to: nat, t: Type) {
    && Aligned(to, AlignmentOf(t)) && to + Buffersize(Densify(t)) <= |w.memory|
    && forall e | Live(w.desc.store, e) && e in w.types ::
         Apart(to, Buffersize(Densify(t)), w.desc.store.datas[e].address, Buffersize(w.types[e]))
  }

  /** The user gives memory that holds values of the type, the allocator gives room for the copy, and what the library
      allocated is written only while a reference gives access to it. */
  ghost predicate Allowed(w: World, a: Action)
    requires Valid(w.desc) && Sound(w.desc.store)
  {
    match a
    case Call(e, typ) =>
      && Enabled(w.desc, e)
      && (NewData(e).Some? ==> NewData(e).value.1 + Buffersize(typ) <= |w.memory|)
      && (e.Share? ==> (e.sized <==> Datasize(typ) > 0))
      && (LeavesPlace(w.desc, e) ==>
            var data := EntryOf(w.desc.store, w.desc.holders[1]).data;
            && data in w.types
            && (e.sized <==> Buffersize(Densify(w.types[data])) > 0)
            && Room(w, e.names.address, w.types[data]))
    case Write(at, bytes) =>
      && at + |bytes| <= |w.memory|
      && forall e | e in w.made && Live(w.desc.store, e) && e in w.types ::
           || Apart(at, |bytes|, w.desc.store.datas[e].address, Buffersize(w.types[e]))
           || Writers(w.desc.store, w.desc.store.datas[e].buffer) != {}
  }

  /** The memory once the value at `from` is copied to `to`. */
  ghost function DenseCopied(t: Type, memory: seq<Byte>, to: nat, from: nat): seq<Byte> {
    var r := ToDense(t, memory, 0, to, memory, from);
    if r.Copied? then r.bytes else memory
  }

  ghost function Perform(w: World, a: Action): World
    requires Valid(w.desc) && Sound(w.desc.store) && Allowed(w, a)
  {
    match a
    case Call(e, typ) =>
      var d := Step(w.desc, e).0;
      if Copies(w.desc, e) then
        var x, n := EntryOf(w.desc.store, w.desc.holders[1]), e.names;
        var t := w.types[x.data];
        World(d, w.types[n.data := Densify(t)], DenseCopied(t, w.memory, n.address, x.address), w.made + {n.data})
      else if NewData(e).Some? then
        World(d, w.types[NewData(e).value.0 := typ], w.memory, w.made - {NewData(e).value.0})
      else w.(desc := d)
    case Write(at, bytes) => w.(memory := w.memory[..at] + bytes + w.memory[at + |bytes|..])
  }

  /** A program writes just the bytes it writes. */
  lemma WriteWrites(w: World, at: nat, bytes: seq<Byte>, i: nat)
    requires Valid(w.desc) && Sound(w.desc.store) && Allowed(w, Write(at, bytes)) && i < |w.memory|
    ensures var w' := Perform(w, Write(at, bytes));
      && w'.desc == w.desc && w'.types == w.types && w'.made == w.made && |w'.memory| == |w.memory|
      && w'.memory[i] == if at <= i < at + |bytes| then bytes[i - at] else w.memory[i]
  {
    hide Valid, Sound;
  }

  // ----- the copy -----

  /** The copy holds every leaf of the value where the densified type has it, for every type in place for writing, and
      nothing outside its room is written. */
  lemma CopyIsDenseImage(t: Type, memory: seq<Byte>, to: nat, from: nat)
    requires WellFormed(t) && Aligned(to, AlignmentOf(t)) && to + Buffersize(Densify(t)) <= |memory|
    requires from + Buffersize(t) <= |memory|
    ensures KeptOutside(memory, DenseCopied(t, memory, to, from), to, to + Buffersize(Densify(t)))
    ensures InPlace(true, t) ==> DenseImage(t, DenseCopied(t, memory, to, from), to, memory, from)
  {
    hide ToDense, DenseImage, WellFormed, InPlace, Buffersize, Densify, AlignmentOf, KeptOutside, Aligned, IsDense,
      DenseSpan, Datasize;
    ToDenseBounded(t, memory, 0, to, memory, from);
    if InPlace(true, t) {
      ToDenseImage(t, memory, 0, to, memory, from);
    }
  }

  /** The placeholder holds the data. */
  ghost predicate Held(w: World, place: Id, x: Entry) {
    && Valid(w.desc) && Sound(w.desc.store)
    && w.desc.holders != [] && w.desc.holders[0] == place
    && x.Entry? && w.desc.store.refs[place] == Ref(true, false, Some(x.data)) && EntryOf(w.desc.store, place) == x
    && x.data in w.made && x.data in w.types
  }

  ghost predicate SameBlock(m: seq<Byte>, m': seq<Byte>, a: nat, n: nat) {
    a + n <= |m| == |m'| && m'[a..a + n] == m[a..a + n]
  }

  /** A reclaim that can copy the value leaves the placeholder on the dense image of what the user's memory holds. */
  lemma ReclaimMakesImage(w: World, a: Action)
    requires Sane(w) && Sound(w.desc.store) && Allowed(w, a) && a.Call? && Copies(w.desc, a.event)
    requires WellFormed(w.types[EntryOf(w.desc.store, w.desc.holders[1]).data])
    ensures var w', n, x := Perform(w, a), a.event.names, EntryOf(w.desc.store, w.desc.holders[1]);
      var t := w.types[x.data];
      && Held(w', n.place, Entry(n.data, n.buffer, n.address)) && w'.types[n.data] == Densify(t)
      && KeptOutside(w.memory, w'.memory, n.address, n.address + Buffersize(Densify(t)))
      && (InPlace(true, t) ==> DenseImage(t, w'.memory, n.address, w.memory, x.address))
  {
    hide Inv, Sound, Reclaim, DenseImage, WellFormed, InPlace, Buffersize, Densify, AlignmentOf, KeptOutside, Aligned,
      DenseCopied, Writers, Room;
    var x := EntryOf(w.desc.store, w.desc.holders[1]);
    EntryIsLive(w.desc.store, w.desc.holders[1]);
    assert Room(w, a.event.names.address, w.types[x.data]);
    RoomFits(w, a.event.names.address, w.types[x.data]);
    CopyIsDenseImage(w.types[x.data], w.memory, a.event.names.address, x.address);
    PlaceHolds(w.desc, a.event, Step(w.desc, a.event).0);
  }

  lemma RoomFits(w: World, to: nat, t: Type)
    requires Room(w, to, t)
    ensures Aligned(to, AlignmentOf(t)) && to + Buffersize(Densify(t)) <= |w.memory|
  {
  }

  lemma EntryIsLive(s: State, r: Id)
    requires Sound(s) && r in s.refs && EntryOf(s, r).Entry?
    ensures var x := EntryOf(s, r);
      Live(s, x.data) && s.datas[x.data] == Data(x.buffer, x.address)
  {
  }

  /** The placeholder that a reclaim with a copy leaves. */
  lemma PlaceHolds(d: Desc, e: Event, d': Desc)
    requires Valid(d) && Sound(d.store) && e.Take? && Free(d.store, e.names) && Copies(d, e)
    requires d' == Reclaim(d, e.names, e.sized, true).0
    ensures Valid(d') && Sound(d'.store) && d'.holders == [e.names.place]
    ensures d'.store.refs[d'.holders[0]] == Ref(true, false, Some(e.names.data))
    ensures EntryOf(d'.store, d'.holders[0]) == Entry(e.names.data, e.names.buffer, e.names.address)
  {
    hide Inv, Sound, Reclaim, Writers;
    PopIff(d, e.names, e.sized, true);
    ReclaimKeepsCopy(d, e.names, e.sized, d');
  }

  // ----- the copy stays -----

  /** While the placeholder can be read, nobody can write. */
  lemma NoWriter(s: State, place: Id, b: Id)
    requires Inv(s) && Linked(s, place, b) && s.refs[place].read && !s.refs[place].write && b in s.buffers
    ensures Writers(s, b) == {}
  {
    hide Alive;
    CoreAt(s, b);
    assert place in Holders(s, b);
    forall q
      ensures q !in Writers(s, b)
    {
      assert q in Writers(s, b) ==> Holders(s, b) == {q};
    }
  }

  /** No action changes what is behind a placeholder that stays. */
  lemma ActionKeepsCopy(w: World, a: Action, place: Id, x: Entry)
    requires Held(w, place, x) && Allowed(w, a) && Held(Perform(w, a), place, x)
    requires x.address + Buffersize(w.types[x.data]) <= |w.memory|
    ensures var w' := Perform(w, a);
      w'.types[x.data] == w.types[x.data] && SameBlock(w.memory, w'.memory, x.address, Buffersize(w.types[x.data]))
  {
    hide Inv, Reclaim, ShareData, ShareRef, ReleaseTop, Apply, Applies, Buffersize, Densify, DenseCopied, Writers;
    var s := w.desc.store;
    match a
    case Call(e, _) =>
      if Copies(w.desc, e) {
        PopIff(w.desc, e.names, e.sized, true);
        assert false;
      } else if NewData(e).Some? {
        NewDataIsNew(w.desc, e);
      }
    case Write(at, bytes) =>
      InvSound(s);
      NoWriter(s, place, x.buffer);
      assert Live(s, x.data);
      SliceKept(w.memory, at, bytes, x.address, Buffersize(w.types[x.data]));
  }

  lemma SliceKept(m: seq<Byte>, at: nat, bytes: seq<Byte>, a: nat, n: nat)
    requires at + |bytes| <= |m| && a + n <= |m| && Apart(at, |bytes|, a, n)
    ensures SameBlock(m, m[..at] + bytes + m[at + |bytes|..], a, n)
  {
    var m' := m[..at] + bytes + m[at + |bytes|..];
    forall i | a <= i < a + n
      ensures m'[i] == m[i]
    {
    }
    assert m'[a..a + n] == m[a..a + n];
  }

  lemma NewDataIsNew(d: Desc, e: Event)
    requires Valid(d) && Enabled(d, e) && NewData(e).Some?
    ensures NewData(e).value.0 !in d.store.datas
  {
    hide Inv;
  }

  // ----- runs -----

  lemma PerformValid(w: World, a: Action)
    requires Valid(w.desc) && Sound(w.desc.store) && Allowed(w, a)
    ensures Valid(Perform(w, a).desc) && Sound(Perform(w, a).desc.store)
  {
    hide Inv, Step, Enabled, Sound, Room, Copies, LeavesPlace, Buffersize, Densify, WellFormed;
    if a.Call? {
      StepValid(w.desc, a.event);
      InvSound(Step(w.desc, a.event).0.store);
    }
  }

  ghost predicate AllowedAll(w: World, run: seq<Action>)
    requires Valid(w.desc) && Sound(w.desc.store)
    decreases |run|
  {
    run != [] ==> Allowed(w, run[0]) && (PerformValid(w, run[0]); AllowedAll(Perform(w, run[0]), run[1..]))
  }

  ghost function PerformAll(w: World, run: seq<Action>): World
    requires Valid(w.desc) && Sound(w.desc.store) && AllowedAll(w, run)
    decreases |run|
  {
    if run == [] then w
    else
      PerformValid(w, run[0]);
      PerformAll(Perform(w, run[0]), run[1..])
  }

  /** The placeholder is never replaced and its data never given back. */
  ghost predicate HeldAll(w: World, run: seq<Action>, place: Id, x: Entry)
    requires Valid(w.desc) && Sound(w.desc.store) && AllowedAll(w, run)
    decreases |run|
  {
    && Held(w, place, x)
    && (run != [] ==> (PerformValid(w, run[0]); HeldAll(Perform(w, run[0]), run[1..], place, x)))
  }

  lemma {:induction false} CopyStays(w: World, run: seq<Action>, place: Id, x: Entry)
    requires Valid(w.desc) && Sound(w.desc.store) && AllowedAll(w, run) && HeldAll(w, run, place, x)
    requires x.address + Buffersize(w.types[x.data]) <= |w.memory|
    ensures var w' := PerformAll(w, run);
      SameBlock(w.memory, w'.memory, x.address, Buffersize(w.types[x.data]))
    decreases |run|
  {
    hide Valid, Sound, Perform, Allowed, Buffersize, EntryOf;
    if run != [] {
      PerformValid(w, run[0]);
      NowHeld(Perform(w, run[0]), run[1..], place, x);
      ActionKeepsCopy(w, run[0], place, x);
      CopyStays(Perform(w, run[0]), run[1..], place, x);
    }
  }

  lemma NowHeld(w: World, run: seq<Action>, place: Id, x: Entry)
    requires Valid(w.desc) && Sound(w.desc.store) && AllowedAll(w, run) && HeldAll(w, run, place, x)
    ensures Held(w, place, x)
  {
  }

  lemma ImageKept(t: Type, m: seq<Byte>, m': seq<Byte>, to: nat, src: seq<Byte>, from: nat)
    requires WellFormed(t) && DenseImage(t, m, to, src, from) && SameBlock(m, m', to, Buffersize(Densify(t)))
    ensures DenseImage(t, m', to, src, from)
  {
    hide WellFormed, IsLeaf, OffsetOf, DenseOffset, Densify, Buffersize;
    forall p | IsLeaf(t, p)
      ensures SameAt(m', to + DenseOffset(t, p), src, from + OffsetOf(t, p))
    {
      DenseOffsetInside(t, p);
      assert SameAt(m, to + DenseOffset(t, p), src, from + OffsetOf(t, p));
      var o, n := DenseOffset(t, p), Buffersize(Densify(t));
      assert m'[to..to + n][o] == m[to..to + n][o];
    }
  }

  /** What a metadata descriptor yields after a reclaim is the dense image of what the user's memory held then: the user
      may write to that memory, and anything else may be shared, released, reclaimed and written, for as long as the
      placeholder is not replaced and its data not given back. */
  lemma PlaceholderKeepsImage(w: World, a: Action, run: seq<Action>)
    requires Sane(w) && Sound(w.desc.store) && Allowed(w, a) && a.Call? && Copies(w.desc, a.event)
    requires Valid(Perform(w, a).desc) && Sound(Perform(w, a).desc.store) && AllowedAll(Perform(w, a), run)
    requires var n := a.event.names;
      HeldAll(Perform(w, a), run, n.place, Entry(n.data, n.buffer, n.address))
    requires WellFormed(w.types[EntryOf(w.desc.store, w.desc.holders[1]).data])
    ensures var w', n, x := PerformAll(Perform(w, a), run), a.event.names, EntryOf(w.desc.store, w.desc.holders[1]);
      InPlace(true, w.types[x.data]) ==> DenseImage(w.types[x.data], w'.memory, n.address, w.memory, x.address)
  {
    hide Inv, Sound, Perform, AllowedAll, PerformAll, HeldAll, Buffersize, Densify, InPlace, DenseImage, WellFormed,
      EntryOf, SameBlock, KeptOutside, Held, Allowed, Writers;
    CopySource(w, a);
    ReclaimMakesImage(w, a);
    var n, x := a.event.names, EntryOf(w.desc.store, w.desc.holders[1]);
    var t, w1 := w.types[x.data], Perform(w, a);
    SameSize(w.memory, w1.memory, n.address, n.address + Buffersize(Densify(t)));
    CopyStays(w1, run, n.place, Entry(n.data, n.buffer, n.address));
    if InPlace(true, t) {
      ImageKept(t, w1.memory, PerformAll(w1, run).memory, n.address, w.memory, x.address);
    }
  }

  lemma SameSize(m: seq<Byte>, m': seq<Byte>, to: nat, end: nat)
    requires KeptOutside(m, m', to, end)
    ensures |m'| == |m|
  {
  }

  /** The value that is copied, and the room for it. */
  lemma CopySource(w: World, a: Action)
    requires Sane(w) && Sound(w.desc.store) && Allowed(w, a) && a.Call? && Copies(w.desc, a.event)
    ensures var x, n := EntryOf(w.desc.store, w.desc.holders[1]), a.event.names;
      x.Entry? && x.data in w.types
      && n.address + Buffersize(Densify(w.types[x.data])) <= |w.memory|
  {
    hide Inv, Sound, Enabled, WellFormed, Buffersize, Densify, Aligned, AlignmentOf;
    EntryIsLive(w.desc.store, w.desc.holders[1]);
  }

  // ----- values stay in memory -----

  lemma {:induction false} ToDenseLength(t: Type, dst: seq<Byte>, base: nat, to: nat, src: seq<Byte>, from: nat)
    ensures var r := ToDense(t, dst, base, to, src, from);
      r.Copied? ==> |r.bytes| == |dst|
    decreases t, 0
  {
    hide Span, Padding, Datasize, Buffersize, IsDense;
    match t
    case Scalar(_, _, _) =>
    case Pointer(_) =>
    case Array(element, _, start, subsize) =>
      if !IsDense(element) {
        ToDenseElementsLength(element, subsize, dst, base, to, src, from + Span(start, Buffersize(element)));
      }
    case Compound(_, fields, _) => if !IsDense(t) { ToDenseFieldsLength(fields, dst, base, to, src, from); }
  }

  lemma {:induction false} ToDenseElementsLength(t: Type, n: nat, dst: seq<Byte>, base: nat, to: nat, src: seq<Byte>,
                                                 from: nat)
    ensures var r := ToDenseElements(t, n, dst, base, to, src, from);
      r.Copied? ==> |r.bytes| == |dst|
    decreases t, 1, n
  {
    hide ToDense, Padding, Buffersize, AlignmentOf;
    if n > 0 {
      var at := to + Padding(base + to, AlignmentOf(t));
      ToDenseLength(t, dst, base, at, src, from);
      var r := ToDense(t, dst, base, at, src, from);
      if r.Copied? { ToDenseElementsLength(t, n - 1, r.bytes, base, r.cursor, src, from + Buffersize(t)); }
    }
  }

  lemma {:induction false} ToDenseFieldsLength(fs: Fields, dst: seq<Byte>, base: nat, to: nat, src: seq<Byte>,
                                               from: nat)
    ensures var r := ToDenseFields(fs, dst, base, to, src, from);
      r.Copied? ==> |r.bytes| == |dst|
    decreases fs, 1
  {
    hide ToDense, Padding, Buffersize, AlignmentOf;
    match fs
    case Nil =>
    case Cons(f, rest) =>
      var at := to + Padding(base + to, AlignmentOf(f.typ));
      ToDenseLength(f.typ, dst, base, at, src, from + f.offset);
      var r := ToDense(f.typ, dst, base, at, src, from + f.offset);
      if r.Copied? { ToDenseFieldsLength(rest, r.bytes, base, r.cursor, src, from); }
  }

  lemma MemoryLength(w: World, a: Action)
    requires Valid(w.desc) && Sound(w.desc.store) && Allowed(w, a)
    ensures |Perform(w, a).memory| == |w.memory|
  {
    hide Inv, Sound, Step, Enabled, ToDense, Buffersize, Densify, Room, Writers;
    if a.Call? && Copies(w.desc, a.event) {
      var x := EntryOf(w.desc.store, w.desc.holders[1]);
      ToDenseLength(w.types[x.data], w.memory, 0, a.event.names.address, w.memory, x.address);
    }
  }

  /** Data that was there keeps its type. */
  lemma KeptType(w: World, a: Action, e: Id)
    requires Valid(w.desc) && Sound(w.desc.store) && Allowed(w, a) && a.Call? && e in w.desc.store.datas && e in w.types
    ensures e in Perform(w, a).types && Perform(w, a).types[e] == w.types[e]
  {
    hide Inv, Sound, Reclaim, ShareData, ShareRef, ReleaseTop, Apply, Buffersize, Densify, Room, DenseCopied, Writers;
    if !Copies(w.desc, a.event) && NewData(a.event).Some? {
      NewDataIsNew(w.desc, a.event);
    }
  }

  /** Data that the action makes has a type and is in memory. */
  lemma MadeType(w: World, a: Action, e: Id, address: nat)
    requires Valid(w.desc) && Sound(w.desc.store) && Allowed(w, a) && a.Call? && (e, address) in MadeBy(w.desc, a.event)
    ensures e in Perform(w, a).types && address + Buffersize(Perform(w, a).types[e]) <= |w.memory|
  {
    hide Inv, Sound, Reclaim, ShareData, ShareRef, ReleaseTop, Apply, Applies, Buffersize, Densify, DenseCopied,
      Writers, Aligned, AlignmentOf;
  }

  /** After every action, every value that is referenced still has a type and is in memory. */
  lemma PerformSane(w: World, a: Action)
    requires Sane(w) && Sound(w.desc.store) && Allowed(w, a)
    ensures Sane(Perform(w, a))
  {
    hide Inv, Sound, Buffersize, Densify, Step, Enabled, Copies, LeavesPlace, Room, DenseCopied, MadeBy, Reaches;
    PerformValid(w, a);
    var w' := Perform(w, a);
    MemoryLength(w, a);
    forall e | Live(w'.desc.store, e)
      ensures e in w'.types
      ensures w'.desc.store.datas[e].address + Buffersize(w'.types[e]) <= |w'.memory|
    {
      if a.Call? {
        StepReaches(w.desc, a.event);
        ReachesLive(w.desc.store, w'.desc.store, MadeBy(w.desc, a.event), e);
        var made := (e, w'.desc.store.datas[e].address);
        if made in MadeBy(w.desc, a.event) {
          MadeType(w, a, made.0, made.1);
        } else {
          assert Live(w.desc.store, e);
          KeptType(w, a, e);
        }
      }
    }
  }

  lemma {:induction false} RunSane(w: World, run: seq<Action>)
    requires Sane(w) && Sound(w.desc.store) && AllowedAll(w, run)
    ensures Sane(PerformAll(w, run))
    decreases |run|
  {
    hide Sane, Valid, Sound, Perform, Allowed;
    if run != [] {
      SaneValid(w);
      PerformValid(w, run[0]);
      PerformSane(w, run[0]);
      RunSane(Perform(w, run[0]), run[1..]);
    }
  }

  lemma SaneValid(w: World)
    requires Sane(w)
    ensures Valid(w.desc)
  {
  }

  /** No call writes to a value that is referenced. */
  lemma CallsWriteNoValue(w: World, a: Action, e: Id)
    requires Sane(w) && Sound(w.desc.store) && Allowed(w, a) && a.Call? && Live(w.desc.store, e)
    requires Copies(w.desc, a.event) ==> WellFormed(w.types[EntryOf(w.desc.store, w.desc.holders[1]).data])
    ensures SameBlock(w.memory, Perform(w, a).memory, w.desc.store.datas[e].address, Buffersize(w.types[e]))
  {
    hide Inv, Sound, Step, Enabled, WellFormed, Buffersize, Densify, DenseCopied, Writers, Aligned, AlignmentOf;
    if Copies(w.desc, a.event) {
      var x, n := EntryOf(w.desc.store, w.desc.holders[1]), a.event.names;
      EntryIsLive(w.desc.store, w.desc.holders[1]);
      CopyIsDenseImage(w.types[x.data], w.memory, n.address, x.address);
    }
  }
}
