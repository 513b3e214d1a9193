/** Whole runs of a descriptor: whatever is shared, shared again, released and reclaimed, and whatever happens to the
    other references in between, a descriptor behaves as a stack of the data shared. */
module DescriptorStack {
  import opened References
  import opened ReferenceInvariant
  import opened ReferenceRuns
  import opened Descriptor
  import opened DescriptorOps

  /** The calls on the descriptor, `ok` telling whether the callbacks succeed, and any operation on references that are
      not its own: sharing the user's memory, sharing a reference, releasing, reclaiming. */
  datatype Event =
    | Share(objects: Fresh, address: nat, sized: bool, read: bool, write: bool, ok: bool)
    | Lend(h: Id, from: Id, read: bool, write: bool, ok: bool)
    | Pop(names: Names, ok: bool)
    | Take(names: Names, sized: bool, ok: bool)
    | Act(op: Op)

  ghost predicate Enabled(d: Desc, e: Event)
    requires Valid(d)
  {
    match e
    case Share(n, _, _, _, _, _) => Unused(d.store, n)
    case Lend(h, from, _, _, _) => from in d.store.refs && h !in d.store.refs
    case Pop(n, _) => Free(d.store, n)
    case Take(n, _, _) => Free(d.store, n)
    case Act(op) => Applies(d.store, op) && forall h | h in d.holders :: h !in Touches(op)
  }

  ghost function Step(d: Desc, e: Event): (Desc, Outcome)
    requires Valid(d) && Enabled(d, e)
  {
    match e
    case Share(n, address, sized, read, write, ok) => ShareData(d, n, address, sized, read, write, ok)
    case Lend(h, from, read, write, ok) => ShareRef(d, h, from, read, write, ok)
    case Pop(n, ok) => ReleaseTop(d, n, ok)
    case Take(n, sized, ok) => Reclaim(d, n, sized, ok)
    case Act(op) => (d.(store := Apply(d.store, op)), Done(0))
  }

  // ----- the stack of entries -----

  function Base(metadata: bool): nat {
    if metadata then 1 else 0
  }

  /** What the stack shows, except the placeholder of a metadata descriptor. */
  ghost function Stack(d: Desc): (stack: seq<Entry>)
    requires Valid(d)
    ensures |stack| == |d.holders| - Base(d.metadata)
  {
    InvSound(d.store);
    var base := Base(d.metadata);
    seq(|d.holders| - base, i requires 0 <= i < |d.holders| - base => EntryOf(d.store, d.holders[base + i]))
  }

  /** What an event finds outside the descriptor: the entry it deals with and the rights to be had on it. */
  datatype Note = Note(entry: Entry, readable: bool, granted: bool)

  ghost function Observed(d: Desc, e: Event): Note
    requires Valid(d) && Enabled(d, e)
  {
    InvSound(d.store);
    match e
    case Lend(_, from, read, write, _) =>
      Note(EntryOf(d.store, from), Obtainable(d.store, true, false, from),
           IsNull(d.store, from) || Obtainable(d.store, read, write, from))
    case Act(op) => Note(Given(d.store, op), false, false)
    case _ => Note(Gone, false, false)
  }

  function LeftAll(stack: seq<Entry>, given: Entry): seq<Entry> {
    seq(|stack|, i requires 0 <= i < |stack| => Left(stack[i], given))
  }

  predicate Accepted(metadata: bool, e: Event)
    requires e.Share?
  {
    e.ok && !(e.sized && e.address == 0 && (e.read || e.write)) && (metadata ==> e.read && e.address != 0)
  }

  function StepSpec(metadata: bool, stack: seq<Entry>, e: Event, note: Note): (seq<Entry>, Outcome) {
    match e
    case Share(n, address, _, _, _, _) =>
      if Accepted(metadata, e) then (stack + [if address == 0 then Gone else Entry(n.data, n.buffer, address)], Done(0))
      else (stack, Failed)
    case Lend(_, _, read, write, ok) =>
      if ok && (metadata ==> note.readable) && note.granted then
        (stack + [note.entry], Done(if read || write then PointerOf(note.entry) else 0))
      else (stack, Failed)
    case Pop(_, ok) => if ok && stack != [] then (stack[..|stack| - 1], Done(0)) else (stack, Failed)
    case Take(_, _, ok) =>
      if ok && stack != [] then
        var top := stack[|stack| - 1];
        (LeftAll(stack[..|stack| - 1], top), Done(PointerOf(top)))
      else (stack, Failed)
    case Act(_) => (LeftAll(stack, note.entry), Done(0))
  }

  // ----- one event -----

  /** The descriptor with one holder more, the others showing what they did. */
  lemma PushedStack(d: Desc, d': Desc, h: Id, x: Entry)
    requires Valid(d) && Valid(d') && Sound(d.store) && Sound(d'.store)
    requires d'.metadata == d.metadata && d'.holders == d.holders + [h]
    requires forall i | 0 <= i < |d.holders| :: EntryOf(d'.store, d'.holders[i]) == EntryOf(d.store, d.holders[i])
    requires EntryOf(d'.store, d'.holders[|d.holders|]) == x
    ensures Stack(d') == Stack(d) + [x]
  {
    hide Inv, EntryOf, Sound;
  }

  /** Fewer holders, or as many, showing what is left. */
  lemma LeftStack(d: Desc, d': Desc, given: Entry)
    requires Valid(d) && Valid(d') && Sound(d.store) && Sound(d'.store) && d'.metadata == d.metadata
    requires Base(d.metadata) <= |d'.holders| <= |d.holders| && d'.holders == d.holders[..|d'.holders|]
    requires forall i | 0 <= i < |d'.holders| ::
      EntryOf(d'.store, d'.holders[i]) == Left(EntryOf(d.store, d.holders[i]), given)
    ensures Stack(d') == LeftAll(Stack(d)[..|d'.holders| - Base(d.metadata)], given)
  {
    hide Inv, EntryOf, Sound, Left;
  }

  lemma LeftOfNothing(stack: seq<Entry>)
    ensures LeftAll(stack, Gone) == stack
  {
  }

  ghost predicate Refines(d: Desc, e: Event)
    requires Valid(d) && Enabled(d, e)
  {
    var (d', out) := Step(d, e);
    var (stack', out') := StepSpec(d.metadata, Stack(d), e, Observed(d, e));
    Valid(d') && d'.metadata == d.metadata && Stack(d') == stack' && out == out'
  }

  lemma ShareRefines(d: Desc, e: Event)
    requires Valid(d) && e.Share? && Enabled(d, e)
    ensures Refines(d, e)
  {
    hide Inv, Sound, ShareData, SharedState, EntryOf, Stack;
    var n, d' := e.objects, Step(d, e).0;
    InvSound(d.store);
    ShareDataIff(d, n, e.address, e.sized, e.read, e.write, e.ok);
    if Accepted(d.metadata, e) {
      ShareShape(d, n, e.address, e.sized, e.read, e.write, e.ok);
      SharedShape(d.store, n, e.address, e.read, e.write);
      PushedValid(d, d', n.h);
      forall i | 0 <= i < |d.holders|
        ensures EntryOf(d'.store, d'.holders[i]) == EntryOf(d.store, d.holders[i])
      {
        SharedEntry(d.store, n, e.address, e.read, e.write, d.holders[i]);
      }
      PushedStack(d, d', n.h, if e.address == 0 then Gone else Entry(n.data, n.buffer, e.address));
    } else {
      FailedShareIsUndone(d, n, e.address, e.sized, e.read, e.write, e.ok);
      FailedShareValid(d, n, e.address, e.sized, e.read, e.write, e.ok);
      SameStack(d, d');
    }
  }

  lemma SameStack(d: Desc, d': Desc)
    requires Valid(d) && Valid(d') && d'.holders == d.holders && d'.metadata == d.metadata
    requires d'.store.refs == d.store.refs && d'.store.datas == d.store.datas
    ensures Stack(d') == Stack(d)
  {
    hide Inv;
    InvSound(d.store);
    InvSound(d'.store);
    assert forall r | r in d.store.refs :: EntryOf(d'.store, r) == EntryOf(d.store, r);
  }

  lemma LendRefines(d: Desc, e: Event)
    requires Valid(d) && e.Lend? && Enabled(d, e)
    ensures Refines(d, e)
  {
    hide Inv, Sound, Copy, ShareRef, Stack;
    InvSound(d.store);
    ShareRefIff(d, e.h, e.from, e.read, e.write, e.ok);
    var (d', out) := Step(d, e);
    if out.Done? {
      CopyEntry(d.store, e.h, e.read, e.write, e.from);
      InvSound(d'.store);
      forall i | 0 <= i < |d.holders|
        ensures EntryOf(d'.store, d'.holders[i]) == EntryOf(d.store, d.holders[i])
      {
        OpEntry(d.store, CopyFrom(e.h, e.read, e.write, e.from), d.holders[i]);
      }
      PushedStack(d, d', e.h, EntryOf(d.store, e.from));
    }
  }

  lemma PopRefines(d: Desc, e: Event)
    requires Valid(d) && e.Pop? && Enabled(d, e)
    ensures Refines(d, e)
  {
    hide Inv, Sound, Copy, Forget, PopTop, EntryOf, Stack;
    if Shared(d) && e.ok {
      var n, d' := e.names, Step(d, e).0;
      ReleaseValid(d, n);
      InvSound(d.store);
      InvSound(d'.store);
      if !(d.metadata && |d.holders| == 2) {
        var top := d.holders[|d.holders| - 1];
        var s := PopTop(d.store, top, n.oldref);
        PoppedEntry(d.store, top, n.oldref);
        forall i | 0 <= i < |d'.holders|
          ensures EntryOf(d'.store, d'.holders[i]) == Left(EntryOf(d.store, d.holders[i]), Gone)
        {
          PopEntry(d.store, top, n.oldref, d.holders[i]);
          ForgetEntry(s, n.oldref, d.holders[i]);
        }
        LeftStack(d, d', Gone);
        LeftOfNothing(Stack(d)[..|d'.holders| - Base(d.metadata)]);
      } else {
        assert Stack(d') == [] && Stack(d)[..0] == [];
      }
    }
  }

  /** A reclaim returns what the top showed. */
  lemma TakePointer(d: Desc, n: Names, sized: bool)
    requires Valid(d) && Free(d.store, n) && Shared(d)
    ensures Sound(d.store)
    ensures Reclaim(d, n, sized, true).1 == Done(PointerOf(EntryOf(d.store, d.holders[|d.holders| - 1])))
  {
    hide Inv, Sound, Copy, Forget, PopTop, GiveUp, Replace;
    InvSound(d.store);
    PoppedEntry(d.store, d.holders[|d.holders| - 1], n.oldref);
  }

  lemma TakeRefines(d: Desc, e: Event)
    requires Valid(d) && e.Take? && Enabled(d, e)
    ensures Refines(d, e)
  {
    hide Inv, Sound, Copy, Forget, PopTop, GiveUp, Replace, EntryOf, Left;
    if Shared(d) && e.ok {
      var n, d' := e.names, Step(d, e).0;
      ReclaimValid(d, n, e.sized);
      TakePointer(d, n, e.sized);
      InvSound(d'.store);
      var top := d.holders[|d.holders| - 1];
      assert Stack(d)[|Stack(d)| - 1] == EntryOf(d.store, top);
      if !(d.metadata && |d.holders| == 2) {
        var s := PopTop(d.store, top, n.oldref);
        PoppedEntry(d.store, top, n.oldref);
        forall i | 0 <= i < |d'.holders|
          ensures EntryOf(d'.store, d'.holders[i]) == Left(EntryOf(d.store, d.holders[i]), EntryOf(d.store, top))
        {
          PopEntry(d.store, top, n.oldref, d.holders[i]);
          GiveUpEntry(s, n.oldref, d.holders[i]);
        }
        LeftStack(d, d', EntryOf(d.store, top));
      } else {
        assert Stack(d') == [] && Stack(d)[..0] == [];
      }
    }
  }

  lemma ActRefines(d: Desc, e: Event)
    requires Valid(d) && e.Act? && Enabled(d, e)
    ensures Refines(d, e)
  {
    hide Inv, Sound, Applies, Apply, EntryOf, Left, Touches;
    InvSound(d.store);
    ApplyInv(d.store, e.op);
    var d', given := Step(d, e).0, Given(d.store, e.op);
    InvSound(d'.store);
    forall i | 0 <= i < |d.holders|
      ensures d.holders[i] in d'.store.refs
      ensures EntryOf(d'.store, d.holders[i]) == Left(EntryOf(d.store, d.holders[i]), given)
    {
      OpEntry(d.store, e.op, d.holders[i]);
    }
    LeftStack(d, d', given);
    assert Stack(d)[..|Stack(d)|] == Stack(d);
  }

  /** Every event keeps the descriptor valid, with the placeholder of metadata, and does what the stack of entries does:
      it fails or succeeds, returns a pointer, and leaves a stack, in the same way. */
  lemma StepRefines(d: Desc, e: Event)
    requires Valid(d) && Enabled(d, e)
    ensures Refines(d, e)
  {
    hide Valid, Enabled, Refines;
    match e
    case Share(_, _, _, _, _, _) => ShareRefines(d, e);
    case Lend(_, _, _, _, _) => LendRefines(d, e);
    case Pop(_, _) => PopRefines(d, e);
    case Take(_, _, _) => TakeRefines(d, e);
    case Act(_) => ActRefines(d, e);
  }

  /** An event that fails leaves the stack, the references, the data and the buffers as they were; memory whose share
      failed is out of the library's hands and not freed. */
  lemma FailureIsUndone(d: Desc, e: Event)
    requires Valid(d) && Enabled(d, e) && Step(d, e).1.Failed?
    ensures var d' := Step(d, e).0;
      && d'.holders == d.holders && d'.metadata == d.metadata
      && d'.store.refs == d.store.refs && d'.store.datas == d.store.datas
      && (forall b | b in d.store.buffers :: b in d'.store.buffers && d'.store.buffers[b] == d.store.buffers[b])
      && (forall b | b in d'.store.buffers && b !in d.store.buffers ::
            e.Share? && b == e.objects.buffer && d'.store.buffers[b].destroyed && d'.store.buffers[b].freed == 0)
  {
    hide Inv, ShareData, ShareRef, ReleaseTop, Reclaim, Apply;
    match e
    case Share(n, address, sized, read, write, ok) =>
      FailedShareIsUndone(d, n, address, sized, read, write, ok);
      FailedShareBuffers(d, n, address, sized, read, write, ok);
    case Lend(h, from, read, write, ok) => ShareRefIff(d, h, from, read, write, ok);
    case Pop(n, ok) => PopIff(d, n, true, ok);
    case Take(n, sized, ok) => PopIff(d, n, sized, ok);
    case Act(_) =>
  }

  lemma FailedShareBuffers(d: Desc, n: Fresh, address: nat, sized: bool, read: bool, write: bool, ok: bool)
    requires Valid(d) && Unused(d.store, n) && ShareData(d, n, address, sized, read, write, ok).1.Failed?
    ensures ShareData(d, n, address, sized, read, write, ok).0.store.buffers.Keys <= d.store.buffers.Keys + {n.buffer}
  {
    hide Inv, Copy, Reset, Create, ShareRef, Release;
    InvSound(d.store);
    if !(sized && address == 0 && (read || write)) {
      CreateShape(d.store, n.r, n.data, n.buffer, address, read, write);
      var s := Create(d.store, n.r, false, false, n.data, n.buffer, address, read, write);
      InvSound(s);
      ShareRefIff(d.(store := s), n.h, n.r, false, false, ok);
      ReleaseRefs(s, n.r);
      ReleaseInv(s, n.r);
      InvSound(Release(s, n.r));
      NullReset(Release(s, n.r), n.r);
      ReleaseBuffers(s, n.r);
    }
  }

  lemma ReleaseBuffers(s: State, r: Id)
    requires Sound(s) && r in s.refs
    ensures Release(s, r).buffers.Keys == s.buffers.Keys
  {
  }
}
