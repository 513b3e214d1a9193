/** Who may read and write what is shared: said by who is there, not by counters. */
module DescriptorRights {
  import opened Options
  import opened References
  import opened ReferenceInvariant
  import opened ReferenceRuns
  import opened ReferenceMeaning
  import opened Descriptor
  import opened DescriptorOps

  /** The buffer behind a reference that is not null. */
  ghost function BufferOf(s: State, r: Id): Id
    requires Sound(s) && r in s.refs && !IsNull(s, r)
  {
    s.datas[s.refs[r].content.value].buffer
  }

  /** Nobody is in the way of these rights on the buffer, and it was created with them. */
  ghost predicate Unhindered(s: State, b: Id, read: bool, write: bool)
    requires b in s.buffers
  {
    && (read ==> s.buffers[b].readable && Writers(s, b) == {})
    && (write ==> s.buffers[b].writable && Holders(s, b) == {})
  }

  lemma ObtainableIff(s: State, read: bool, write: bool, from: Id)
    requires Inv(s) && Sound(s) && from in s.refs
    ensures Obtainable(s, read, write, from) <==> !IsNull(s, from) && Unhindered(s, BufferOf(s, from), read, write)
  {
    hide Core, Alive, Writers, Holders;
    if !IsNull(s, from) {
      CoreAt(s, BufferOf(s, from));
      GrantsIff(s, BufferOf(s, from), read, write);
    }
  }

  /** Sharing a reference succeeds exactly when the callbacks do and either there is nothing to share, which is refused
      for metadata, or nobody is in the way of the rights asked for, nor of reading for metadata. */
  lemma ShareRefGrantedIff(d: Desc, h: Id, from: Id, read: bool, write: bool, notified: bool)
    requires Valid(d) && from in d.store.refs && h !in d.store.refs && Sound(d.store)
    ensures ShareRef(d, h, from, read, write, notified).1.Done? <==>
      && notified
      && (if IsNull(d.store, from) then !d.metadata
          else
            && Unhindered(d.store, BufferOf(d.store, from), read, write)
            && (d.metadata ==> Unhindered(d.store, BufferOf(d.store, from), true, false)))
  {
    hide Inv, ShareRef, Obtainable, Unhindered;
    ObtainableIff(d.store, read, write, from);
    ObtainableIff(d.store, true, false, from);
    ShareRefIff(d, h, from, read, write, notified);
  }

  // ----- what a share of memory allows -----

  lemma SharedBuffer(s: State, n: Fresh, address: nat, read: bool, write: bool)
    requires Inv(s) && Unused(s, n) && address != 0
    ensures var s' := SharedState(s, n, address, read, write);
      && n.buffer in s'.buffers
      && var b := s'.buffers[n.buffer];
      && b.readable == read && b.writable == write
      && b.readLocks == (if read then 0 else 1) && b.writeLocks == (if write then 0 else 1)
  {
    hide Core, Alive, Create, Reset, Collect;
    CoreSound(s);
    CreateShape(s, n.r, n.data, n.buffer, address, read, write);
    var s0 := Create(s, n.r, false, false, n.data, n.buffer, address, read, write);
    CoreSound(s0);
    CopyShape(s0, n.h, false, false, n.r);
    var s1 := Copy(s0, n.h, false, false, n.r);
    CoreSound(s1);
    assert s1.buffers[n.buffer] == s0.buffers[n.buffer];
    assert LinkedTo(s1, n.r, n.data) && LinkedTo(s1, n.h, n.data);
    ResetOfLinked(s1, n.r, n.h, n.data);
  }

  /** Memory shared for reading can be read, memory shared for writing can be written, and nothing else: by whom ever
      asks first. */
  lemma SharedAllows(d: Desc, n: Fresh, address: nat, sized: bool, read: bool, write: bool, notified: bool, r: Id,
                     asRead: bool, asWrite: bool)
    requires Valid(d) && Unused(d.store, n) && address != 0
    requires ShareData(d, n, address, sized, read, write, notified).1.Done?
    requires r !in ShareData(d, n, address, sized, read, write, notified).0.store.refs
    ensures var s' := ShareData(d, n, address, sized, read, write, notified).0.store;
      && Inv(s') && Sound(s') && n.h in s'.refs
      && (Copy(s', r, asRead, asWrite, n.h).refs[r].content.Some? <==> (asRead ==> read) && (asWrite ==> write))
  {
    hide Inv, ShareData, Copy, SharedState, Writers, Holders;
    ShareShape(d, n, address, sized, read, write, notified);
    var s' := SharedState(d.store, n, address, read, write);
    SharedShape(d.store, n, address, read, write);
    SharedBuffer(d.store, n, address, read, write);
    NobodyYet(s', n.buffer, read, write);
    CopyGrantedIff(s', r, asRead, asWrite, n.h);
  }

  /** Only the locks of its creation: nobody is there with any right. */
  lemma NobodyYet(s: State, b: Id, read: bool, write: bool)
    requires Inv(s) && b in s.buffers && s.buffers[b].readable == read && s.buffers[b].writable == write
    requires s.buffers[b].readLocks == (if read then 0 else 1) && s.buffers[b].writeLocks == (if write then 0 else 1)
    ensures Writers(s, b) == {} && Holders(s, b) == {}
  {
    hide Core, Alive, Writers, Holders;
    CoreAt(s, b);
  }

  // ----- the placeholder -----

  /** What is left behind the last share of a metadata descriptor may be read and not written. */
  lemma PlaceholderRights(d: Desc, n: Names, sized: bool)
    requires Valid(d) && Free(d.store, n) && d.metadata && |d.holders| == 2
    ensures var s := ReleaseTop(d, n, true).0.store;
      n.place in s.refs && s.refs[n.place].read && !s.refs[n.place].write
    ensures var s := Reclaim(d, n, sized, true).0.store;
      n.place in s.refs && s.refs[n.place].read && !s.refs[n.place].write
  {
    hide Inv, Copy, Forget, Sound, GiveUp, Replace, PopTop;
    InvSound(d.store);
    var rest, top := d.holders[..1], d.holders[1];
    assert rest == [d.holders[0]];
    var s := PopTop(d.store, top, n.oldref);
    InvSound(s);
    ForgetInv(s, rest[0]);
    var s1 := Forget(s, rest[0]);
    InvSound(s1);
    CopyShape(s1, n.place, true, false, n.oldref);
    ForgetInv(Copy(s1, n.place, true, false, n.oldref), n.oldref);
    PopKeepsNew(d.store, top, rest[0], n);
    GiveUpInv(Replace(s1, n, sized), n.oldref);
  }
}
