/** What single calls leave behind: a release hands the memory to the library, a share and its reclaim
    together leave no trace. */
module DescriptorEffects {
  import opened Options
  import opened References
  import opened ReferenceInvariant
  import opened ReferenceRuns
  import opened Descriptor
  import opened DescriptorOps
  import opened DescriptorStack

  ghost predicate SubData(s: State, s': State) {
    forall e | e in s'.datas && e in s.datas :: s'.datas[e] == s.datas[e]
  }

  /** Moving the top out of the stack leaves its data behind. */
  lemma PopShape(s: State, top: Id, oldref: Id)
    requires Inv(s) && top in s.refs && oldref !in s.refs
    ensures var s' := PopTop(s, top, oldref);
      Inv(s') && Sound(s) && Sound(s') && oldref in s'.refs && SubData(s, s') && s'.datas.Keys <= s.datas.Keys
  {
    hide Core, Alive, Copy, Forget;
    CoreSound(s);
    CopyShape(s, oldref, false, false, top);
    var s0 := Copy(s, oldref, false, false, top);
    CoreSound(s0);
    ForgetData(s0, top);
    CoreSound(PopTop(s, top, oldref));
  }

  // ----- release -----

  /** Releasing the last share of a metadata descriptor keeps the value itself behind the placeholder, exactly
      when it was readable and no other reference was writing it. */
  lemma ReleaseKeepsValue(d: Desc, n: Names, d': Desc)
    requires Valid(d) && Free(d.store, n) && d.metadata && |d.holders| == 2 && !IsNull(d.store, d.holders[1])
    requires d' == ReleaseTop(d, n, true).0
    ensures var s := d.store;
      var data := s.refs[d.holders[1]].content.value;
      var b := s.datas[data].buffer;
      && d'.holders == [n.place] && n.place in d'.store.refs
      && d'.store.refs[n.place] ==
          Ref(true, false,
              if s.buffers[b].readable && Writers(s, b) <= {d.holders[0], d.holders[1]} then Some(data) else None)
  {
    hide Inv, Copy, Forget, Sound, Writers, PopTop, Popped;
    InvSound(d.store);
    PoppedShape(d, n);
    ReadableIff(d, n);
    var s1 := Popped(d, n);
    InvSound(s1);
    ReleaseIs(d, n);
    CopyShape(s1, n.place, true, false, n.oldref);
    ForgetInv(Copy(s1, n.place, true, false, n.oldref), n.oldref);
  }

  lemma ReleaseIs(d: Desc, n: Names)
    requires Valid(d) && Free(d.store, n) && d.metadata && |d.holders| == 2 && !IsNull(d.store, d.holders[1])
    ensures var s1 := Popped(d, n);
      && Inv(s1) && n.oldref in s1.refs && n.place !in s1.refs
      && Inv(Copy(s1, n.place, true, false, n.oldref)) && n.oldref in Copy(s1, n.place, true, false, n.oldref).refs
      && ReleaseTop(d, n, true).0
         == d.(store := Forget(Copy(s1, n.place, true, false, n.oldref), n.oldref), holders := [n.place])
  {
    hide Inv, Copy, Forget, Sound;
    InvSound(d.store);
    PoppedShape(d, n);
    InvSound(Popped(d, n));
    CopyShape(Popped(d, n), n.place, true, false, n.oldref);
    assert d.holders[..1] == [d.holders[0]];
  }

  /** Releasing any other share leaves the memory to its remaining references, and to nobody exactly when there
      are none: it is freed then, unless it had been released before. */
  lemma ReleaseFreesIff(d: Desc, n: Names, d': Desc)
    requires Valid(d) && Free(d.store, n) && Shared(d) && !(d.metadata && |d.holders| == 2)
    requires !IsNull(d.store, d.holders[|d.holders| - 1]) && d' == ReleaseTop(d, n, true).0
    ensures var s, top := d.store, d.holders[|d.holders| - 1];
      var b := s.datas[s.refs[top].content.value].buffer;
      && b in d'.store.buffers
      && (d'.store.buffers[b].destroyed <==> forall q | Linked(s, q, b) :: q == top)
      && d'.store.buffers[b].freed == (if d'.store.buffers[b].destroyed && s.buffers[b].owns then 1 else 0)
  {
    hide Inv, Copy, Forget, Sound, PopTop;
    var s, top := d.store, d.holders[|d.holders| - 1];
    InvSound(s);
    var b := s.datas[s.refs[top].content.value].buffer;
    PopShape(s, top, n.oldref);
    var s1 := PopTop(s, top, n.oldref);
    ForgetInv(s1, n.oldref);
    var s2 := Forget(s1, n.oldref);
    InvSound(s2);
    ForgetData(s1, n.oldref);
    PopOwns(s, top, n.oldref, b);
    ForgetOwns(s1, n.oldref, b);
    assert d'.store == s2;
    MemoryOf(s2, b);
    LinkedSame(s, s2, top, n.oldref, b);
  }

  lemma ForgetOwns(s: State, r: Id, b: Id)
    requires Inv(s) && r in s.refs && b in s.buffers
    ensures Sound(s) && b in Forget(s, r).buffers && Forget(s, r).buffers[b].owns == s.buffers[b].owns
  {
    hide Core, Alive;
    CoreSound(s);
  }

  lemma PopOwns(s: State, top: Id, oldref: Id, b: Id)
    requires Inv(s) && top in s.refs && oldref !in s.refs && b in s.buffers
    ensures b in PopTop(s, top, oldref).buffers && PopTop(s, top, oldref).buffers[b].owns == s.buffers[b].owns
  {
    hide Inv, Forget;
    InvSound(s);
    CopyShape(s, oldref, false, false, top);
    ForgetOwns(Copy(s, oldref, false, false, top), top, b);
  }

  lemma LinkedSame(s: State, s': State, top: Id, oldref: Id, b: Id)
    requires Sound(s) && Sound(s') && top in s.refs && oldref !in s.refs && s'.refs == s.refs - {top} && SubData(s, s')
    requires forall e | e in s'.datas :: e in s.datas
    ensures (forall r :: !Linked(s', r, b)) <==> forall q | Linked(s, q, b) :: q == top
  {
    forall q
      ensures Linked(s', q, b) <==> Linked(s, q, b) && q != top
    {
    }
  }

  // ----- a share and its reclaim -----

  /** What an expose may leave: all as before, but for the buffer of the user's memory, destroyed and not freed. */
  ghost predicate NoTrace(s: State, s': State, buffer: Id) {
    && s'.refs == s.refs && s'.datas == s.datas
    && (forall b | b in s.buffers :: b in s'.buffers && s'.buffers[b] == s.buffers[b])
    && (buffer in s'.buffers ==> s'.buffers[buffer].destroyed && s'.buffers[buffer].freed == 0)
  }

  /** The store with one reference more, on new data in a new buffer. */
  ghost predicate OneMore(s: State, s': State, r: Id, data: Id, buffer: Id, address: nat) {
    && r !in s.refs && data !in s.datas && buffer !in s.buffers && address != 0
    && s'.refs == s.refs[r := Ref(false, false, Some(data))] && s'.datas == s.datas[data := Data(buffer, address)]
    && s'.buffers.Keys == s.buffers.Keys + {buffer}
    && forall b | b in s.buffers :: s'.buffers[b] == s.buffers[b]
  }

  lemma SharedOneMore(s: State, n: Fresh, address: nat, read: bool, write: bool)
    requires Inv(s) && Unused(s, n) && address != 0
    ensures Inv(SharedState(s, n, address, read, write))
    ensures OneMore(s, SharedState(s, n, address, read, write), n.h, n.data, n.buffer, address)
  {
    hide Inv, Copy, Create, Forget, Sound;
    InvSound(s);
    SharedShape(s, n, address, read, write);
    CreateShape(s, n.r, n.data, n.buffer, address, read, write);
    var s0 := Create(s, n.r, false, false, n.data, n.buffer, address, read, write);
    InvSound(s0);
    CopyShape(s0, n.h, false, false, n.r);
    var s1 := Copy(s0, n.h, false, false, n.r);
    InvSound(s1);
    CopyBuffers(s0, n.h, false, false, n.r);
    assert LinkedTo(s1, n.h, n.data) && LinkedTo(s1, n.r, n.data);
    ForgetOfLinked(s1, n.r, n.h, n.data);
  }

  /** Moving the top into a reference of its own. */
  lemma PoppedOneMore(s: State, s1: State, r: Id, data: Id, buffer: Id, address: nat, oldref: Id)
    requires Inv(s) && Inv(s1) && OneMore(s, s1, r, data, buffer, address) && oldref !in s1.refs
    ensures r in s1.refs && Inv(PopTop(s1, r, oldref))
    ensures OneMore(s, PopTop(s1, r, oldref), oldref, data, buffer, address)
  {
    hide Inv, Copy, Forget, Sound;
    InvSound(s1);
    CopyShape(s1, oldref, false, false, r);
    var s2 := Copy(s1, oldref, false, false, r);
    InvSound(s2);
    CopyBuffers(s1, oldref, false, false, r);
    assert LinkedTo(s2, r, data) && LinkedTo(s2, oldref, data);
    ForgetOfLinked(s2, r, oldref, data);
    assert s.refs[r := Ref(false, false, Some(data))][oldref := Ref(false, false, Some(data))] - {r}
        == s.refs[oldref := Ref(false, false, Some(data))];
  }

  /** Giving that reference up ends the data and its buffer, and frees nothing. */
  lemma GivenUpOneMore(s: State, s1: State, r: Id, data: Id, buffer: Id, address: nat)
    requires Inv(s) && Inv(s1) && OneMore(s, s1, r, data, buffer, address)
    ensures r in s1.refs && NoTrace(s, GiveUp(s1, r), buffer)
  {
    hide Inv, Release, Sound, Reset;
    InvSound(s);
    InvSound(s1);
    OnlyOne(s, s1, r, data, buffer, address);
    ReleaseLast(s1, r, data);
    ReleaseRefs(s1, r);
    ReleaseInv(s1, r);
    InvSound(Release(s1, r));
    NullReset(Release(s1, r), r);
    assert s.refs[r := Ref(false, false, None)] - {r} == s.refs;
    assert s.datas[data := Data(buffer, address)] - {data} == s.datas;
  }

  lemma OnlyOne(s: State, s1: State, r: Id, data: Id, buffer: Id, address: nat)
    requires Sound(s) && OneMore(s, s1, r, data, buffer, address)
    ensures forall q | q in s1.refs && LinkedTo(s1, q, data) :: q == r
    ensures forall e | e in s1.datas && e != data :: s1.datas[e].buffer != buffer
  {
  }

  /** Sharing the user's memory and reclaiming it gives the same address back and leaves the descriptor and
      the store as they were; but for metadata with nothing else shared, whose placeholder is replaced. */
  lemma ExposeLeavesNoTrace(d: Desc, n: Fresh, address: nat, sized: bool, read: bool, write: bool, n': Names,
                            again: bool)
    requires Valid(d) && Unused(d.store, n) && address != 0 && !(d.metadata && |d.holders| == 1)
    requires ShareData(d, n, address, sized, read, write, true).1.Done?
    requires var d1 := ShareData(d, n, address, sized, read, write, true).0; Free(d1.store, n')
    ensures var d1 := ShareData(d, n, address, sized, read, write, true).0;
      && Valid(d1)
      && var (d2, out) := Reclaim(d1, n', again, true);
      && out == Done(address)
      && d2.holders == d.holders && d2.metadata == d.metadata && NoTrace(d.store, d2.store, n.buffer)
  {
    hide Inv, Sound, GiveUp, PopTop, SharedState, ShareData, Unused, Forget, Replace, NoTrace;
    ShareShape(d, n, address, sized, read, write, true);
    var d1, s1 := ShareData(d, n, address, sized, read, write, true).0, SharedState(d.store, n, address, read, write);
    SharedOneMore(d.store, n, address, read, write);
    PushedValid(d, d1, n.h);
    TakePointer(d1, n', again);
    PoppedOneMore(d.store, s1, n.h, n.data, n.buffer, address, n'.oldref);
    GivenUpOneMore(d.store, PopTop(s1, n.h, n'.oldref), n'.oldref, n.data, n.buffer, address);
    assert d1.holders[|d1.holders| - 1] == n.h && d1.holders[..|d1.holders| - 1] == d.holders;
  }
}
