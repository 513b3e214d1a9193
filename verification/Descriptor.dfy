/** A data descriptor: a stack of references to the values shared under one name. A metadata descriptor
    keeps a reference at the bottom of its stack that outlives the shares. Notification callbacks may
    fail; they leave the references of the descriptor alone. */
module Descriptor {
  import opened Options
  import opened References
  import opened ReferenceInvariant
  import opened ReferenceRuns

  /** `holders` is the stack, its top last. */
  datatype Desc = Desc(store: State, holders: seq<Id>, metadata: bool)

  datatype Outcome = Done(pointer: nat) | Failed

  ghost predicate Valid(d: Desc) {
    && Inv(d.store)
    && (forall i | 0 <= i < |d.holders| :: d.holders[i] in d.store.refs)
    && (forall i, j | 0 <= i < j < |d.holders| :: d.holders[i] != d.holders[j])
    && (d.metadata ==> d.holders != [])
  }

  // ----- references that come and go -----

  /** Whether a reference with the given rights could be made. */
  ghost predicate Obtainable(s: State, read: bool, write: bool, from: Id)
    requires Sound(s) && from in s.refs
  {
    !IsNull(s, from) && Grants(s.buffers[s.datas[s.refs[from].content.value].buffer], read, write)
  }

  /** The destructor of a reference. */
  ghost function Forget(s: State, r: Id): State
    requires Sound(s) && r in s.refs
  {
    Reset(s, r).(refs := Reset(s, r).refs - {r})
  }

  lemma ForgetInv(s: State, r: Id)
    requires Inv(s) && r in s.refs
    ensures Inv(Forget(s, r)) && Forget(s, r).refs == s.refs - {r}
  {
    hide Inv, Reset;
    InvSound(s);
    ResetInv(s, r);
    ResetRefs(s, r);
    InvSound(Reset(s, r));
    DropInv(Reset(s, r), r);
    assert s.refs[r := s.refs[r].(content := None)] - {r} == s.refs - {r};
  }

  /** A copy is linked exactly when its rights can be granted, and nothing else changes but the locks. */
  lemma CopyShape(s: State, r: Id, read: bool, write: bool, from: Id)
    requires Inv(s) && r !in s.refs && from in s.refs
    ensures var s' := Copy(s, r, read, write, from);
      && Inv(s')
      && s'.refs == s.refs[r :=
           Ref(read, write, if Obtainable(s, read, write, from) then s.refs[from].content else None)]
      && s'.datas == s.datas && s'.buffers.Keys == s.buffers.Keys
      && (!Obtainable(s, read, write, from) ==> s' == New(s, r, read, write))
  {
    hide Core, Alive;
    CoreSound(s);
    CopyInv(s, r, read, write, from);
  }

  /** A temporary reference leaves no trace: making a copy and destroying it gives back the very same state. */
  lemma TemporaryIsInvisible(s: State, r: Id, read: bool, write: bool, from: Id)
    requires Inv(s) && r !in s.refs && from in s.refs
    ensures Inv(Copy(s, r, read, write, from)) && r in Copy(s, r, read, write, from).refs
    ensures Forget(Copy(s, r, read, write, from), r) == s
  {
    hide Core, Alive, Reset, Link, Detach, Sound;
    CoreSound(s);
    CopyShape(s, r, read, write, from);
    var s' := Copy(s, r, read, write, from);
    CoreSound(s');
    ForgetInv(s', r);
    assert s'.refs - {r} == s.refs;
    if Obtainable(s, read, write, from) {
      var s1, d := New(s, r, read, write), s.refs[from].content.value;
      CoreFreed(s, s.datas[d].buffer);
      NewCore(s, r, read, write);
      CoreSound(s1);
      DetachUndoesLink(s1, r, d);
      assert from in s'.refs && LinkedTo(s', from, d);
      ResetOfLinked(s', r, from, d);
    } else {
      NullReset(s', r);
    }
  }

  lemma DetachUndoesLink(s: State, r: Id, d: Id)
    requires Sound(s) && r in s.refs && s.refs[r].content.None? && d in s.datas
    requires r !in s.buffers[s.datas[d].buffer].notifications && Link(s, r, d).refs[r].content.Some?
    requires Sound(Link(s, r, d))
    ensures Detach(Link(s, r, d), r) == s
  {
    var b := s.datas[d].buffer;
    var s' := Detach(Link(s, r, d), r);
    assert s'.buffers[b] == s.buffers[b] by {
      assert s.buffers[b].notifications - {r} == s.buffers[b].notifications;
    }
    assert s'.buffers == s.buffers;
    assert s'.refs == s.refs;
  }

  lemma NullReset(s: State, r: Id)
    requires Sound(s) && r in s.refs && s.refs[r].content.None?
    ensures Reset(s, r) == s
  {
  }

  /** Resetting a reference whose data another one holds frees nothing. */
  lemma ResetOfLinked(s: State, r: Id, other: Id, d: Id)
    requires Sound(s) && r in s.refs && other in s.refs && r != other && LinkedTo(s, r, d) && LinkedTo(s, other, d)
    ensures Reset(s, r) == Detach(s, r)
  {
    var s' := Detach(s, r);
    assert other in s'.refs && LinkedTo(s', other, d);
  }

  // ----- share(Ref, read, write) -----

  /** `h` is the new holder and `notified` whether all callbacks succeeded. */
  ghost function ShareRef(d: Desc, h: Id, from: Id, read: bool, write: bool, notified: bool): (Desc, Outcome)
    requires Valid(d) && from in d.store.refs && h !in d.store.refs
  {
    if d.metadata && !Obtainable(d.store, true, false, from) then (d, Failed)
    else
      CopyShape(d.store, h, read, write, from);
      var pointer := if (read || write) && Obtainable(d.store, read, write, from) then AddressOf(d.store, from) else 0;
      var s := Copy(d.store, h, read, write, from);
      if (!IsNull(d.store, from) && IsNull(s, h)) || !notified then
        (d.(store := Forget(s, h)), Failed)
      else
        (d.(store := s, holders := d.holders + [h]), Done(pointer))
  }

  ghost function AddressOf(s: State, r: Id): nat
    requires Sound(s) && r in s.refs && !IsNull(s, r)
  {
    s.datas[s.refs[r].content.value].address
  }

  /** Sharing a reference succeeds exactly when the rights can be granted (read access too, for metadata) and
      the callbacks do; a failure leaves the descriptor and every reference exactly as they were. */
  lemma ShareRefIff(d: Desc, h: Id, from: Id, read: bool, write: bool, notified: bool)
    requires Valid(d) && from in d.store.refs && h !in d.store.refs
    ensures var (d', out) := ShareRef(d, h, from, read, write, notified);
      && Valid(d') && d'.metadata == d.metadata
      && (out.Done? <==>
            && (d.metadata ==> Obtainable(d.store, true, false, from))
            && (IsNull(d.store, from) || Obtainable(d.store, read, write, from))
            && notified)
      && (out.Failed? ==> d' == d)
      && (out.Done? ==>
            && d'.holders == d.holders + [h] && d'.store == Copy(d.store, h, read, write, from)
            && (IsNull(d'.store, h) <==> IsNull(d.store, from))
            && out.pointer == if (read || write) && !IsNull(d.store, from) then AddressOf(d.store, from) else 0)
  {
    hide Inv, Copy, Forget;
    InvSound(d.store);
    CopyShape(d.store, h, read, write, from);
    InvSound(Copy(d.store, h, read, write, from));
    TemporaryIsInvisible(d.store, h, read, write, from);
  }

  // ----- share(void*, read, write) -----

  /** The objects an operation makes, all new. */
  datatype Fresh = Fresh(r: Id, h: Id, data: Id, buffer: Id)

  ghost predicate Unused(s: State, n: Fresh) {
    n.r !in s.refs && n.h !in s.refs && n.r != n.h && n.data !in s.datas && n.buffer !in s.buffers
  }

  /** `sized` tells whether values of the type have any data. */
  ghost function ShareData(d: Desc, n: Fresh, address: nat, sized: bool, read: bool, write: bool,
                           notified: bool): (Desc, Outcome)
    requires Valid(d) && Unused(d.store, n)
  {
    if sized && address == 0 && (read || write) then (d, Failed)
    else
      CreateShape(d.store, n.r, n.data, n.buffer, address, read, write);
      var s := Create(d.store, n.r, false, false, n.data, n.buffer, address, read, write);
      var (d', out) := ShareRef(d.(store := s), n.h, n.r, false, false, notified);
      ShareRefIff(d.(store := s), n.h, n.r, false, false, notified);
      ReleaseInv(d'.store, n.r);
      if out.Failed? then
        ReleaseRefs(d'.store, n.r);
        (d'.(store := Forget(Release(d'.store, n.r), n.r)), Failed)
      else
        (d'.(store := Forget(d'.store, n.r)), Done(0))
  }

  lemma CreateShape(s: State, r: Id, data: Id, buffer: Id, address: nat, readable: bool, writable: bool)
    requires Inv(s) && r !in s.refs && data !in s.datas && buffer !in s.buffers
    ensures var s' := Create(s, r, false, false, data, buffer, address, readable, writable);
      && Inv(s')
      && s'.refs == s.refs[r := Ref(false, false, if address == 0 then None else Some(data))]
      && s'.datas == (if address == 0 then s.datas else s.datas[data := Data(buffer, address)])
      && s'.buffers == (if address == 0 then s.buffers else s.buffers[buffer := NewBuffer(readable, writable)])
  {
    hide Core, Alive;
    CoreSound(s);
    CreateInv(s, r, false, false, data, buffer, address, readable, writable);
    if address != 0 {
      var s1 := New(s, r, false, false).(
        buffers := s.buffers[buffer := NewBuffer(readable, writable)],
        datas := s.datas[data := Data(buffer, address)]);
      var s2 := Link(s1, r, data);
      assert r in s2.refs && LinkedTo(s2, r, data);
    }
  }

  lemma ReleaseRefs(s: State, r: Id)
    requires Inv(s) && r in s.refs
    ensures Release(s, r).refs == s.refs[r := s.refs[r].(content := None)]
  {
    hide Inv, Reset, Disarm;
    InvSound(s);
    if IsNull(s, r) {
      ResetRefs(s, r);
    } else {
      DisarmInv(s, r);
      InvSound(Disarm(s, r));
      DisarmKeepsRefs(s, r);
      UnlinkIsReset(Disarm(s, r), r);
      ResetRefs(Disarm(s, r), r);
    }
  }

  /** Releasing the only reference on the only data of a buffer destroys the buffer without freeing it. */
  lemma ReleaseLast(s: State, r: Id, data: Id)
    requires Inv(s) && r in s.refs && s.refs[r].content == Some(data) && s.datas[data].address != 0
    requires forall q | q in s.refs && LinkedTo(s, q, data) :: q == r
    requires forall e | e in s.datas && e != data :: s.datas[e].buffer != s.datas[data].buffer
    ensures var s', b := Release(s, r), s.datas[data].buffer;
      && s'.datas == s.datas - {data} && s'.buffers.Keys == s.buffers.Keys
      && (forall c | c in s.buffers && c != b :: s'.buffers[c] == s.buffers[c])
      && s'.buffers[b].destroyed && s'.buffers[b].freed == 0
  {
    hide Core, Alive;
    CoreSound(s);
    var b := s.datas[data].buffer;
    CoreFreed(s, b);
    CoreDestroyed(s, b);
    var s1 := Disarm(s, r);
    var s2 := Detach(s1, r);
    assert !HasRef(s2, data) by {
      assert forall q :: !(q in s2.refs && LinkedTo(s2, q, data));
    }
    assert !HasData(s2.datas - {data}, b);
    assert s2.datas - {data} == s.datas - {data};
  }

  /** When sharing the user's memory fails, whatever the reason, the stack and all that the library
      references are as before, and the memory is not freed. */
  lemma FailedShareIsUndone(d: Desc, n: Fresh, address: nat, sized: bool, read: bool, write: bool, notified: bool)
    requires Valid(d) && Unused(d.store, n)
    ensures var (d', out) := ShareData(d, n, address, sized, read, write, notified);
      out.Failed? ==>
        && d'.holders == d.holders && d'.metadata == d.metadata
        && d'.store.refs == d.store.refs && d'.store.datas == d.store.datas
        && (forall b | b in d.store.buffers :: b in d'.store.buffers && d'.store.buffers[b] == d.store.buffers[b])
        && (n.buffer in d'.store.buffers ==>
              d'.store.buffers[n.buffer].freed == 0 && d'.store.buffers[n.buffer].destroyed)
  {
    hide Inv, Copy, Reset, Release, Create, ShareRef;
    InvSound(d.store);
    if !(sized && address == 0 && (read || write)) {
      CreateShape(d.store, n.r, n.data, n.buffer, address, read, write);
      var s := Create(d.store, n.r, false, false, n.data, n.buffer, address, read, write);
      InvSound(s);
      ShareRefIff(d.(store := s), n.h, n.r, false, false, notified);
      var (d1, out) := ShareRef(d.(store := s), n.h, n.r, false, false, notified);
      if out.Failed? {
        ReleaseRefs(s, n.r);
        ReleaseInv(s, n.r);
        InvSound(Release(s, n.r));
        NullReset(Release(s, n.r), n.r);
        if address == 0 {
          ReleaseNull(s, n.r);
        } else {
          NoStrangers(d.store, n);
          ReleaseLast(s, n.r, n.data);
        }
        assert d.store.refs[n.r := Ref(false, false, None)] - {n.r} == d.store.refs;
        assert d.store.datas[n.data := Data(n.buffer, address)] - {n.data} == d.store.datas;
      }
    }
  }

  lemma ReleaseNull(s: State, r: Id)
    requires Sound(s) && r in s.refs && s.refs[r].content.None?
    ensures Release(s, r) == s
  {
  }

  lemma NoStrangers(s: State, n: Fresh)
    requires Sound(s) && Unused(s, n)
    ensures forall q | q in s.refs :: !LinkedTo(s, q, n.data)
    ensures forall e | e in s.datas :: s.datas[e].buffer != n.buffer
  {
  }

  // ----- release and reclaim -----

  /** The new references of `release` and `reclaim`: the old reference, the copy, the placeholder, and where
      the copy goes. */
  datatype Names = Names(oldref: Id, copy: Id, place: Id, data: Id, buffer: Id, address: nat)

  ghost predicate Free(s: State, n: Names) {
    && n.oldref !in s.refs && n.copy !in s.refs && n.place !in s.refs
    && n.oldref != n.copy && n.oldref != n.place && n.copy != n.place
    && n.data !in s.datas && n.buffer !in s.buffers && n.address != 0
  }

  predicate Shared(d: Desc) {
    |d.holders| > if d.metadata then 1 else 0
  }

  /** Moves the reference at the top of the stack out of it. */
  ghost function PopTop(s: State, top: Id, oldref: Id): (r: State)
    requires Inv(s) && top in s.refs && oldref !in s.refs
    ensures Inv(r)
    ensures r.refs == s.refs[oldref := Ref(false, false, if IsNull(s, top) then None else s.refs[top].content)] - {top}
  {
    CopyShape(s, oldref, false, false, top);
    ForgetInv(Copy(s, oldref, false, false, top), top);
    Forget(Copy(s, oldref, false, false, top), top)
  }

  ghost function ReleaseTop(d: Desc, n: Names, notified: bool): (Desc, Outcome)
    requires Valid(d) && Free(d.store, n)
  {
    if !Shared(d) || !notified then (d, Failed)
    else
      var rest := d.holders[..|d.holders| - 1];
      var s := PopTop(d.store, d.holders[|d.holders| - 1], n.oldref);
      if d.metadata && |rest| == 1 then
        ForgetInv(s, rest[0]);
        CopyShape(Forget(s, rest[0]), n.place, true, false, n.oldref);
        var s' := Copy(Forget(s, rest[0]), n.place, true, false, n.oldref);
        ForgetInv(s', n.oldref);
        (d.(store := Forget(s', n.oldref), holders := [n.place]), Done(0))
      else
        ForgetInv(s, n.oldref);
        (d.(store := Forget(s, n.oldref), holders := rest), Done(0))
  }

  ghost predicate CopyMade(s: State, n: Names, sized: bool)
    requires Sound(s) && n.oldref in s.refs
  {
    Obtainable(s, true, false, n.oldref) && sized
  }

  /** A reference to fresh memory, and a read-only placeholder made of it. */
  ghost function MakeCopy(s: State, n: Names): State
    requires Inv(s) && n.copy !in s.refs && n.place !in s.refs && n.copy != n.place && n.data !in s.datas
    requires n.buffer !in s.buffers
  {
    CreateShape(s, n.copy, n.data, n.buffer, n.address, true, true);
    var s1 := Create(s, n.copy, false, false, n.data, n.buffer, n.address, true, true);
    CopyShape(s1, n.place, true, false, n.copy);
    Forget(Copy(s1, n.place, true, false, n.copy), n.copy)
  }

  lemma MakeCopyShape(s: State, n: Names)
    requires Inv(s) && n.copy !in s.refs && n.place !in s.refs && n.copy != n.place && n.data !in s.datas
    requires n.buffer !in s.buffers
    requires n.address != 0
    ensures var r := MakeCopy(s, n);
      && Inv(r) && r.refs == s.refs[n.place := Ref(true, false, Some(n.data))]
      && r.datas == s.datas[n.data := Data(n.buffer, n.address)] && r.buffers.Keys == s.buffers.Keys + {n.buffer}
      && forall b | b in s.buffers :: r.buffers[b] == s.buffers[b]
  {
    hide Inv, Copy, Create, Sound, Forget;
    InvSound(s);
    CreateShape(s, n.copy, n.data, n.buffer, n.address, true, true);
    var s1 := Create(s, n.copy, false, false, n.data, n.buffer, n.address, true, true);
    InvSound(s1);
    CopyShape(s1, n.place, true, false, n.copy);
    var s2 := Copy(s1, n.place, true, false, n.copy);
    InvSound(s2);
    ForgetInv(s2, n.copy);
    assert s2.refs - {n.copy} == s.refs[n.place := Ref(true, false, Some(n.data))];
    CopyBuffers(s1, n.place, true, false, n.copy);
    assert n.place in s2.refs && LinkedTo(s2, n.place, n.data);
    ForgetOfLinked(s2, n.copy, n.place, n.data);
  }

  /** A copy locks the buffer it refers to and no other. */
  lemma CopyBuffers(s: State, r: Id, read: bool, write: bool, from: Id)
    requires Sound(s) && r !in s.refs && from in s.refs && s.refs[from].content.Some?
    ensures forall b | b in s.buffers && b != s.datas[s.refs[from].content.value].buffer ::
      b in Copy(s, r, read, write, from).buffers && Copy(s, r, read, write, from).buffers[b] == s.buffers[b]
  {
  }

  lemma ForgetOfLinked(s: State, r: Id, other: Id, d: Id)
    requires Sound(s) && r in s.refs && other in s.refs && r != other && LinkedTo(s, r, d) && LinkedTo(s, other, d)
    ensures Forget(s, r).datas == s.datas && Forget(s, r).buffers.Keys == s.buffers.Keys
    ensures forall b | b in s.buffers && b != s.datas[d].buffer :: Forget(s, r).buffers[b] == s.buffers[b]
  {
    ResetOfLinked(s, r, other, d);
  }

  /** `oldref.copy()` and the placeholder made of it: null when the old reference cannot be read. */
  ghost function Replace(s: State, n: Names, sized: bool): (r: State)
    requires Inv(s) && n.oldref in s.refs && n.copy !in s.refs && n.place !in s.refs && n.copy != n.place
    requires n.data !in s.datas && n.buffer !in s.buffers && n.address != 0
    ensures Inv(r)
    ensures r.refs == s.refs[n.place := Ref(true, false, if CopyMade(s, n, sized) then Some(n.data) else None)]
  {
    if CopyMade(s, n, sized) then
      MakeCopyShape(s, n);
      MakeCopy(s, n)
    else
      NewInv(s, n.place, true, false);
      New(s, n.place, true, false)
  }

  /** `sized` tells whether a copy of the value takes any memory. */
  ghost function Reclaim(d: Desc, n: Names, sized: bool, notified: bool): (Desc, Outcome)
    requires Valid(d) && Free(d.store, n)
  {
    if !Shared(d) || !notified then (d, Failed)
    else
      var rest := d.holders[..|d.holders| - 1];
      var s := PopTop(d.store, d.holders[|d.holders| - 1], n.oldref);
      var pointer := if IsNull(s, n.oldref) then 0 else AddressOf(s, n.oldref);
      if d.metadata && |rest| == 1 then
        ForgetInv(s, rest[0]);
        var s1 := Forget(s, rest[0]);
        PopKeepsNew(d.store, d.holders[|d.holders| - 1], rest[0], n);
        var s2 := Replace(s1, n, sized);
        GiveUpInv(s2, n.oldref);
        (Desc(GiveUp(s2, n.oldref), [n.place], true), Done(pointer))
      else
        GiveUpInv(s, n.oldref);
        (d.(store := GiveUp(s, n.oldref), holders := rest), Done(pointer))
  }

  /** Releases the data and destroys the reference. */
  ghost function GiveUp(s: State, r: Id): State
    requires Inv(s) && r in s.refs
  {
    ReleaseInv(s, r);
    ReleaseRefs(s, r);
    Forget(Release(s, r), r)
  }

  lemma GiveUpInv(s: State, r: Id)
    requires Inv(s) && r in s.refs
    ensures Inv(GiveUp(s, r)) && GiveUp(s, r).refs == s.refs - {r}
  {
    hide Inv, Release, Forget;
    InvSound(s);
    ReleaseInv(s, r);
    ReleaseRefs(s, r);
    ForgetInv(Release(s, r), r);
    assert s.refs[r := s.refs[r].(content := None)] - {r} == s.refs - {r};
  }

  /** Destroying references makes no data and no buffer. */
  lemma PopKeepsNew(s: State, top: Id, bottom: Id, n: Names)
    requires Inv(s) && top in s.refs && bottom in s.refs && top != bottom && Free(s, n)
    ensures bottom in PopTop(s, top, n.oldref).refs
    ensures var s' := Forget(PopTop(s, top, n.oldref), bottom);
      n.data !in s'.datas && n.buffer !in s'.buffers && n.copy !in s'.refs && n.place !in s'.refs && n.oldref in s'.refs
  {
    hide Inv, Copy, Reset;
    InvSound(s);
    CopyShape(s, n.oldref, false, false, top);
    var s1 := Copy(s, n.oldref, false, false, top);
    InvSound(s1);
    ForgetShrinks(s1, top);
    ForgetInv(s1, top);
    InvSound(Forget(s1, top));
    ForgetShrinks(Forget(s1, top), bottom);
    ForgetInv(Forget(s1, top), bottom);
  }

  lemma ForgetShrinks(s: State, r: Id)
    requires Sound(s) && r in s.refs
    ensures Forget(s, r).datas.Keys <= s.datas.Keys && Forget(s, r).buffers.Keys == s.buffers.Keys
  {
  }

  // ----- what release and reclaim promise -----

  /** Both succeed exactly when something is shared and the callbacks do; a failure changes nothing. */
  lemma PopIff(d: Desc, n: Names, sized: bool, notified: bool)
    requires Valid(d) && Free(d.store, n)
    ensures var (d', out) := ReleaseTop(d, n, notified);
      Valid(d') && (out.Done? <==> Shared(d) && notified) && (out.Failed? ==> d' == d)
    ensures var (d', out) := Reclaim(d, n, sized, notified);
      Valid(d') && (out.Done? <==> Shared(d) && notified) && (out.Failed? ==> d' == d)
    ensures Shared(d) && notified ==>
      var bottom := d.metadata && |d.holders| == 2;
      && ReleaseTop(d, n, notified).0.holders == (if bottom then [n.place] else d.holders[..|d.holders| - 1])
      && Reclaim(d, n, sized, notified).0.holders == (if bottom then [n.place] else d.holders[..|d.holders| - 1])
  {
    hide Inv, Copy, Forget, Replace, GiveUp, PopTop, Sound;
    InvSound(d.store);
    if Shared(d) && notified {
      ReleaseValid(d, n);
      ReclaimValid(d, n, sized);
    }
  }

  lemma ReleaseValid(d: Desc, n: Names)
    requires Valid(d) && Free(d.store, n) && Shared(d)
    ensures Valid(ReleaseTop(d, n, true).0)
  {
    hide Inv, Copy, Forget, Sound;
    InvSound(d.store);
    var rest, top := d.holders[..|d.holders| - 1], d.holders[|d.holders| - 1];
    var s := PopTop(d.store, top, n.oldref);
    InvSound(s);
    if d.metadata && |rest| == 1 {
      ForgetInv(s, rest[0]);
      var s1 := Forget(s, rest[0]);
      InvSound(s1);
      CopyShape(s1, n.place, true, false, n.oldref);
      ForgetInv(Copy(s1, n.place, true, false, n.oldref), n.oldref);
    } else {
      ForgetInv(s, n.oldref);
    }
  }

  lemma ReclaimValid(d: Desc, n: Names, sized: bool)
    requires Valid(d) && Free(d.store, n) && Shared(d)
    ensures Valid(Reclaim(d, n, sized, true).0)
  {
    hide Inv, Copy, Forget, Sound, GiveUp, Replace;
    InvSound(d.store);
    var rest, top := d.holders[..|d.holders| - 1], d.holders[|d.holders| - 1];
    var s := PopTop(d.store, top, n.oldref);
    InvSound(s);
    if d.metadata && |rest| == 1 {
      ForgetInv(s, rest[0]);
      var s1 := Forget(s, rest[0]);
      InvSound(s1);
      PopKeepsNew(d.store, top, rest[0], n);
      GiveUpInv(Replace(s1, n, sized), n.oldref);
    } else {
      GiveUpInv(s, n.oldref);
    }
  }

  // ----- the metadata placeholder -----

  /** Destroying a reference only ever removes data, and keeps what buffers were created as. */
  lemma ForgetData(s: State, r: Id)
    requires Inv(s) && r in s.refs
    ensures forall e | e in Forget(s, r).datas :: e in s.datas && Forget(s, r).datas[e] == s.datas[e]
    ensures forall b | b in s.buffers ::
      b in Forget(s, r).buffers && Forget(s, r).buffers[b].readable == s.buffers[b].readable
  {
    hide Core, Alive;
    CoreSound(s);
    ForgetInv(s, r);
  }

  /** A reference on other data is not affected by giving one up. */
  lemma GiveUpKeeps(s: State, r: Id, q: Id)
    requires Inv(s) && r in s.refs && q in s.refs && q != r && s.refs[q].content.Some?
    requires s.refs[q].content != s.refs[r].content
    ensures var s', e := GiveUp(s, r), s.refs[q].content.value;
      Inv(s') && q in s'.refs && s'.refs[q] == s.refs[q] && e in s.datas && e in s'.datas && s'.datas[e] == s.datas[e]
  {
    hide Core, Alive;
    CoreSound(s);
    GiveUpInv(s, r);
    ReleaseInv(s, r);
    CoreSound(Release(s, r));
    ReleaseRefs(s, r);
    NullReset(Release(s, r), r);
    CoreSound(GiveUp(s, r));
  }

  /** The state in which `reclaim` makes the copy. */
  ghost function Popped(d: Desc, n: Names): State
    requires Valid(d) && Free(d.store, n) && |d.holders| == 2
  {
    var s := PopTop(d.store, d.holders[1], n.oldref);
    Forget(s, d.holders[0])
  }

  /** There, the old reference is linked to the data of the former top, and all other references are as they were. */
  lemma PoppedShape(d: Desc, n: Names)
    requires Valid(d) && Free(d.store, n) && |d.holders| == 2 && !IsNull(d.store, d.holders[1])
    ensures var s, s1, data := d.store, Popped(d, n), d.store.refs[d.holders[1]].content.value;
      && Inv(s1)
      && s1.refs == s.refs[n.oldref := Ref(false, false, Some(data))] - {d.holders[1]} - {d.holders[0]}
      && n.oldref in s1.refs && data in s1.datas && n.data !in s1.datas && n.buffer !in s1.buffers
      && (forall e | e in s1.datas :: e in s.datas && s1.datas[e] == s.datas[e])
      && (forall b | b in s.buffers :: b in s1.buffers && s1.buffers[b].readable == s.buffers[b].readable)
  {
    hide Inv, Copy, Reset, Sound, Forget;
    var s, top, bottom := d.store, d.holders[1], d.holders[0];
    InvSound(s);
    CopyShape(s, n.oldref, false, false, top);
    var s0 := Copy(s, n.oldref, false, false, top);
    InvSound(s0);
    CopyReadable(s, n.oldref, top);
    ForgetData(s0, top);
    ForgetInv(s0, top);
    var s' := Forget(s0, top);
    InvSound(s');
    ForgetData(s', bottom);
    ForgetInv(s', bottom);
    InvSound(Forget(s', bottom));
    PopKeepsNew(s, top, bottom, n);
    LinkedDataExists(Forget(s', bottom), n.oldref);
  }

  lemma CopyReadable(s: State, r: Id, from: Id)
    requires Inv(s) && r !in s.refs && from in s.refs
    ensures var s' := Copy(s, r, false, false, from);
      forall b | b in s.buffers :: b in s'.buffers && s'.buffers[b].readable == s.buffers[b].readable
  {
    hide Core, Alive;
    CoreSound(s);
  }

  lemma LinkedDataExists(s: State, r: Id)
    requires Sound(s) && r in s.refs && s.refs[r].content.Some?
    ensures s.refs[r].content.value in s.datas
  {
  }

  /** The value can be read, to be copied, exactly when it was shared readable and nobody else is writing it. */
  lemma ReadableIff(d: Desc, n: Names)
    requires Valid(d) && Free(d.store, n) && |d.holders| == 2 && !IsNull(d.store, d.holders[1])
    ensures n.oldref in Popped(d, n).refs && Inv(Popped(d, n))
    ensures var s := d.store;
      var b := s.datas[s.refs[d.holders[1]].content.value].buffer;
      Obtainable(Popped(d, n), true, false, n.oldref) <==>
        s.buffers[b].readable && Writers(s, b) <= {d.holders[0], d.holders[1]}
  {
    hide Core, Alive, Popped;
    PoppedShape(d, n);
    var s, s1, top, bottom := d.store, Popped(d, n), d.holders[1], d.holders[0];
    CoreSound(s);
    CoreSound(s1);
    var b := s.datas[s.refs[top].content.value].buffer;
    CoreAt(s1, b);
    forall q
      ensures q in Writers(s1, b) <==> q in Writers(s, b) && q != top && q != bottom
    {
    }
  }

  lemma ReplaceShape(s: State, n: Names, sized: bool)
    requires Inv(s) && n.oldref in s.refs && n.copy !in s.refs && n.place !in s.refs && n.copy != n.place
    requires n.data !in s.datas && n.buffer !in s.buffers && n.address != 0
    ensures var s' := Replace(s, n, sized);
      s'.datas == if CopyMade(s, n, sized) then s.datas[n.data := Data(n.buffer, n.address)] else s.datas
  {
    hide Inv, MakeCopy;
    InvSound(s);
    if CopyMade(s, n, sized) {
      MakeCopyShape(s, n);
    }
  }

  /** Giving up a reference moves no data to another buffer. */
  lemma GiveUpData(s: State, r: Id)
    requires Inv(s) && r in s.refs
    ensures forall e | e in GiveUp(s, r).datas :: e in s.datas && GiveUp(s, r).datas[e].buffer == s.datas[e].buffer
  {
    hide Core, Alive;
    CoreSound(s);
    ReleaseInv(s, r);
    CoreSound(Release(s, r));
    ReleaseRefs(s, r);
    NullReset(Release(s, r), r);
  }

  /** Nothing but the placeholder refers to the new buffer. */
  lemma OnlyPlace(s: State, n: Names, sized: bool, q: Id)
    requires Inv(s) && n.oldref in s.refs && n.copy !in s.refs && n.place !in s.refs && n.copy != n.place
    requires n.data !in s.datas && n.buffer !in s.buffers && n.address != 0
    requires Linked(GiveUp(Replace(s, n, sized), n.oldref), q, n.buffer)
    ensures q == n.place
  {
    hide Core, Alive, Replace, GiveUp;
    CoreSound(s);
    ReplaceShape(s, n, sized);
    GiveUpData(Replace(s, n, sized), n.oldref);
    GiveUpInv(Replace(s, n, sized), n.oldref);
  }

  /** The address, the placeholder and the state of a reclaim that leaves only the placeholder. */
  lemma ReclaimIs(d: Desc, n: Names, sized: bool)
    requires Valid(d) && Free(d.store, n) && d.metadata && |d.holders| == 2 && !IsNull(d.store, d.holders[1])
    ensures var s, data, s1 := d.store, d.store.refs[d.holders[1]].content.value, Popped(d, n);
      && Inv(s1) && n.oldref in s1.refs && n.copy !in s1.refs && n.place !in s1.refs && n.data !in s1.datas
      && n.buffer !in s1.buffers
      && Reclaim(d, n, sized, true) ==
          (Desc(GiveUp(Replace(s1, n, sized), n.oldref), [n.place], true), Done(s.datas[data].address))
  {
    hide Inv, Copy, Forget, Sound, GiveUp, Replace;
    InvSound(d.store);
    PoppedShape(d, n);
    InvSound(Popped(d, n));
    var s0 := PopTop(d.store, d.holders[1], n.oldref);
    InvSound(s0);
    assert d.holders[..1] == [d.holders[0]];
    PopKeepsNew(d.store, d.holders[1], d.holders[0], n);
    CopyShape(d.store, n.oldref, false, false, d.holders[1]);
    ForgetData(Copy(d.store, n.oldref, false, false, d.holders[1]), d.holders[1]);
    LinkedDataExists(s0, n.oldref);
  }

  /** What the user sees: the original pointer comes back, the library no longer refers to the user's data
      and does not free it. */
  lemma ReclaimGivesBack(d: Desc, n: Names, sized: bool)
    requires Valid(d) && Free(d.store, n) && d.metadata && |d.holders| == 2 && !IsNull(d.store, d.holders[1])
    ensures var s, data := d.store, d.store.refs[d.holders[1]].content.value;
      var b := s.datas[data].buffer;
      var (d', out) := Reclaim(d, n, sized, true);
      && Valid(d') && d'.holders == [n.place]
      && out == Done(s.datas[data].address)
      && (forall q | q in d'.store.refs && q in s.refs && LinkedTo(s, q, data) :: IsNull(d'.store, q))
      && b in d'.store.buffers && d'.store.buffers[b].freed == 0
  {
    hide Inv, Forget, Sound, GiveUp, Replace, PopTop, Reclaim, Popped;
    ReclaimValid(d, n, sized);
    ReclaimIs(d, n, sized);
    PoppedShape(d, n);
    var s, s1, data := d.store, Popped(d, n), d.store.refs[d.holders[1]].content.value;
    InvSound(s);
    InvSound(s1);
    var s2 := Replace(s1, n, sized);
    InvSound(s2);
    ReplaceShape(s1, n, sized);
    GiveUpShape(s2, n.oldref, data);
    GiveUpInv(s2, n.oldref);
  }

  /** The placeholder is readable exactly when the value has data, was shared readable and no other reference
      was writing it; it is then alone on new memory that holds the copy. */
  ghost predicate KeepsCopy(s: State, top: Id, bottom: Id, n: Names, sized: bool, d': Desc)
    requires Sound(s) && top in s.refs && !IsNull(s, top) && Sound(d'.store) && n.place in d'.store.refs
  {
    var b := s.datas[s.refs[top].content.value].buffer;
    && (!IsNull(d'.store, n.place) <==>
          s.buffers[b].readable && Writers(s, b) <= {top, bottom} && sized)
    && (!IsNull(d'.store, n.place) ==>
          && d'.store.refs[n.place] == Ref(true, false, Some(n.data))
          && d'.store.datas[n.data] == Data(n.buffer, n.address)
          && forall q | Linked(d'.store, q, n.buffer) :: q == n.place)
  }

  /** What the descriptor keeps: it goes on yielding the value whenever that was possible. */
  lemma ReclaimKeepsCopy(d: Desc, n: Names, sized: bool, d': Desc)
    requires Valid(d) && Free(d.store, n) && d.metadata && |d.holders| == 2 && !IsNull(d.store, d.holders[1])
    requires d' == Reclaim(d, n, sized, true).0
    ensures Sound(d'.store) && n.place in d'.store.refs && KeepsCopy(d.store, d.holders[1], d.holders[0], n, sized, d')
  {
    hide Inv, Forget, Sound, GiveUp, Replace, PopTop, Reclaim, Popped, Writers;
    ReclaimIs(d, n, sized);
    ReadableIff(d, n);
    var s1 := Popped(d, n);
    InvSound(s1);
    InvSound(d.store);
    var s2 := Replace(s1, n, sized);
    InvSound(s2);
    ReplaceShape(s1, n, sized);
    PoppedShape(d, n);
    GiveUpInv(s2, n.oldref);
    InvSound(GiveUp(s2, n.oldref));
    if CopyMade(s1, n, sized) {
      GiveUpKeeps(s2, n.oldref, n.place);
      forall q | Linked(d'.store, q, n.buffer)
        ensures q == n.place
      {
        OnlyPlace(s1, n, sized, q);
      }
    }
  }

  /** Giving a reference up makes the others on the same data null and frees nothing. */
  lemma GiveUpShape(s: State, r: Id, data: Id)
    requires Inv(s) && r in s.refs && s.refs[r].content == Some(data) && !IsNull(s, r)
    ensures var s' := GiveUp(s, r);
      && Inv(s')
      && (forall q | q in s'.refs && q in s.refs && LinkedTo(s, q, data) :: IsNull(s', q))
      && s.datas[data].buffer in s'.buffers && s'.buffers[s.datas[data].buffer].freed == 0
      && !s'.buffers[s.datas[data].buffer].owns
  {
    hide Inv, Release, Sound;
    InvSound(s);
    ReleaseNulls(s, r);
    ReleaseRefs(s, r);
    InvSound(Release(s, r));
    NullReset(Release(s, r), r);
    GiveUpInv(s, r);
    InvSound(GiveUp(s, r));
  }
}
