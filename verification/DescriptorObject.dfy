/** The data descriptor as the source runs it: a stack of references on a store, updated step by step. */
module DescriptorObject {
  import opened Options
  import opened References
  import opened ReferenceInvariant
  import opened ReferenceRuns
  import opened ReferenceStore
  import opened Descriptor

  class DataDescriptor {
    const store: Store
    var holders: seq<Id>
    var metadata: bool

    constructor (s: Store)
      requires Inv(s.Value())
      ensures store == s && View() == Desc(s.Value(), [], false) && Valid(View())
    {
      store, holders, metadata := s, [], false;
    }

    ghost function View(): Desc
      reads this, store
    {
      Desc(store.Value(), holders, metadata)
    }

    /** Destroys a reference. */
    method Destroy(r: Id)
      requires Inv(store.Value()) && r in store.refs
      modifies store
      ensures store.Value() == Forget(old(store.Value()), r) && Inv(store.Value())
      ensures store.refs == old(store.refs) - {r}
    {
      hide Inv, Reset;
      InvSound(store.Value());
      ForgetInv(store.Value(), r);
      store.Nullify(r);
      store.refs := store.refs - {r};
    }

    /** A reference with the given rights, made and destroyed again: whether it can be had. */
    method Probe(r: Id, read: bool, write: bool, from: Id) returns (granted: bool)
      requires Inv(store.Value()) && r !in store.refs && from in store.refs
      modifies store
      ensures store.Value() == old(store.Value()) && Inv(store.Value())
      ensures Sound(store.Value()) && granted == Obtainable(store.Value(), read, write, from)
    {
      hide Inv, Copy, Forget;
      InvSound(store.Value());
      CopyShape(store.Value(), r, read, write, from);
      TemporaryIsInvisible(store.Value(), r, read, write, from);
      store.CopyConstruct(r, read, write, from);
      InvSound(store.Value());
      granted := store.refs[r].content.Some?;
      Destroy(r);
    }

    /** `metadata(bool)`: only an empty descriptor may change, and metadata gets a placeholder. */
    method SetMetadata(on: bool, place: Id) returns (ok: bool)
      requires Valid(View()) && place !in store.refs
      modifies this, store
      ensures Valid(View()) && ok == (old(holders) == [])
      ensures !ok ==> View() == old(View())
      ensures ok ==> metadata == on && |holders| == (if on then 1 else 0)
      ensures ok && on ==> holders == [place] && store.Value() == New(old(store.Value()), place, true, false)
      ensures ok && !on ==> store.Value() == old(store.Value())
    {
      hide Inv;
      if holders != [] { return false; }
      metadata := on;
      if on {
        NewInv(store.Value(), place, true, false);
        store.refs := store.refs[place := Ref(true, false, None)];
        holders := [place];
      }
      return true;
    }

    /** `share(Ref, bool, bool)`; `notified` tells whether the callbacks succeed. */
    method Share(h: Id, from: Id, read: bool, write: bool, notified: bool) returns (out: Descriptor.Outcome)
      requires Valid(View()) && from in store.refs && h !in store.refs
      modifies this, store
      ensures (View(), out) == ShareRef(old(View()), h, from, read, write, notified)
      ensures Valid(View())
    {
      hide Inv, Copy, Forget, Sound;
      ShareRefIff(View(), h, from, read, write, notified);
      InvSound(store.Value());
      ghost var s := store.Value();
      if metadata {
        var readable := Probe(h, true, false, from);
        if !readable { return Failed; }
      }
      var result: nat := 0;
      if read || write {
        var granted := Probe(h, read, write, from);
        if granted { result := store.datas[store.refs[from].content.value].address; }
      }
      CopyShape(s, h, read, write, from);
      store.CopyConstruct(h, read, write, from);
      InvSound(store.Value());
      holders := holders + [h];
      if (!IsNull(store.Value(), from) && IsNull(store.Value(), h)) || !notified {
        holders := holders[..|holders| - 1];
        Destroy(h);
        return Failed;
      }
      return Done(result);
    }

    /** `share(void*, bool, bool)`: the memory is wrapped in a reference, which on failure must not free it. */
    method ShareMemory(n: Fresh, address: nat, sized: bool, read: bool, write: bool, notified: bool)
      returns (out: Descriptor.Outcome)
      requires Valid(View()) && Unused(store.Value(), n)
      modifies this, store
      ensures (View(), out) == ShareData(old(View()), n, address, sized, read, write, notified)
    {
      hide Inv, Copy, Forget, Sound, Create, ShareRef, Release;
      if sized && address == 0 && (read || write) { return Failed; }
      CreateShape(store.Value(), n.r, n.data, n.buffer, address, read, write);
      InvSound(store.Value());
      var s := Create(store.Value(), n.r, false, false, n.data, n.buffer, address, read, write);
      store.buffers, store.datas, store.refs := s.buffers, s.datas, s.refs;
      ShareRefIff(View(), n.h, n.r, false, false, notified);
      assert View() == old(View()).(store := s);
      out := Share(n.h, n.r, false, false, notified);
      if out.Failed? {
        var address', notifications := store.Surrender(n.r);
        ReleaseRefs(s, n.r);
      } else {
        CopyShape(s, n.h, false, false, n.r);
      }
      Destroy(n.r);
      out := if out.Failed? then Failed else Done(0);
    }

    /** Takes the top of the stack out of it, into a reference of its own. */
    method PopInto(oldref: Id)
      requires Valid(View()) && holders != [] && oldref !in store.refs
      modifies this, store
      ensures store.Value() == PopTop(old(store.Value()), old(holders)[|old(holders)| - 1], oldref)
      ensures Inv(store.Value())
      ensures holders == old(holders)[..|old(holders)| - 1] && metadata == old(metadata)
    {
      hide Inv, Copy, Forget, Sound;
      var top := holders[|holders| - 1];
      CopyShape(store.Value(), oldref, false, false, top);
      store.CopyConstruct(oldref, false, false, top);
      holders := holders[..|holders| - 1];
      Destroy(top);
    }

    method ReleaseShare(n: Names, notified: bool) returns (out: Descriptor.Outcome)
      requires Valid(View()) && Free(store.Value(), n)
      modifies this, store
      ensures (View(), out) == ReleaseTop(old(View()), n, notified)
    {
      hide Inv, Copy, Forget, Sound, PopTop;
      if holders == [] || (|holders| == 1 && metadata) { return Failed; }
      if !notified { return Failed; }
      PopInto(n.oldref);
      if metadata && |holders| == 1 {
        var bottom := holders[0];
        holders := [];
        Destroy(bottom);
        CopyShape(store.Value(), n.place, true, false, n.oldref);
        store.CopyConstruct(n.place, true, false, n.oldref);
        holders := [n.place];
      }
      Destroy(n.oldref);
      return Done(0);
    }

    /** A copy of the old reference, when it can be read, becomes the placeholder. */
    method PlaceCopy(n: Names, sized: bool)
      requires Inv(store.Value()) && n.oldref in store.refs && n.copy !in store.refs && n.place !in store.refs
      requires n.copy != n.place
      requires n.data !in store.datas && n.buffer !in store.buffers && n.address != 0
      modifies this, store
      ensures store.Value() == Replace(old(store.Value()), n, sized) && Inv(store.Value())
      ensures holders == [n.place] && metadata == old(metadata)
    {
      hide Inv, Copy, Forget, Sound, Create;
      var readable := Probe(n.copy, true, false, n.oldref);
      if readable && sized {
        CreateShape(store.Value(), n.copy, n.data, n.buffer, n.address, true, true);
        MakeCopyShape(store.Value(), n);
        InvSound(store.Value());
        var s := Create(store.Value(), n.copy, false, false, n.data, n.buffer, n.address, true, true);
        store.buffers, store.datas, store.refs := s.buffers, s.datas, s.refs;
        CopyShape(s, n.place, true, false, n.copy);
        store.CopyConstruct(n.place, true, false, n.copy);
        Destroy(n.copy);
      } else {
        NewInv(store.Value(), n.place, true, false);
        store.refs := store.refs[n.place := Ref(true, false, None)];
      }
      holders := [n.place];
    }

    /** `release` and the end of the reference. */
    method GiveBack(r: Id) returns (address: nat)
      requires Inv(store.Value()) && r in store.refs
      modifies store
      ensures store.Value() == GiveUp(old(store.Value()), r) && Inv(store.Value())
      ensures Sound(old(store.Value())) && address == UserPointer(old(store.Value()), r)
    {
      hide Inv, Release, Forget, Sound;
      InvSound(store.Value());
      ReleaseInv(store.Value(), r);
      ReleaseRefs(store.Value(), r);
      var notifications;
      address, notifications := store.Surrender(r);
      Destroy(r);
    }

    method ReclaimShare(n: Names, sized: bool, notified: bool) returns (out: Descriptor.Outcome)
      requires Valid(View()) && Free(store.Value(), n)
      modifies this, store
      ensures (View(), out) == Reclaim(old(View()), n, sized, notified)
    {
      hide Inv, Copy, Forget, Sound, PopTop, Replace, Release, GiveUp;
      if holders == [] || (|holders| == 1 && metadata) { return Failed; }
      if !notified { return Failed; }
      ghost var d := View();
      PopInto(n.oldref);
      InvSound(store.Value());
      if metadata && |holders| == 1 {
        PopKeepsNew(d.store, d.holders[|d.holders| - 1], holders[0], n);
        PointerKept(store.Value(), holders[0], n, sized);
        var bottom := holders[0];
        holders := [];
        Destroy(bottom);
        PlaceCopy(n, sized);
      }
      var address := GiveBack(n.oldref);
      return Done(address);
    }
  }

  ghost function UserPointer(s: State, r: Id): nat
    requires Sound(s) && r in s.refs
  {
    if IsNull(s, r) then 0 else AddressOf(s, r)
  }

  /** Replacing the placeholder does not touch the address that goes back to the user. */
  lemma PointerKept(s: State, bottom: Id, n: Names, sized: bool)
    requires Inv(s) && bottom in s.refs && n.oldref in s.refs && bottom != n.oldref
    requires n.copy !in s.refs && n.place !in s.refs && n.copy != n.place && n.oldref != n.place && n.address != 0
    requires var s1 := (InvSound(s); Forget(s, bottom)); n.data !in s1.datas && n.buffer !in s1.buffers
    ensures var s1 := Forget(s, bottom);
      && Inv(s1) && s1.refs == s.refs - {bottom}
      && Inv(Replace(s1, n, sized)) && Sound(Replace(s1, n, sized))
      && UserPointer(Replace(s1, n, sized), n.oldref) == UserPointer(s, n.oldref)
  {
    hide Core, Alive, Forget, Replace;
    CoreSound(s);
    ForgetInv(s, bottom);
    ForgetData(s, bottom);
    var s1 := Forget(s, bottom);
    CoreSound(s1);
    ReplaceShape(s1, n, sized);
    CoreSound(Replace(s1, n, sized));
  }
}
