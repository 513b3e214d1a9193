/** The operations of references as the source runs them: fields updated one after the other. */
module ReferenceStore {
  import opened Options
  import opened References
  import opened ReferenceInvariant
  import opened ReferenceRuns
  import opened ReferenceMeaning

  class Store {
    var buffers: map<Id, Buffer>
    var datas: map<Id, Data>
    var refs: map<Id, Ref>

    constructor ()
      ensures Value() == EMPTY && Inv(Value())
    {
      buffers, datas, refs := map[], map[], map[];
    }

    function Value(): State
      reads this
    {
      State(buffers, datas, refs)
    }

    /** `link` */
    method LinkTo(r: Id, d: Id)
      requires Sound(Value()) && r in refs && refs[r].content.None? && d in datas
      modifies this
      ensures Value() == Link(old(Value()), r, d)
      ensures var s, b := old(Value()), old(datas[d].buffer);
        old(datas[d].address) != 0 && LocksOk(s, b) ==>
          (r in refs && refs[r].content == Some(d) <==>
             && (s.refs[r].read ==> s.buffers[b].readable && Writers(s, b) == {})
             && (s.refs[r].write ==> s.buffers[b].writable && Holders(s, b) == {}))
    {
      if LocksOk(Value(), datas[d].buffer) { GrantsIff(Value(), datas[d].buffer, refs[r].read, refs[r].write); }
      if datas[d].address == 0 { return; }
      var b := datas[d].buffer;
      if (refs[r].read && buffers[b].readLocks != 0) || (refs[r].write && buffers[b].writeLocks != 0) {
        return;
      }
      var buffer := buffers[b];
      if refs[r].read || refs[r].write { buffer := buffer.(writeLocks := buffer.writeLocks + 1); }
      if refs[r].write { buffer := buffer.(readLocks := buffer.readLocks + 1); }
      buffers, refs := buffers[b := buffer], refs[r := refs[r].(content := Some(d))];
    }

    /** The last owner of a data descriptor destroys it, and the last data descriptor its buffer. */
    method DropIfLast(d: Id)
      requires Sound(Value()) && d in datas
      modifies this
      ensures Value() == Collect(old(Value()), d)
    {
      if HasRef(Value(), d) { return; }
      var b := datas[d].buffer;
      datas := datas - {d};
      if !HasData(datas, b) {
        if buffers[b].owns {
          buffers := buffers[b := buffers[b].(freed := buffers[b].freed + 1)];
        }
        buffers := buffers[b := buffers[b].(destroyed := true)];
      }
    }

    /** `unlink` */
    method Leave(r: Id)
      requires Inv(Value()) && r in refs && refs[r].content.Some?
      modifies this
      ensures Value() == Unlink(old(Value()), r) && Inv(Value())
    {
      hide Core, Alive, Collect, Sound;
      CoreSound(Value());
      UnlinkInv(Value(), r);
      DetachCore(Value(), r);
      CoreSound(Detach(Value(), r));
      var d := refs[r].content.value;
      var b := datas[d].buffer;
      var buffer := buffers[b].(notifications := buffers[b].notifications - {r});
      if refs[r].read || refs[r].write { buffer := buffer.(writeLocks := buffer.writeLocks - 1); }
      if refs[r].write { buffer := buffer.(readLocks := buffer.readLocks - 1); }
      buffers, refs := buffers[b := buffer], refs[r := refs[r].(content := None)];
      assert Value() == Detach(old(Value()), r);
      DropIfLast(d);
    }

    method Nullify(r: Id)
      requires Inv(Value()) && r in refs
      modifies this
      ensures Value() == Reset(old(Value()), r) && Inv(Value())
    {
      if refs[r].content.Some? {
        Leave(r);
      }
    }

    /** `is_null`, which drops released content */
    method TestNull(r: Id) returns (isNull: bool)
      requires Inv(Value()) && r in refs
      modifies this
      ensures isNull == old(IsNull(Value(), r)) && Value() == Settle(old(Value()), r) && Inv(Value())
    {
      if refs[r].content.None? { return true; }
      if datas[refs[r].content.value].address == 0 {
        Leave(r);
        return true;
      }
      return false;
    }

    /** The copy constructors: a null reference when the rights cannot be granted */
    method CopyConstruct(r: Id, read: bool, write: bool, from: Id)
      requires Inv(Value()) && r !in refs && from in refs
      modifies this
      ensures Value() == Copy(old(Value()), r, read, write, from) && Inv(Value())
      ensures var s := old(Value());
        Sound(s) && !IsNull(s, from) ==>
          var b := s.datas[s.refs[from].content.value].buffer;
          (r in refs && refs[r].content == s.refs[from].content <==>
             && (read ==> s.buffers[b].readable && Writers(s, b) == {})
             && (write ==> s.buffers[b].writable && Holders(s, b) == {}))
    {
      hide Core, Alive, Writers, Holders, LocksOk;
      CoreSound(Value());
      if !IsNull(Value(), from) { CopyGrantedIff(Value(), r, read, write, from); }
      CopyInv(Value(), r, read, write, from);
      NewInv(Value(), r, read, write);
      refs := refs[r := Ref(read, write, None)];
      if refs[from].content.Some? && datas[refs[from].content.value].address != 0 {
        LinkTo(r, refs[from].content.value);
      }
    }

    method MoveConstruct(r: Id, from: Id)
      requires Inv(Value()) && r !in refs && from in refs
      modifies this
      ensures Value() == MoveNew(old(Value()), r, from) && Inv(Value())
    {
      hide Core, Alive;
      CoreSound(Value());
      MoveNewInv(Value(), r, from);
      refs := refs[r := Ref(refs[from].read, refs[from].write, None)];
      if refs[from].content.None? { return; }
      var b := datas[refs[from].content.value].buffer;
      buffers := buffers[b := buffers[b].(notifications := buffers[b].notifications - {from})];
      refs := refs[r := refs[r].(content := refs[from].content)][from := refs[from].(content := None)];
    }

    /** The move assignment */
    method Assign(r: Id, from: Id)
      requires Inv(Value()) && Applies(Value(), AssignFrom(r, from))
      modifies this
      ensures Value() == Apply(old(Value()), AssignFrom(r, from)) && Inv(Value())
    {
      hide Core, Alive, Reset, Sound;
      CoreSound(Value());
      AssignInv(Value(), r, from);
      if r == from { return; }
      ResetRefs(Value(), r);
      Nullify(r);
      CoreSound(Value());
      ghost var s := Value();
      var isNull := TestNull(from);
      if isNull { return; }
      var b := datas[refs[from].content.value].buffer;
      buffers := buffers[b := buffers[b].(notifications := buffers[b].notifications - {from})];
      refs := refs[r := refs[r].(content := refs[from].content)][from := refs[from].(content := None)];
      assert Value() == Steal(s, r, from);
    }

    /** `operator[]`: a reference without rights to a part of the value */
    method SubReference(r: Id, from: Id, d: Id, address: nat) returns (ok: bool)
      requires Inv(Value()) && r !in refs && from in refs && d !in datas && address != 0
      modifies this
      ensures ok == !old(IsNull(Value(), from)) && Inv(Value())
      ensures Value() == if ok then SubRef(old(Value()), r, from, d, address) else Settle(old(Value()), from)
    {
      hide Core, Alive, Reset, Sound, Link;
      CoreSound(Value());
      var isNull := TestNull(from);
      if isNull { return false; }
      SubRefInv(Value(), r, from, d, address);
      var b := datas[refs[from].content.value].buffer;
      refs, datas := refs[r := Ref(false, false, None)], datas[d := Data(b, address)];
      SubDataSound(old(Value()), r, from, d, address);
      LinkTo(r, d);
      return true;
    }

    method Register(r: Id)
      requires Inv(Value()) && r in refs
      modifies this
      ensures Value() == OnNullify(old(Value()), r) && Inv(Value())
    {
      hide Core, Alive, Sound, Reset;
      CoreSound(Value());
      OnNullifyInv(Value(), r);
      var isNull := TestNull(r);
      if !isNull {
        var b := datas[refs[r].content.value].buffer;
        buffers := buffers[b := buffers[b].(notifications := buffers[b].notifications + {r})];
      }
    }

    /** `release`: calls each notification once, then gives the memory back */
    method Surrender(r: Id) returns (address: nat, notified: seq<Id>)
      requires Inv(Value()) && r in refs
      modifies this
      ensures Value() == Release(old(Value()), r) && Inv(Value())
      ensures address == if old(IsNull(Value(), r)) then 0 else old(datas[refs[r].content.value].address)
      ensures if old(IsNull(Value(), r)) then notified == []
              else Enumerates(notified, old(buffers[datas[refs[r].content.value].buffer].notifications))
    {
      hide Core, Alive, Release, Unlink, Sound, Reset, Enumerates;
      CoreSound(Value());
      ReleaseInv(Value(), r);
      ReleaseIs(Value(), r);
      var isNull := TestNull(r);
      if isNull { return 0, []; }
      DisarmInv(Value(), r);
      ghost var start := Value();
      var d := refs[r].content.value;
      var b := datas[d].buffer;
      var pending := buffers[b].notifications;
      notified := CallAll(pending);
      address := datas[d].address;
      datas := datas[d := datas[d].(address := 0)];
      buffers := buffers[b := buffers[b].(notifications := {}, owns := false)];
      assert Value() == Disarm(start, r);
      Leave(r);
    }
  }

  /** Each element once. */
  ghost predicate Enumerates(keys: seq<Id>, all: set<Id>) {
    (forall q :: q in keys <==> q in all) && forall i, j | 0 <= i < j < |keys| :: keys[i] != keys[j]
  }

  /** The loop of `release`: call a notification, then remove it, until none is left. */
  method CallAll(notifications: set<Id>) returns (called: seq<Id>)
    ensures Enumerates(called, notifications)
  {
    var pending := notifications;
    called := [];
    while pending != {}
      invariant pending <= notifications
      invariant Enumerates(called, notifications - pending)
      decreases pending
    {
      var key :| key in pending;
      called := called + [key];
      pending := pending - {key};
    }
  }

  lemma SubDataSound(s: State, r: Id, from: Id, d: Id, address: nat)
    requires Sound(s) && r !in s.refs && from in s.refs && !IsNull(s, from) && d !in s.datas
    ensures var b := s.datas[s.refs[from].content.value].buffer;
      Sound(State(s.buffers, s.datas[d := Data(b, address)], s.refs[r := Ref(false, false, None)]))
  {
  }

  lemma ReleaseIs(s: State, r: Id)
    requires Sound(s) && r in s.refs
    ensures Release(s, r) == if IsNull(s, r) then Reset(s, r) else Unlink(Disarm(s, r), r)
  {
  }
}
