/** Every call on a descriptor is a run of operations on references: what such runs do to a reference they do not
    touch, and which run each call is. */
module DescriptorOps {
  import opened Options
  import opened References
  import opened ReferenceInvariant
  import opened ReferenceRuns
  import opened Descriptor

  // ----- what a reference shows -----

  /** The data behind a reference, with its buffer and its address, or nothing once that is given back. */
  datatype Entry = Gone | Entry(data: Id, buffer: Id, address: nat)

  ghost function EntryOf(s: State, r: Id): Entry
    requires Sound(s) && r in s.refs
  {
    if IsNull(s, r) then Gone
    else Entry(s.refs[r].content.value, s.datas[s.refs[r].content.value].buffer, AddressOf(s, r))
  }

  function PointerOf(x: Entry): nat {
    if x.Gone? then 0 else x.address
  }

  /** What is left of `x` once the data of `given` is given back. */
  function Left(x: Entry, given: Entry): Entry {
    if x.Entry? && given.Entry? && x.data == given.data then Gone else x
  }

  // ----- one operation -----

  /** The references whose content the operation may change. */
  function Touches(op: Op): set<Id> {
    match op
    case MoveFrom(r, from) => {r, from}
    case AssignFrom(r, from) => {r, from}
    case _ => {op.r}
  }

  /** What the operation gives back to the user. */
  ghost function Given(s: State, op: Op): Entry
    requires Sound(s) && Applies(s, op)
  {
    if op.GiveBack? then EntryOf(s, op.r) else Gone
  }

  lemma ResetData(s: State, r: Id)
    requires Sound(s) && r in s.refs
    ensures forall e | e in Reset(s, r).datas :: e in s.datas && Reset(s, r).datas[e] == s.datas[e]
  {
  }

  /** Data that stays keeps its address, unless it is given back. */
  lemma OpData(s: State, op: Op, e: Id)
    requires Inv(s) && Sound(s) && Applies(s, op) && e in s.datas && e in Apply(s, op).datas
    ensures Apply(s, op).datas[e] ==
      if op.GiveBack? && EntryOf(s, op.r).Entry? && EntryOf(s, op.r).data == e then s.datas[e].(address := 0)
      else s.datas[e]
  {
    hide Inv, Reset;
    match op
    case Construct(_, _, _) =>
    case Wrap(r, read, write, d, b, address, readable, writable) => WrapData(s, op);
    case CopyFrom(_, _, _, _) =>
    case MoveFrom(_, _) =>
    case AssignFrom(r, from) => AssignData(s, r, from);
    case Sub(_, _, _, _) =>
    case Clear(r) => ResetData(s, r);
    case Drop(r) => ResetData(s, r);
    case Test(r) => ResetData(s, r);
    case Notify(r) => ResetData(s, r);
    case GiveBack(r) => GiveBackData(s, r);
  }

  lemma WrapData(s: State, op: Op)
    requires Inv(s) && Sound(s) && op.Wrap? && Applies(s, op)
    ensures forall e | e in s.datas && e in Apply(s, op).datas :: Apply(s, op).datas[e] == s.datas[e]
  {
    hide Inv;
  }

  lemma AssignData(s: State, r: Id, from: Id)
    requires Inv(s) && Sound(s) && Applies(s, AssignFrom(r, from))
    ensures var s' := Apply(s, AssignFrom(r, from));
      forall e | e in s.datas && e in s'.datas :: s'.datas[e] == s.datas[e]
  {
    hide Inv, Reset;
    ResetInv(s, r);
    ResetRefs(s, r);
    ResetData(s, r);
    InvSound(Reset(s, r));
    ResetData(Reset(s, r), from);
  }

  lemma GiveBackData(s: State, r: Id)
    requires Inv(s) && Sound(s) && r in s.refs
    ensures var s', x := Release(s, r), EntryOf(s, r);
      forall e | e in s.datas && e in s'.datas ::
        s'.datas[e] == if x.Entry? && x.data == e then s.datas[e].(address := 0) else s.datas[e]
  {
    hide Inv, Reset, Disarm;
    ResetData(s, r);
    if !IsNull(s, r) {
      DisarmInv(s, r);
      InvSound(Disarm(s, r));
      DisarmKeepsRefs(s, r);
      UnlinkIsReset(Disarm(s, r), r);
      ResetData(Disarm(s, r), r);
      DisarmData(s, r);
    }
  }

  lemma DisarmData(s: State, r: Id)
    requires Sound(s) && r in s.refs && s.refs[r].content.Some?
    ensures Disarm(s, r).datas == s.datas[s.refs[r].content.value := s.datas[s.refs[r].content.value].(address := 0)]
  {
  }

  /** References that are not touched are left alone. */
  lemma OpRefs(s: State, op: Op, q: Id)
    requires Inv(s) && Sound(s) && Applies(s, op) && q in s.refs && q !in Touches(op)
    ensures q in Apply(s, op).refs && Apply(s, op).refs[q] == s.refs[q]
  {
    hide Inv, Reset, Release;
    match op
    case Construct(_, _, _) =>
    case Wrap(_, _, _, _, _, _, _, _) => WrapRefs(s, op, q);
    case CopyFrom(_, _, _, _) =>
    case MoveFrom(_, _) =>
    case AssignFrom(r, from) => AssignRefs(s, r, from, q);
    case Sub(_, _, _, _) =>
    case Clear(r) => ResetRefs(s, r);
    case Drop(r) => ResetRefs(s, r);
    case Test(r) => ResetRefs(s, r);
    case Notify(r) => ResetRefs(s, r);
    case GiveBack(r) => ReleaseRefs(s, r);
  }

  lemma WrapRefs(s: State, op: Op, q: Id)
    requires Inv(s) && Sound(s) && op.Wrap? && Applies(s, op) && q in s.refs
    ensures q in Apply(s, op).refs && Apply(s, op).refs[q] == s.refs[q]
  {
    hide Inv, HasRef, HasData, Lock;
  }

  lemma AssignRefs(s: State, r: Id, from: Id, q: Id)
    requires Inv(s) && Sound(s) && Applies(s, AssignFrom(r, from)) && q in s.refs && q != r && q != from
    ensures var s' := Apply(s, AssignFrom(r, from));
      q in s'.refs && s'.refs[q] == s.refs[q]
  {
    hide Inv, Reset;
    ResetInv(s, r);
    ResetRefs(s, r);
    InvSound(Reset(s, r));
    ResetRefs(Reset(s, r), from);
  }

  /** A reference that is not touched shows what it showed, unless its data is given back. */
  lemma OpEntry(s: State, op: Op, q: Id)
    requires Inv(s) && Sound(s) && Applies(s, op) && q in s.refs && q !in Touches(op)
    ensures var s' := Apply(s, op);
      && Inv(s') && Sound(s') && q in s'.refs && s'.refs[q] == s.refs[q]
      && EntryOf(s', q) == Left(EntryOf(s, q), Given(s, op))
  {
    hide Inv, Apply;
    ApplyInv(s, op);
    InvSound(Apply(s, op));
    OpRefs(s, op, q);
    if s.refs[q].content.Some? {
      OpData(s, op, s.refs[q].content.value);
    }
  }

  // ----- runs of operations -----

  ghost predicate AppliesAll(s: State, ops: seq<Op>)
    requires Inv(s)
    decreases |ops|
  {
    ops != [] ==>
      && Applies(s, ops[0])
      && (ApplyInv(s, ops[0]); AppliesAll(Apply(s, ops[0]), ops[1..]))
  }

  ghost function ApplyAll(s: State, ops: seq<Op>): (s': State)
    requires Inv(s) && AppliesAll(s, ops)
    ensures Inv(s')
    decreases |ops|
  {
    if ops == [] then s
    else
      ApplyInv(s, ops[0]);
      ApplyAll(Apply(s, ops[0]), ops[1..])
  }

  lemma {:induction false} ApplyAllAppend(s: State, ops: seq<Op>, more: seq<Op>)
    requires Inv(s) && AppliesAll(s, ops) && AppliesAll(ApplyAll(s, ops), more)
    ensures AppliesAll(s, ops + more) && ApplyAll(s, ops + more) == ApplyAll(ApplyAll(s, ops), more)
    decreases |ops|
  {
    hide Inv, Apply, Applies;
    if ops == [] {
      assert ops + more == more;
    } else {
      ApplyInv(s, ops[0]);
      assert (ops + more)[0] == ops[0] && (ops + more)[1..] == ops[1..] + more;
      ApplyAllAppend(Apply(s, ops[0]), ops[1..], more);
    }
  }

  /** Memory that was given back is never freed, whatever operations follow. */
  lemma {:induction false} StaysDisarmed(s: State, ops: seq<Op>, b: Id)
    requires Inv(s) && AppliesAll(s, ops) && b in s.buffers && !s.buffers[b].owns
    ensures var s' := ApplyAll(s, ops);
      b in s'.buffers && !s'.buffers[b].owns && s'.buffers[b].freed == 0
    decreases |ops|
  {
    hide Inv, Apply, Applies, Later;
    InvSound(s);
    if ops == [] {
      MemoryOf(s, b);
    } else {
      ApplyInv(s, ops[0]);
      InvSound(Apply(s, ops[0]));
      ApplyLater(s, ops[0]);
      LaterBuffer(s, Apply(s, ops[0]), b, Target(ops[0]));
      StaysDisarmed(Apply(s, ops[0]), ops[1..], b);
    }
  }

  /** A run of operations continues a run of references. */
  lemma {:induction false} ContinuesRun(before: seq<Op>, ops: seq<Op>)
    requires AppliesAll(Run(before), ops)
    ensures Run(before + ops) == ApplyAll(Run(before), ops)
    decreases |ops|
  {
    hide Inv, Apply, Applies, Run;
    if ops == [] {
      assert before + ops == before;
    } else {
      RunStep(before, ops[0]);
      assert before + [ops[0]] + ops[1..] == before + ops;
      ContinuesRun(before + [ops[0]], ops[1..]);
    }
  }

  /** The data, with its address, that the operation may make. */
  function Makes(op: Op): set<(Id, nat)> {
    if op.Wrap? || op.Sub? then {(op.d, op.address)} else {}
  }

  predicate MakeOnly(ops: seq<Op>, made: set<(Id, nat)>) {
    forall op | op in ops :: Makes(op) <= made
  }

  predicate Live(s: State, e: Id) {
    e in s.datas && s.datas[e].address != 0
  }

  lemma OpLive(s: State, op: Op, e: Id)
    requires Inv(s) && Sound(s) && Applies(s, op) && Live(Apply(s, op), e)
    ensures (e in s.datas && Apply(s, op).datas[e] == s.datas[e]) || (e, Apply(s, op).datas[e].address) in Makes(op)
  {
    hide Inv, Reset, Apply;
    if e in s.datas {
      OpData(s, op, e);
    } else {
      OpNewData(s, op, e);
    }
  }

  lemma OpNewData(s: State, op: Op, e: Id)
    requires Inv(s) && Sound(s) && Applies(s, op) && e in Apply(s, op).datas && e !in s.datas
    ensures (e, Apply(s, op).datas[e].address) in Makes(op)
  {
    hide Inv, Reset, Release;
    match op
    case Construct(_, _, _) =>
    case Wrap(_, _, _, _, _, _, _, _) => WrapNewData(s, op);
    case CopyFrom(_, _, _, _) =>
    case MoveFrom(_, _) =>
    case AssignFrom(r, from) => AssignNewData(s, r, from);
    case Sub(_, _, _, _) =>
    case Clear(r) => ResetData(s, r);
    case Drop(r) => ResetData(s, r);
    case Test(r) => ResetData(s, r);
    case Notify(r) => ResetData(s, r);
    case GiveBack(r) => GiveBackNewData(s, r);
  }

  lemma WrapNewData(s: State, op: Op)
    requires Inv(s) && Sound(s) && op.Wrap? && Applies(s, op)
    ensures forall e | e in Apply(s, op).datas && e !in s.datas ::
      e == op.d && Apply(s, op).datas[e].address == op.address
  {
    hide Inv, HasRef, HasData, Lock;
  }

  lemma AssignNewData(s: State, r: Id, from: Id)
    requires Inv(s) && Sound(s) && Applies(s, AssignFrom(r, from))
    ensures forall e | e in Apply(s, AssignFrom(r, from)).datas :: e in s.datas
  {
    hide Inv, Reset;
    ResetInv(s, r);
    ResetRefs(s, r);
    ResetData(s, r);
    InvSound(Reset(s, r));
    ResetData(Reset(s, r), from);
  }

  lemma GiveBackNewData(s: State, r: Id)
    requires Inv(s) && Sound(s) && r in s.refs
    ensures forall e | e in Release(s, r).datas :: e in s.datas
  {
    hide Inv, Reset, Disarm;
    ResetData(s, r);
    if !IsNull(s, r) {
      DisarmInv(s, r);
      InvSound(Disarm(s, r));
      DisarmKeepsRefs(s, r);
      UnlinkIsReset(Disarm(s, r), r);
      ResetData(Disarm(s, r), r);
      DisarmData(s, r);
    }
  }

  /** Data that is alive after a run was there before, with its address, or was made. */
  lemma {:induction false} AllLive(s: State, ops: seq<Op>, made: set<(Id, nat)>, e: Id)
    requires Inv(s) && AppliesAll(s, ops) && MakeOnly(ops, made) && Live(ApplyAll(s, ops), e)
    ensures var s' := ApplyAll(s, ops);
      (e in s.datas && s'.datas[e] == s.datas[e]) || (e, s'.datas[e].address) in made
    decreases |ops|
  {
    hide Inv, Apply, Applies, Makes;
    if ops != [] {
      InvSound(s);
      ApplyInv(s, ops[0]);
      AllLive(Apply(s, ops[0]), ops[1..], made, e);
      if Live(Apply(s, ops[0]), e) {
        OpLive(s, ops[0], e);
        assert Makes(ops[0]) <= made;
      }
    }
  }

  /** Some operations, making no data but those given, lead from one state to the other. */
  ghost predicate Reaches(s: State, s': State, made: set<(Id, nat)>)
    requires Inv(s)
  {
    exists ops: seq<Op> :: AppliesAll(s, ops) && ApplyAll(s, ops) == s' && MakeOnly(ops, made)
  }

  lemma ReachesSelf(s: State, made: set<(Id, nat)>)
    requires Inv(s)
    ensures Reaches(s, s, made)
  {
    hide Inv;
    assert AppliesAll(s, []) && ApplyAll(s, []) == s && MakeOnly([], made);
  }

  lemma ReachesThen(s: State, s': State, made: set<(Id, nat)>, op: Op)
    requires Inv(s) && Reaches(s, s', made) && Inv(s') && Sound(s') && Applies(s', op) && Makes(op) <= made
    ensures Reaches(s, Apply(s', op), made)
  {
    hide Inv, Apply, Applies, Sound, Makes;
    var ops: seq<Op> :| AppliesAll(s, ops) && ApplyAll(s, ops) == s' && MakeOnly(ops, made);
    ApplyInv(s', op);
    assert [op][1..] == [];
    assert AppliesAll(s', [op]) && ApplyAll(s', [op]) == Apply(s', op);
    ApplyAllAppend(s, ops, [op]);
    assert MakeOnly(ops + [op], made);
  }

  /** What is alive in a state that is reached. */
  lemma ReachesLive(s: State, s': State, made: set<(Id, nat)>, e: Id)
    requires Inv(s) && Reaches(s, s', made) && Live(s', e)
    ensures (e in s.datas && s'.datas[e] == s.datas[e]) || (e, s'.datas[e].address) in made
  {
    hide Inv, AppliesAll, ApplyAll, MakeOnly;
    var ops: seq<Op> :| AppliesAll(s, ops) && ApplyAll(s, ops) == s' && MakeOnly(ops, made);
    AllLive(s, ops, made, e);
  }

  // ----- the parts of the calls -----

  lemma CopyEntry(s: State, r: Id, read: bool, write: bool, from: Id)
    requires Inv(s) && Sound(s) && r !in s.refs && from in s.refs
    ensures var s' := Copy(s, r, read, write, from);
      && Inv(s') && Sound(s') && r in s'.refs
      && EntryOf(s', r) == if Obtainable(s, read, write, from) then EntryOf(s, from) else Gone
  {
    hide Inv, Copy;
    CopyShape(s, r, read, write, from);
    InvSound(Copy(s, r, read, write, from));
  }

  /** Destroying a reference changes nothing for the others. */
  lemma ForgetEntry(s: State, r: Id, q: Id)
    requires Inv(s) && Sound(s) && r in s.refs && q in s.refs && q != r
    ensures var s' := Forget(s, r);
      Inv(s') && Sound(s') && q in s'.refs && s'.refs[q] == s.refs[q] && EntryOf(s', q) == EntryOf(s, q)
  {
    hide Inv, Reset;
    OpEntry(s, Op.Drop(r), q);
  }

  /** Moving the top out of the stack keeps what it shows, and what all others do. */
  lemma PopEntry(s: State, top: Id, oldref: Id, q: Id)
    requires Inv(s) && Sound(s) && top in s.refs && oldref !in s.refs && q in s.refs && q != top
    ensures var s' := PopTop(s, top, oldref);
      && Inv(s') && Sound(s') && q in s'.refs && s'.refs[q] == s.refs[q] && EntryOf(s', q) == EntryOf(s, q)
  {
    hide Inv, Copy, Forget;
    CopyShape(s, oldref, false, false, top);
    OpEntry(s, CopyFrom(oldref, false, false, top), q);
    ForgetEntry(Copy(s, oldref, false, false, top), top, q);
  }

  lemma PoppedEntry(s: State, top: Id, oldref: Id)
    requires Inv(s) && Sound(s) && top in s.refs && oldref !in s.refs
    ensures var s' := PopTop(s, top, oldref);
      && Inv(s') && Sound(s') && oldref in s'.refs && EntryOf(s', oldref) == EntryOf(s, top)
  {
    hide Inv, Copy, Forget;
    CopyShape(s, oldref, false, false, top);
    CopyEntry(s, oldref, false, false, top);
    ForgetEntry(Copy(s, oldref, false, false, top), top, oldref);
  }

  /** Giving a reference up leaves nothing of its data to the others. */
  lemma GiveUpEntry(s: State, r: Id, q: Id)
    requires Inv(s) && Sound(s) && r in s.refs && q in s.refs && q != r
    ensures var s' := GiveUp(s, r);
      && Inv(s') && Sound(s') && q in s'.refs && s'.refs[q] == s.refs[q]
      && EntryOf(s', q) == Left(EntryOf(s, q), EntryOf(s, r))
  {
    hide Inv, Release, Forget;
    OpEntry(s, GiveBack(r), q);
    ReleaseRefs(s, r);
    ForgetEntry(Release(s, r), r, q);
  }

  // ----- a share that succeeds -----

  /** The reference that stays after a share that succeeded. */
  ghost function SharedState(s: State, n: Fresh, address: nat, read: bool, write: bool): State
    requires Inv(s) && Unused(s, n)
  {
    CreateShape(s, n.r, n.data, n.buffer, address, read, write);
    var s0 := Create(s, n.r, false, false, n.data, n.buffer, address, read, write);
    CopyShape(s0, n.h, false, false, n.r);
    Forget(Copy(s0, n.h, false, false, n.r), n.r)
  }

  lemma Added(refs: map<Id, Ref>, r: Id, h: Id, x: Ref)
    requires r !in refs && r != h
    ensures refs[r := x][h := x] - {r} == refs[h := x]
  {
  }

  lemma SharedShape(s: State, n: Fresh, address: nat, read: bool, write: bool)
    requires Inv(s) && Unused(s, n)
    ensures var s' := SharedState(s, n, address, read, write);
      && Inv(s') && Sound(s')
      && s'.refs == s.refs[n.h := Ref(false, false, if address == 0 then None else Some(n.data))]
      && EntryOf(s', n.h) == if address == 0 then Gone else Entry(n.data, n.buffer, address)
  {
    hide Inv, Copy, Create, Forget, Sound;
    InvSound(s);
    CreateShape(s, n.r, n.data, n.buffer, address, read, write);
    var s0 := Create(s, n.r, false, false, n.data, n.buffer, address, read, write);
    InvSound(s0);
    CopyShape(s0, n.h, false, false, n.r);
    CopyEntry(s0, n.h, false, false, n.r);
    var s1 := Copy(s0, n.h, false, false, n.r);
    InvSound(s1);
    ForgetInv(s1, n.r);
    ForgetEntry(s1, n.r, n.h);
    Added(s.refs, n.r, n.h, Ref(false, false, if address == 0 then None else Some(n.data)));
  }

  lemma SharedEntry(s: State, n: Fresh, address: nat, read: bool, write: bool, q: Id)
    requires Inv(s) && Sound(s) && Unused(s, n) && q in s.refs
    ensures var s' := SharedState(s, n, address, read, write);
      && Inv(s') && Sound(s') && q in s'.refs && EntryOf(s', q) == EntryOf(s, q)
  {
    hide Inv, Copy, Create, Forget;
    CreateShape(s, n.r, n.data, n.buffer, address, read, write);
    var s0 := Create(s, n.r, false, false, n.data, n.buffer, address, read, write);
    OpEntry(s, Wrap(n.r, false, false, n.data, n.buffer, address, read, write), q);
    CopyShape(s0, n.h, false, false, n.r);
    OpEntry(s0, CopyFrom(n.h, false, false, n.r), q);
    ForgetEntry(Copy(s0, n.h, false, false, n.r), n.r, q);
  }

  lemma ShareShape(d: Desc, n: Fresh, address: nat, sized: bool, read: bool, write: bool, ok: bool)
    requires Valid(d) && Unused(d.store, n) && ShareData(d, n, address, sized, read, write, ok).1.Done?
    ensures ShareData(d, n, address, sized, read, write, ok).0 ==
      d.(store := SharedState(d.store, n, address, read, write), holders := d.holders + [n.h])
  {
    hide Inv, Copy, Create, Forget, ShareRef, Release;
    InvSound(d.store);
    CreateShape(d.store, n.r, n.data, n.buffer, address, read, write);
    var s := Create(d.store, n.r, false, false, n.data, n.buffer, address, read, write);
    InvSound(s);
    ShareRefIff(d.(store := s), n.h, n.r, false, false, ok);
    assert ShareRef(d.(store := s), n.h, n.r, false, false, ok).1.Done?;
  }

  lemma PushedValid(d: Desc, d': Desc, h: Id)
    requires Valid(d) && h !in d.store.refs && Inv(d'.store) && d'.metadata == d.metadata
    requires d'.holders == d.holders + [h]
    requires d.store.refs.Keys + {h} <= d'.store.refs.Keys
    ensures Valid(d')
  {
    hide Inv;
  }

  lemma FailedShareValid(d: Desc, n: Fresh, address: nat, sized: bool, read: bool, write: bool, ok: bool)
    requires Valid(d) && Unused(d.store, n) && ShareData(d, n, address, sized, read, write, ok).1.Failed?
    ensures Valid(ShareData(d, n, address, sized, read, write, ok).0)
  {
    hide Inv, Copy, Reset, Create, ShareRef, Forget, Release;
    InvSound(d.store);
    if !(sized && address == 0 && (read || write)) {
      CreateShape(d.store, n.r, n.data, n.buffer, address, read, write);
      var s := Create(d.store, n.r, false, false, n.data, n.buffer, address, read, write);
      InvSound(s);
      ShareRefIff(d.(store := s), n.h, n.r, false, false, ok);
      ReleaseInv(s, n.r);
      ReleaseRefs(s, n.r);
      ForgetInv(Release(s, n.r), n.r);
    }
  }

  /** Sharing the user's memory succeeds exactly when it is there, readable for metadata, and the callbacks succeed. */
  lemma ShareDataIff(d: Desc, n: Fresh, address: nat, sized: bool, read: bool, write: bool, ok: bool)
    requires Valid(d) && Unused(d.store, n)
    ensures var out := ShareData(d, n, address, sized, read, write, ok).1;
      && (out.Done? <==>
            ok && !(sized && address == 0 && (read || write)) && (d.metadata ==> read && address != 0))
      && (out.Done? ==> out == Done(0))
  {
    hide Inv, Copy, Reset, Create, ShareRef, Forget, Release;
    InvSound(d.store);
    if !(sized && address == 0 && (read || write)) {
      CreateShape(d.store, n.r, n.data, n.buffer, address, read, write);
      var s := Create(d.store, n.r, false, false, n.data, n.buffer, address, read, write);
      InvSound(s);
      assert IsNull(s, n.r) <==> address == 0;
      assert Obtainable(s, false, false, n.r) <==> address != 0;
      assert Obtainable(s, true, false, n.r) <==> address != 0 && read;
      ShareRefIff(d.(store := s), n.h, n.r, false, false, ok);
      var (d1, out) := ShareRef(d.(store := s), n.h, n.r, false, false, ok);
      assert out.Done? <==> ShareData(d, n, address, sized, read, write, ok).1.Done?;
    }
  }
}
