/** Safety of references over every run of their operations. */
module ReferenceRuns {
  import opened Options
  import opened References
  import opened ReferenceInvariant

  datatype Op =
    | Construct(r: Id, read: bool, write: bool)
    | Wrap(r: Id, read: bool, write: bool, d: Id, b: Id, address: nat, readable: bool, writable: bool)
    | CopyFrom(r: Id, read: bool, write: bool, from: Id)
    | MoveFrom(r: Id, from: Id)
    | AssignFrom(r: Id, from: Id)
    | Sub(r: Id, from: Id, d: Id, address: nat)
    | Clear(r: Id)
    | Drop(r: Id)
    | Test(r: Id)
    | Notify(r: Id)
    | GiveBack(r: Id)

  /** The C++ types and assertions let the operation happen; new objects are new. */
  predicate Applies(s: State, op: Op)
    requires Sound(s)
  {
    match op
    case Construct(r, _, _) => r !in s.refs
    case Wrap(r, _, _, d, b, _, _, _) => r !in s.refs && d !in s.datas && b !in s.buffers
    case CopyFrom(r, _, _, from) => r !in s.refs && from in s.refs
    case MoveFrom(r, from) => r !in s.refs && from in s.refs
    case AssignFrom(r, from) =>
      r in s.refs && from in s.refs && s.refs[r].read == s.refs[from].read && s.refs[r].write == s.refs[from].write
    case Sub(r, from, d, address) => r !in s.refs && from in s.refs && !IsNull(s, from) && d !in s.datas && address != 0
    case Clear(r) => r in s.refs
    case Drop(r) => r in s.refs
    case Test(r) => r in s.refs
    case Notify(r) => r in s.refs
    case GiveBack(r) => r in s.refs
  }

  /** Move assignment: nothing on self, else reset and take over what is not null. */
  function MoveAssign(s: State, r: Id, from: Id): State
    requires Sound(s) && r in s.refs && from in s.refs && Sound(Reset(s, r)) && from in Reset(s, r).refs
  {
    if r == from then s
    else
      var s' := Reset(s, r);
      if IsNull(s', from) || s'.refs[r].content.Some? then Settle(s', from) else Steal(s', r, from)
  }

  function Apply(s: State, op: Op): State
    requires Inv(s) && Applies(s, op)
  {
    match op
    case Construct(r, read, write) => New(s, r, read, write)
    case Wrap(r, read, write, d, b, address, readable, writable) =>
      Create(s, r, read, write, d, b, address, readable, writable)
    case CopyFrom(r, read, write, from) => Copy(s, r, read, write, from)
    case MoveFrom(r, from) => MoveNew(s, r, from)
    case AssignFrom(r, from) =>
      ResetInv(s, r);
      ResetRefs(s, r);
      MoveAssign(s, r, from)
    case Sub(r, from, d, address) => SubRef(s, r, from, d, address)
    case Clear(r) => Reset(s, r)
    case Drop(r) => Reset(s, r).(refs := Reset(s, r).refs - {r})
    case Test(r) => Settle(s, r)
    case Notify(r) => OnNullify(s, r)
    case GiveBack(r) => Release(s, r)
  }

  /** A reset makes the reference null and leaves the others. */
  lemma ResetRefs(s: State, r: Id)
    requires Sound(s) && r in s.refs
    ensures Reset(s, r).refs == s.refs[r := s.refs[r].(content := None)]
  {
  }

  lemma DropInv(s: State, r: Id)
    requires Inv(s) && r in s.refs && s.refs[r].content.None?
    ensures Inv(s.(refs := s.refs - {r}))
  {
    hide Core, BufferOk;
    CoreSound(s);
    var s' := s.(refs := s.refs - {r});
    forall b | b in s'.buffers
      ensures BufferOk(s', b)
    {
      CoreAt(s, b);
      CoreDestroyed(s, b);
      Untouched(s, s', b);
    }
    CoreIntro(s');
    forall d | d in s.datas
      ensures HasRef(s', d)
    {
      assert HasRef(s, d);
      var q :| q in s.refs && LinkedTo(s, q, d);
      assert q in s'.refs && LinkedTo(s', q, d);
    }
  }

  lemma ApplyInv(s: State, op: Op)
    requires Inv(s) && Applies(s, op)
    ensures Inv(Apply(s, op))
  {
    hide Core, Alive, Link, Unlink, Collect, Steal, Disarm, New, Create, Copy, MoveNew, SubRef, Release, OnNullify,
      Reset;
    CoreSound(s);
    match op
    case Construct(r, read, write) => NewInv(s, r, read, write);
    case Wrap(r, read, write, d, b, address, readable, writable) =>
      CreateInv(s, r, read, write, d, b, address, readable, writable);
    case CopyFrom(r, read, write, from) => CopyInv(s, r, read, write, from);
    case MoveFrom(r, from) => MoveNewInv(s, r, from);
    case AssignFrom(r, from) => AssignInv(s, r, from);
    case Sub(r, from, d, address) => SubRefInv(s, r, from, d, address);
    case Clear(r) => ResetInv(s, r);
    case Drop(r) =>
      ResetInv(s, r);
      ResetRefs(s, r);
      DropInv(Reset(s, r), r);
    case Test(r) => ResetInv(s, r);
    case Notify(r) => OnNullifyInv(s, r);
    case GiveBack(r) => ReleaseInv(s, r);
  }

  lemma AssignInv(s: State, r: Id, from: Id)
    requires Inv(s) && Applies(s, AssignFrom(r, from))
    ensures Inv(Apply(s, AssignFrom(r, from)))
  {
    hide Core, Alive, Link, Unlink, Collect, Steal, Reset;
    CoreSound(s);
    ResetInv(s, r);
    ResetRefs(s, r);
    if r != from {
      var s' := Reset(s, r);
      CoreSound(s');
      if IsNull(s', from) {
        ResetInv(s', from);
      } else {
        StealInv(s', r, from);
      }
    }
  }

  // ----- runs -----

  const EMPTY := State(map[], map[], map[])

  ghost function Run(ops: seq<Op>): (s: State)
    ensures Inv(s)
    decreases |ops|
  {
    if ops == [] then EMPTY
    else
      var s, op := Run(ops[..|ops| - 1]), ops[|ops| - 1];
      if Applies(s, op) then ApplyInv(s, op); Apply(s, op) else s
  }

  /** In every run, the locks of every buffer are those it was created with plus the live references that
      take them, a live writer is the only reference on its buffer with any right, sub-references included,
      and read locks stay between 0 and 2. */
  lemma LockConservation(ops: seq<Op>, b: Id)
    requires b in Run(ops).buffers
    ensures var s, buffer := Run(ops), Run(ops).buffers[b];
      && buffer.readLocks == (if buffer.readable then 0 else 1) + |Writers(s, b)|
      && buffer.writeLocks == (if buffer.writable then 0 else 1) + |Holders(s, b)|
      && (forall w, r | w in Writers(s, b) && r in Holders(s, b) :: r == w)
      && (Writers(s, b) != {} ==> buffer.writable && buffer.writeLocks == 1)
      && 0 <= buffer.readLocks <= 2
  {
    hide Run, Core, Alive;
    var s := Run(ops);
    CoreAt(s, b);
    if Writers(s, b) != {} {
      var w :| w in Writers(s, b);
      WritersHold(s, b);
      assert Writers(s, b) == {w};
    }
  }

  lemma WritersHold(s: State, b: Id)
    ensures Writers(s, b) <= Holders(s, b)
  {
  }

  /** In every run, a buffer was freed at most once, and was freed exactly when it was destroyed without
      ever being released; a destroyed buffer has the locks it was created with and no notification. */
  lemma OwnershipConservation(ops: seq<Op>, b: Id)
    requires b in Run(ops).buffers
    ensures var s, buffer := Run(ops), Run(ops).buffers[b];
      && buffer.freed == (if buffer.destroyed && buffer.owns then 1 else 0)
      && (buffer.destroyed ==>
            && buffer.readLocks == (if buffer.readable then 0 else 1)
            && buffer.writeLocks == (if buffer.writable then 0 else 1)
            && buffer.notifications == {})
      && (buffer.destroyed <==> forall r :: !Linked(s, r, b))
  {
    hide Run, Inv;
    MemoryOf(Run(ops), b);
  }

  lemma MemoryOf(s: State, b: Id)
    requires Inv(s) && b in s.buffers
    ensures var buffer := s.buffers[b];
      && buffer.freed == (if buffer.destroyed && buffer.owns then 1 else 0)
      && (buffer.destroyed ==>
            && buffer.readLocks == (if buffer.readable then 0 else 1)
            && buffer.writeLocks == (if buffer.writable then 0 else 1)
            && buffer.notifications == {})
      && (buffer.destroyed <==> forall r :: !Linked(s, r, b))
  {
    CoreAt(s, b);
    if s.buffers[b].destroyed {
      assert forall r :: !Linked(s, r, b);
      assert Writers(s, b) == {} && Holders(s, b) == {};
      assert forall r :: r !in s.buffers[b].notifications;
    } else {
      assert HasData(s.datas, b);
      var d :| d in s.datas && s.datas[d].buffer == b;
      assert HasRef(s, d);
      var r :| r in s.refs && LinkedTo(s, r, d);
      assert Linked(s, r, b);
    }
  }

  // ----- what later operations cannot undo -----

  /** Buffers stay what they were created as, a disarmed one stays disarmed, a destroyed one stays as it is;
      and a reference that is null stays null, unless it is the one assigned to. */
  ghost predicate Later(s: State, s': State, target: Option<Id>)
    requires Sound(s) && Sound(s')
  {
    && (forall b | b in s.buffers :: b in s'.buffers && BufferLater(s.buffers[b], s'.buffers[b]))
    && (forall q | q in s.refs && q in s'.refs && IsNull(s, q) && Some(q) != target :: IsNull(s', q))
  }

  ghost predicate BufferLater(o: Buffer, n: Buffer) {
    && n.readable == o.readable && n.writable == o.writable
    && (!o.owns ==> !n.owns)
    && (o.destroyed ==> n == o)
  }

  /** An operation that changes one buffer, makes references null at most, and does not bring data back. */
  lemma LaterIntro(s: State, s': State, c: Id, target: Option<Id>)
    requires Sound(s) && Sound(s') && c in s.buffers && c in s'.buffers && BufferLater(s.buffers[c], s'.buffers[c])
    requires forall b | b in s.buffers && b != c :: b in s'.buffers && s'.buffers[b] == s.buffers[b]
    requires forall q | q in s.refs && q in s'.refs && Some(q) != target ::
      s'.refs[q] == s.refs[q] || s'.refs[q].content.None?
    requires forall d | d in s.datas && d in s'.datas && s.datas[d].address == 0 :: s'.datas[d].address == 0
    ensures Later(s, s', target)
  {
  }

  lemma LaterTrans(s: State, s': State, s'': State, target: Option<Id>)
    requires Sound(s) && Sound(s') && Sound(s'') && Later(s, s', target) && Later(s', s'', target)
    requires s.refs.Keys <= s'.refs.Keys
    ensures Later(s, s'', target)
  {
  }

  lemma DetachLater(s: State, r: Id, target: Option<Id>)
    requires Core(s) && r in s.refs && s.refs[r].content.Some? && Sound(Detach(s, r))
    ensures Later(s, Detach(s, r), target)
  {
    hide Core, Later, Sound;
    CoreSound(s);
    CoreDestroyed(s, s.datas[s.refs[r].content.value].buffer);
    LaterIntro(s, Detach(s, r), s.datas[s.refs[r].content.value].buffer, target);
  }

  lemma CollectLater(s: State, d: Id, target: Option<Id>)
    requires Core(s) && d in s.datas && Sound(Collect(s, d))
    ensures Later(s, Collect(s, d), target)
  {
    hide Core, Later, HasRef, HasData, Sound;
    CoreSound(s);
    CoreDestroyed(s, s.datas[d].buffer);
    LaterIntro(s, Collect(s, d), s.datas[d].buffer, target);
  }

  lemma ResetLater(s: State, r: Id, target: Option<Id>)
    requires Inv(s) && r in s.refs
    ensures Sound(Reset(s, r)) && Later(s, Reset(s, r), target)
  {
    hide Core, Alive, Later, Detach, Collect;
    CoreSound(s);
    ResetInv(s, r);
    CoreSound(Reset(s, r));
    if s.refs[r].content.Some? {
      var s' := Detach(s, r);
      DetachCore(s, r);
      CoreSound(s');
      DetachShape(s, r);
      DetachLater(s, r, target);
      CollectLater(s', s.refs[r].content.value, target);
      LaterTrans(s, s', Reset(s, r), target);
    } else {
      LaterSelf(s, target);
    }
  }

  lemma DetachShape(s: State, r: Id)
    requires Sound(s) && r in s.refs && s.refs[r].content.Some?
    ensures Detach(s, r).datas == s.datas && Detach(s, r).refs.Keys == s.refs.Keys
  {
  }

  lemma LaterSelf(s: State, target: Option<Id>)
    requires Sound(s)
    ensures Later(s, s, target)
  {
  }

  lemma LinkLater(s: State, r: Id, d: Id)
    requires Core(s) && r in s.refs && s.refs[r].content.None? && d in s.datas && Sound(Link(s, r, d))
    ensures Later(s, Link(s, r, d), Some(r))
  {
    hide Core, Later, Sound;
    CoreSound(s);
    CoreDestroyed(s, s.datas[d].buffer);
    LaterIntro(s, Link(s, r, d), s.datas[d].buffer, Some(r));
  }

  lemma StealLater(s: State, r: Id, from: Id)
    requires Core(s) && r in s.refs && from in s.refs && r != from && s.refs[r].content.None?
    requires s.refs[from].content.Some?
    requires Sound(Steal(s, r, from))
    ensures Later(s, Steal(s, r, from), Some(r))
  {
    hide Core, Later, Sound;
    CoreSound(s);
    CoreDestroyed(s, s.datas[s.refs[from].content.value].buffer);
    LaterIntro(s, Steal(s, r, from), s.datas[s.refs[from].content.value].buffer, Some(r));
  }

  lemma DisarmLater(s: State, r: Id, target: Option<Id>)
    requires Core(s) && r in s.refs && s.refs[r].content.Some? && Sound(Disarm(s, r))
    ensures Later(s, Disarm(s, r), target)
  {
    hide Core, Later, Sound;
    CoreSound(s);
    CoreDestroyed(s, s.datas[s.refs[r].content.value].buffer);
    LaterIntro(s, Disarm(s, r), s.datas[s.refs[r].content.value].buffer, target);
  }

  /** The reference that the operation gives a content to. */
  function Target(op: Op): Option<Id> {
    match op
    case AssignFrom(r, _) => Some(r)
    case Construct(r, _, _) => Some(r)
    case Wrap(r, _, _, _, _, _, _, _) => Some(r)
    case CopyFrom(r, _, _, _) => Some(r)
    case MoveFrom(r, _) => Some(r)
    case Sub(r, _, _, _) => Some(r)
    case _ => None
  }

  lemma NewLater(s: State, r: Id, read: bool, write: bool)
    requires Sound(s) && r !in s.refs && Sound(New(s, r, read, write))
    ensures Later(s, New(s, r, read, write), Some(r))
  {
  }

  lemma WrapLater(s: State, op: Op)
    requires Inv(s) && Applies(s, op) && op.Wrap?
    ensures Sound(Apply(s, op)) && Later(s, Apply(s, op), Some(op.r))
  {
    hide Core, Alive, Later, Link, Collect, Sound;
    CoreSound(s);
    var Wrap(r, read, write, d, b, address, readable, writable) := op;
    CreateInv(s, r, read, write, d, b, address, readable, writable);
    CoreSound(Apply(s, op));
    NewInv(s, r, read, write);
    var s1 := New(s, r, read, write);
    CoreSound(s1);
    NewLater(s, r, read, write);
    if address != 0 {
      var buffer := NewBuffer(readable, writable);
      var s2 := s1.(buffers := s.buffers[b := buffer], datas := s.datas[d := Data(b, address)]);
      AllocateCore(s1, d, b, address, buffer);
      CoreSound(s2);
      AllocateLater(s1, d, b, address, buffer, Some(r));
      LinkedLater(s2, r, d);
      LaterTrans(s, s1, s2, Some(r));
      LaterTrans(s, s2, Collect(Link(s2, r, d), d), Some(r));
    }
  }

  lemma LinkedLater(s: State, r: Id, d: Id)
    requires Core(s) && Sound(s) && r in s.refs && s.refs[r].content.None? && d in s.datas
    requires !s.buffers[s.datas[d].buffer].destroyed
    ensures Sound(Link(s, r, d)) && d in Link(s, r, d).datas
    ensures Sound(Collect(Link(s, r, d), d)) && Later(s, Collect(Link(s, r, d), d), Some(r))
  {
    hide Core, Later, Link, Collect;
    LinkCore(s, r, d);
    LinkShape(s, r, d);
    var s' := Link(s, r, d);
    CoreSound(s');
    LinkLater(s, r, d);
    CollectCore(s', d);
    CoreSound(Collect(s', d));
    CollectLater(s', d, Some(r));
    LaterTrans(s, s', Collect(s', d), Some(r));
  }

  lemma LinkShape(s: State, r: Id, d: Id)
    requires Sound(s) && r in s.refs && s.refs[r].content.None? && d in s.datas
    ensures Link(s, r, d).datas == s.datas && Link(s, r, d).refs.Keys == s.refs.Keys
  {
  }

  lemma AllocateLater(s: State, d: Id, b: Id, address: nat, buffer: Buffer, target: Option<Id>)
    requires Sound(s) && d !in s.datas && b !in s.buffers
    ensures var s' := s.(buffers := s.buffers[b := buffer], datas := s.datas[d := Data(b, address)]);
      Sound(s') && Later(s, s', target)
  {
  }

  lemma CopyLater(s: State, op: Op)
    requires Inv(s) && Applies(s, op) && op.CopyFrom?
    ensures Sound(Apply(s, op)) && Later(s, Apply(s, op), Some(op.r))
  {
    hide Core, Alive, Later, Link;
    CoreSound(s);
    var CopyFrom(r, read, write, from) := op;
    CopyInv(s, r, read, write, from);
    CoreSound(Apply(s, op));
    NewInv(s, r, read, write);
    NewLater(s, r, read, write);
    if !IsNull(s, from) {
      var s1, d := New(s, r, read, write), s.refs[from].content.value;
      LinkLater(s1, r, d);
      LaterTrans(s, s1, Link(s1, r, d), Some(r));
    }
  }

  lemma MoveLater(s: State, op: Op)
    requires Inv(s) && Applies(s, op) && (op.MoveFrom? || op.AssignFrom?)
    ensures Sound(Apply(s, op)) && Later(s, Apply(s, op), Some(op.r))
  {
    hide Core, Alive, Later, Steal, Reset;
    CoreSound(s);
    ApplyInv(s, op);
    CoreSound(Apply(s, op));
    if op.MoveFrom? {
      var s1 := New(s, op.r, s.refs[op.from].read, s.refs[op.from].write);
      NewInv(s, op.r, s.refs[op.from].read, s.refs[op.from].write);
      NewLater(s, op.r, s.refs[op.from].read, s.refs[op.from].write);
      if s.refs[op.from].content.Some? {
        StealLater(s1, op.r, op.from);
        LaterTrans(s, s1, Apply(s, op), Some(op.r));
      }
    } else if op.r == op.from {
      LaterSelf(s, Some(op.r));
    } else {
      var s1 := Reset(s, op.r);
      ResetInv(s, op.r);
      ResetRefs(s, op.r);
      CoreSound(s1);
      ResetLater(s, op.r, Some(op.r));
      if IsNull(s1, op.from) {
        ResetLater(s1, op.from, Some(op.r));
      } else {
        StealLater(s1, op.r, op.from);
      }
      LaterTrans(s, s1, Apply(s, op), Some(op.r));
    }
  }

  lemma SubLater(s: State, op: Op)
    requires Inv(s) && Applies(s, op) && op.Sub?
    ensures Sound(Apply(s, op)) && Later(s, Apply(s, op), Some(op.r))
  {
    hide Core, Alive, Later, Link;
    CoreSound(s);
    SubRefInv(s, op.r, op.from, op.d, op.address);
    CoreSound(Apply(s, op));
    var b := s.datas[s.refs[op.from].content.value].buffer;
    CoreDestroyed(s, b);
    NewInv(s, op.r, false, false);
    var s1 := New(s, op.r, false, false);
    CoreSound(s1);
    NewLater(s, op.r, false, false);
    var s2 := s1.(datas := s.datas[op.d := Data(b, op.address)]);
    SubDataCore(s1, op.d, b, op.address);
    CoreSound(s2);
    SubDataLater(s1, op.d, b, op.address, Some(op.r));
    LinkLater(s2, op.r, op.d);
    LaterTrans(s, s1, s2, Some(op.r));
    LaterTrans(s, s2, Apply(s, op), Some(op.r));
  }

  lemma SubDataLater(s: State, d: Id, b: Id, address: nat, target: Option<Id>)
    requires Sound(s) && d !in s.datas && b in s.buffers
    ensures var s' := s.(datas := s.datas[d := Data(b, address)]);
      Sound(s') && Later(s, s', target)
  {
  }

  lemma GiveBackLater(s: State, op: Op)
    requires Inv(s) && Applies(s, op) && op.GiveBack?
    ensures Sound(Apply(s, op)) && Later(s, Apply(s, op), None)
  {
    hide Core, Alive, Later, Disarm, Reset, Unlink;
    CoreSound(s);
    ReleaseInv(s, op.r);
    CoreSound(Apply(s, op));
    if IsNull(s, op.r) {
      ResetLater(s, op.r, None);
    } else {
      DisarmInv(s, op.r);
      var s1 := Disarm(s, op.r);
      CoreSound(s1);
      DisarmKeepsRefs(s, op.r);
      DisarmLater(s, op.r, None);
      UnlinkIsReset(s1, op.r);
      ResetLater(s1, op.r, None);
      LaterTrans(s, s1, Apply(s, op), None);
    }
  }

  lemma UnlinkIsReset(s: State, r: Id)
    requires Sound(s) && r in s.refs && s.refs[r].content.Some?
    ensures Reset(s, r) == Unlink(s, r)
  {
  }

  lemma NotifyLater(s: State, op: Op)
    requires Inv(s) && Applies(s, op) && op.Notify?
    ensures Sound(Apply(s, op)) && Later(s, Apply(s, op), None)
  {
    hide Core, Alive, Reset;
    CoreSound(s);
    OnNullifyInv(s, op.r);
    CoreSound(Apply(s, op));
    if IsNull(s, op.r) {
      ResetLater(s, op.r, None);
    } else {
      CoreDestroyed(s, s.datas[s.refs[op.r].content.value].buffer);
    }
  }

  lemma DropLater(s: State, op: Op)
    requires Inv(s) && Applies(s, op) && op.Drop?
    ensures Sound(Apply(s, op)) && Later(s, Apply(s, op), None)
  {
    hide Core, Alive, Reset;
    CoreSound(s);
    ApplyInv(s, op);
    CoreSound(Apply(s, op));
    ResetLater(s, op.r, None);
    ResetRefs(s, op.r);
  }

  /** No operation revives what an earlier one ended. */
  lemma ApplyLater(s: State, op: Op)
    requires Inv(s) && Applies(s, op)
    ensures Sound(Apply(s, op)) && Later(s, Apply(s, op), Target(op))
  {
    hide Core, Alive, Later, Apply, Reset;
    CoreSound(s);
    ApplyInv(s, op);
    CoreSound(Apply(s, op));
    match op
    case Construct(r, read, write) => ConstructIs(s, op); NewLater(s, r, read, write);
    case Wrap(_, _, _, _, _, _, _, _) => WrapLater(s, op);
    case CopyFrom(_, _, _, _) => CopyLater(s, op);
    case MoveFrom(_, _) => MoveLater(s, op);
    case AssignFrom(_, _) => MoveLater(s, op);
    case Sub(_, _, _, _) => SubLater(s, op);
    case Clear(r) => ConstructIs(s, op); ResetLater(s, r, None);
    case Drop(_) => DropLater(s, op);
    case Test(r) => ConstructIs(s, op); ResetLater(s, r, None); LaterSelf(s, None);
    case Notify(_) => NotifyLater(s, op);
    case GiveBack(_) => GiveBackLater(s, op);
  }

  lemma ConstructIs(s: State, op: Op)
    requires Inv(s) && Applies(s, op)
    ensures match op
      case Construct(r, read, write) => Apply(s, op) == New(s, r, read, write)
      case Clear(r) => Apply(s, op) == Reset(s, r)
      case Test(r) => Apply(s, op) == if IsNull(s, r) then Reset(s, r) else s
      case _ => true
  {
  }

  lemma {:induction false} RunLater(ops: seq<Op>, more: seq<Op>, b: Id)
    requires b in Run(ops).buffers
    ensures b in Run(ops + more).buffers && BufferLater(Run(ops).buffers[b], Run(ops + more).buffers[b])
    decreases |more|
  {
    hide Apply, Inv, Later, Applies;
    if more == [] {
      assert ops + more == ops;
    } else {
      var before, op := more[..|more| - 1], more[|more| - 1];
      RunLater(ops, before, b);
      var all := ops + more;
      assert all[..|all| - 1] == ops + before && all[|all| - 1] == op;
      var s := Run(ops + before);
      InvSound(s);
      if Applies(s, op) {
        ApplyLater(s, op);
        LaterBuffer(s, Apply(s, op), b, Target(op));
      }
    }
  }

  lemma InvSound(s: State)
    requires Inv(s)
    ensures Sound(s)
  {
  }

  lemma LaterBuffer(s: State, s': State, b: Id, target: Option<Id>)
    requires Sound(s) && Sound(s') && Later(s, s', target) && b in s.buffers
    ensures b in s'.buffers && BufferLater(s.buffers[b], s'.buffers[b])
  {
  }

  lemma RunStep(ops: seq<Op>, op: Op)
    requires Applies(Run(ops), op)
    ensures Run(ops + [op]) == Apply(Run(ops), op)
  {
    assert (ops + [op])[..|ops|] == ops;
  }

  /** Releasing a reference makes every reference on the same data null, itself included, and disarms the buffer. */
  lemma ReleaseNulls(s: State, r: Id)
    requires Inv(s) && r in s.refs && !IsNull(s, r)
    ensures var s', d := Release(s, r), s.refs[r].content.value;
      && Inv(s')
      && (forall q | q in s.refs && LinkedTo(s, q, d) :: q in s'.refs && IsNull(s', q))
      && s.datas[d].buffer in s'.buffers && !s'.buffers[s.datas[d].buffer].owns
      && s'.buffers[s.datas[d].buffer].freed == 0
  {
    hide Core, Alive, Later;
    CoreSound(s);
    var d := s.refs[r].content.value;
    ReleaseInv(s, r);
    var s1, s' := Disarm(s, r), Release(s, r);
    CoreSound(s');
    DisarmInv(s, r);
    CoreSound(s1);
    DisarmKeepsRefs(s, r);
    UnlinkIsReset(s1, r);
    ResetLater(s1, r, None);
    ResetRefs(s1, r);
    LaterBuffer(s1, s', s.datas[d].buffer, None);
    CoreFreed(s', s.datas[d].buffer);
    forall q | q in s.refs && LinkedTo(s, q, d)
      ensures q in s'.refs && IsNull(s', q)
    {
      assert IsNull(s1, q);
      LaterNull(s1, s', q, None);
    }
  }

  lemma LaterNull(s: State, s': State, q: Id, target: Option<Id>)
    requires Sound(s) && Sound(s') && Later(s, s', target) && q in s.refs && q in s'.refs && IsNull(s, q)
    requires Some(q) != target
    ensures IsNull(s', q)
  {
  }

  lemma ReleaseNullifies(ops: seq<Op>, r: Id, q: Id)
    requires var s := Run(ops);
      r in s.refs && q in s.refs && !IsNull(s, r) && s.refs[q].content == s.refs[r].content
    ensures var s' := Run(ops + [GiveBack(r)]);
      q in s'.refs && IsNull(s', q)
  {
    hide Run, Inv, Release;
    InvSound(Run(ops));
    RunStep(ops, GiveBack(r));
    ReleaseNulls(Run(ops), r);
  }

  /** Once released, the memory is the user's: whatever comes later, the library does not free it. */
  lemma ReleasedIsNeverFreed(ops: seq<Op>, r: Id, more: seq<Op>)
    requires r in Run(ops).refs && !IsNull(Run(ops), r)
    ensures var s := Run(ops);
      var b := s.datas[s.refs[r].content.value].buffer;
      b in Run(ops + [GiveBack(r)] + more).buffers && Run(ops + [GiveBack(r)] + more).buffers[b].freed == 0
  {
    hide Run, Inv, Release;
    var s := Run(ops);
    InvSound(s);
    var b := s.datas[s.refs[r].content.value].buffer;
    RunStep(ops, GiveBack(r));
    ReleaseNulls(s, r);
    RunLater(ops + [GiveBack(r)], more, b);
    OwnershipConservation(ops + [GiveBack(r)] + more, b);
  }

  /** When no reference is left on anything, everything has been destroyed. */
  lemma NothingLeaks(ops: seq<Op>)
    requires forall r | r in Run(ops).refs :: Run(ops).refs[r].content.None?
    ensures Run(ops).datas == map[] && forall b | b in Run(ops).buffers :: Run(ops).buffers[b].destroyed
  {
    hide Run, Core;
    var s := Run(ops);
    assert forall d :: d !in s.datas by {
      assert forall d | d in s.datas :: HasRef(s, d);
    }
    assert s.datas.Keys == {};
  }

  // ----- write locks -----

  /** One buffer, read by `n` references. */
  function Readers(n: nat): seq<Op>
    requires n >= 1
  {
    if n == 1 then [Wrap(0, true, false, 0, 0, 1, true, true)] else Readers(n - 1) + [CopyFrom(n - 1, true, false, 0)]
  }

  ghost function ReaderRefs(n: nat): map<Id, Ref> {
    if n == 0 then map[] else ReaderRefs(n - 1)[n - 1 := Ref(true, false, Some(0))]
  }

  lemma {:induction false} ReaderRefsAre(n: nat, r: Id)
    ensures r in ReaderRefs(n) <==> r < n
    ensures r < n ==> ReaderRefs(n)[r] == Ref(true, false, Some(0))
    decreases n
  {
    if n > 0 { ReaderRefsAre(n - 1, r); }
  }

  ghost function ReadersState(n: nat): State {
    State(map[0 := Buffer(true, true, 0, n, {}, true, false, 0)], map[0 := Data(0, 1)], ReaderRefs(n))
  }

  lemma {:induction false} ReadersRun(n: nat)
    requires n >= 1
    ensures Run(Readers(n)) == ReadersState(n)
    decreases n
  {
    hide Inv, Run, Copy;
    if n == 1 {
      OneReader();
    } else {
      ReadersRun(n - 1);
      ReaderRefsAre(n - 1, 0);
      ReaderRefsAre(n - 1, n - 1);
      RunStep(Readers(n - 1), CopyFrom(n - 1, true, false, 0));
      InvSound(Run(Readers(n - 1)));
      MoreReaders(ReadersState(n - 1), n - 1);
    }
  }

  lemma MoreReaders(s: State, n: nat)
    requires Sound(s) && n >= 1 && s == ReadersState(n) && n !in s.refs && 0 in s.refs
    requires s.refs[0] == Ref(true, false, Some(0))
    ensures Copy(s, n, true, false, 0) == ReadersState(n + 1)
  {
  }

  lemma OneReader()
    ensures Run(Readers(1)) == ReadersState(1)
  {
    hide Inv;
    var op := Wrap(0, true, false, 0, 0, 1, true, true);
    RunStep([], op);
    assert [] + [op] == Readers(1);
    var s := Link(State(map[0 := Buffer(true, true, 0, 0, {}, true, false, 0)], map[0 := Data(0, 1)],
                        map[0 := Ref(true, false, None)]), 0, 0);
    assert 0 in s.refs && LinkedTo(s, 0, 0) && HasRef(s, 0);
    assert s.refs == ReadersState(1).refs;
  }

  /** The write locks of a buffer have no bound, although they are declared to stay between 0 and 2. */
  lemma WriteLocksUnbounded(n: nat)
    requires n >= 1
    ensures 0 in Run(Readers(n)).buffers && Run(Readers(n)).buffers[0].writeLocks == n
  {
    hide Run;
    ReadersRun(n);
  }
}
