/** What the operations on references mean, without counters: who refers to what, with which rights, and what was given
    back. Locks and ownership are read off who is there. The counting code does the same. */
module ReferenceMeaning {
  import opened Options
  import opened References
  import opened ReferenceInvariant
  import opened ReferenceRuns

  /** The rights a buffer was created with, whether the library is to free it, and who hears of its release. */
  datatype Holding = Holding(readable: bool, writable: bool, owned: bool, listeners: set<Id>)

  datatype Meaning = Meaning(refs: map<Id, Ref>, datas: map<Id, Data>, buffers: map<Id, Holding>)

  ghost function View(s: State): Meaning {
    Meaning(s.refs, s.datas, map b | b in s.buffers ::
      Holding(s.buffers[b].readable, s.buffers[b].writable, s.buffers[b].owns, s.buffers[b].notifications))
  }

  // ----- the meaning of each operation -----

  ghost predicate Refers(m: Meaning, r: Id, d: Id) {
    r in m.refs && m.refs[r].content == Some(d)
  }

  /** On the buffer, whichever part of it. */
  ghost predicate On(m: Meaning, r: Id, b: Id) {
    exists d :: d in m.datas && Refers(m, r, d) && m.datas[d].buffer == b
  }

  ghost predicate Nothing(m: Meaning, r: Id) {
    forall d | d in m.datas && Refers(m, r, d) :: m.datas[d].address == 0
  }

  /** Readers exclude writers, a writer excludes all others with any right, and nobody gets more than the buffer was
      created with. */
  ghost predicate Granted(m: Meaning, b: Id, read: bool, write: bool)
    requires b in m.buffers
  {
    && (read ==> m.buffers[b].readable && forall q | q in m.refs && On(m, q, b) :: !m.refs[q].write)
    && (write ==> m.buffers[b].writable && forall q | q in m.refs && On(m, q, b) :: !m.refs[q].read && !m.refs[q].write)
  }

  /** The data that something refers to. */
  ghost function Held(datas: map<Id, Data>, refs: map<Id, Ref>): map<Id, Data> {
    map d | d in datas && exists r :: r in refs && refs[r].content == Some(d) :: datas[d]
  }

  ghost function Deaf(buffers: map<Id, Holding>, gone: set<Id>): map<Id, Holding> {
    map b | b in buffers :: buffers[b].(listeners := buffers[b].listeners - gone)
  }

  /** The references get the given contents; data nobody refers to goes; those whose content changed hear no more. */
  ghost function With(m: Meaning, refs: map<Id, Ref>, gone: set<Id>): Meaning {
    Meaning(refs, Held(m.datas, refs), Deaf(m.buffers, gone))
  }

  ghost function Cleared(m: Meaning, r: Id): Meaning
    requires r in m.refs
  {
    With(m, m.refs[r := m.refs[r].(content := None)], {r})
  }

  ghost predicate Possible(m: Meaning, op: Op) {
    match op
    case Construct(r, _, _) => r !in m.refs
    case Wrap(r, _, _, d, b, _, _, _) => r !in m.refs && d !in m.datas && b !in m.buffers
    case CopyFrom(r, _, _, from) => r !in m.refs && from in m.refs
    case MoveFrom(r, from) => r !in m.refs && from in m.refs
    case AssignFrom(r, from) =>
      r in m.refs && from in m.refs && m.refs[r].read == m.refs[from].read && m.refs[r].write == m.refs[from].write
    case Sub(r, from, d, address) =>
      r !in m.refs && from in m.refs && !Nothing(m, from) && d !in m.datas && address != 0
    case Clear(r) => r in m.refs
    case Drop(r) => r in m.refs
    case Test(r) => r in m.refs
    case Notify(r) => r in m.refs
    case GiveBack(r) => r in m.refs
  }

  /** The buffer behind a reference that is not null. */
  ghost function Behind(m: Meaning, r: Id): (b: Id)
    requires !Nothing(m, r)
    ensures On(m, r, b)
  {
    var d :| d in m.datas && Refers(m, r, d) && m.datas[d].address != 0;
    m.datas[d].buffer
  }

  ghost predicate Whole(m: Meaning) {
    forall d | d in m.datas :: m.datas[d].buffer in m.buffers
  }

  ghost function Means(m: Meaning, op: Op): Meaning
    requires Whole(m) && Possible(m, op)
  {
    match op
    case Construct(r, read, write) => m.(refs := m.refs[r := Ref(read, write, None)])
    case Wrap(r, read, write, d, b, address, readable, writable) =>
      var none := m.refs[r := Ref(read, write, None)];
      if address == 0 then m.(refs := none)
      else
        var more := m.(datas := m.datas[d := Data(b, address)],
                       buffers := m.buffers[b := Holding(readable, writable, true, {})]);
        var ok := (read ==> readable) && (write ==> writable);
        With(more, if ok then m.refs[r := Ref(read, write, Some(d))] else none, {})
    case CopyFrom(r, read, write, from) =>
      var ok := !Nothing(m, from) && Granted(m, Behind(m, from), read, write);
      m.(refs := m.refs[r := Ref(read, write, if ok then m.refs[from].content else None)])
    case MoveFrom(r, from) =>
      With(m, m.refs[r := m.refs[from]][from := m.refs[from].(content := None)], {from})
    case AssignFrom(r, from) =>
      if r == from then m
      else
        var content := if Nothing(m, from) then None else m.refs[from].content;
        With(m, m.refs[r := m.refs[r].(content := content)][from := m.refs[from].(content := None)], {r, from})
    case Sub(r, from, d, address) =>
      m.(refs := m.refs[r := Ref(false, false, Some(d))], datas := m.datas[d := Data(Behind(m, from), address)])
    case Clear(r) => Cleared(m, r)
    case Drop(r) => Cleared(m, r).(refs := m.refs - {r})
    case Test(r) => if Nothing(m, r) then Cleared(m, r) else m
    case Notify(r) =>
      if Nothing(m, r) then Cleared(m, r)
      else
        var b := Behind(m, r);
        m.(buffers := m.buffers[b := m.buffers[b].(listeners := m.buffers[b].listeners + {r})])
    case GiveBack(r) =>
      if Nothing(m, r) then Cleared(m, r)
      else
        var b, d := Behind(m, r), m.refs[r].content;
        var given := map e | e in m.datas :: if d == Some(e) then m.datas[e].(address := 0) else m.datas[e];
        var silent := m.(datas := given, buffers := m.buffers[b := m.buffers[b].(owned := false, listeners := {})]);
        Cleared(silent, r)
  }

  // ----- what the counters say -----

  lemma NothingIff(s: State, r: Id)
    requires Sound(s) && r in s.refs
    ensures Nothing(View(s), r) <==> IsNull(s, r)
    ensures !IsNull(s, r) ==> Behind(View(s), r) == s.datas[s.refs[r].content.value].buffer
  {
  }

  lemma OnIff(s: State, r: Id, b: Id)
    ensures On(View(s), r, b) <==> Linked(s, r, b)
  {
  }

  /** The locks of a buffer are free exactly when nobody is in the way. */
  lemma GrantsIff(s: State, b: Id, read: bool, write: bool)
    requires b in s.buffers && LocksOk(s, b)
    ensures Grants(s.buffers[b], read, write) <==>
      && (read ==> s.buffers[b].readable && Writers(s, b) == {})
      && (write ==> s.buffers[b].writable && Holders(s, b) == {})
  {
    hide Writers, Holders;
  }

  lemma GrantedIff(s: State, b: Id, read: bool, write: bool)
    requires b in s.buffers
    ensures Granted(View(s), b, read, write) <==>
      && (read ==> s.buffers[b].readable && Writers(s, b) == {})
      && (write ==> s.buffers[b].writable && Holders(s, b) == {})
  {
    hide On, Linked;
    forall q
      ensures On(View(s), q, b) <==> Linked(s, q, b)
    {
      OnIff(s, q, b);
    }
    if Writers(s, b) != {} {
      var q :| q in Writers(s, b);
      assert q in s.refs && On(View(s), q, b);
    }
    if Holders(s, b) != {} {
      var q :| q in Holders(s, b);
      assert q in s.refs && On(View(s), q, b);
    }
    assert forall q | q in s.refs && On(View(s), q, b) && s.refs[q].write :: q in Writers(s, b);
    assert forall q | q in s.refs && On(View(s), q, b) && (s.refs[q].read || s.refs[q].write) :: q in Holders(s, b);
  }

  /** A reference copied from another is linked exactly when nobody is in the way of the rights it asks for. */
  lemma CopyGrantedIff(s: State, r: Id, read: bool, write: bool, from: Id)
    requires Inv(s) && r !in s.refs && from in s.refs && Sound(s) && !IsNull(s, from)
    ensures var b, r' := s.datas[s.refs[from].content.value].buffer, Copy(s, r, read, write, from).refs[r];
      && (r'.content.Some? <==>
            && (read ==> s.buffers[b].readable && Writers(s, b) == {})
            && (write ==> s.buffers[b].writable && Holders(s, b) == {}))
      && (r'.content.Some? ==> r'.content == s.refs[from].content) && r'.read == read && r'.write == write
  {
    hide Core, Alive, Writers, Holders;
    var b := s.datas[s.refs[from].content.value].buffer;
    CoreAt(s, b);
    GrantsIff(s, b, read, write);
  }

  /** In every run, too. */
  lemma RunGrantedIff(ops: seq<Op>, r: Id, read: bool, write: bool, from: Id)
    requires Sound(Run(ops)) && r !in Run(ops).refs && from in Run(ops).refs && !IsNull(Run(ops), from)
    ensures var s, s' := Run(ops), Run(ops + [CopyFrom(r, read, write, from)]);
      var b := s.datas[s.refs[from].content.value].buffer;
      && r in s'.refs
      && (s'.refs[r].content.Some? <==>
            && (read ==> s.buffers[b].readable && Writers(s, b) == {})
            && (write ==> s.buffers[b].writable && Holders(s, b) == {}))
  {
    hide Inv, Writers, Holders, Copy;
    var s := Run(ops);
    RunStep(ops, CopyFrom(r, read, write, from));
    CopyGrantedIff(s, r, read, write, from);
    CopyHas(s, r, read, write, from);
  }

  lemma CopyHas(s: State, r: Id, read: bool, write: bool, from: Id)
    requires Sound(s) && r !in s.refs && from in s.refs
    ensures r in Copy(s, r, read, write, from).refs
  {
  }

  // ----- the code does what the operations mean -----

  lemma HeldWhole(s: State, refs: map<Id, Ref>)
    requires Alive(s) && forall r | r in s.refs && s.refs[r].content.Some? ::
      exists q :: q in refs && refs[q].content == s.refs[r].content
    ensures Held(s.datas, refs) == s.datas
  {
    forall d | d in s.datas
      ensures exists q :: q in refs && refs[q].content == Some(d)
    {
      assert HasRef(s, d);
      var r :| r in s.refs && LinkedTo(s, r, d);
      assert s.refs[r].content.Some?;
    }
  }

  lemma DeafSame(s: State, gone: set<Id>)
    requires Core(s) && forall r | r in gone :: r in s.refs ==> s.refs[r].content.None?
    ensures Deaf(View(s).buffers, gone) == View(s).buffers
  {
    hide Core;
    forall b | b in s.buffers
      ensures s.buffers[b].notifications - gone == s.buffers[b].notifications
    {
      CoreAt(s, b);
    }
  }

  /** References hear only of the buffer they are on. */
  lemma DeafOne(s: State, r: Id, b: Id)
    requires Core(s) && Linked(s, r, b) && b in s.buffers
    ensures forall c | c in s.buffers && c != b :: s.buffers[c].notifications - {r} == s.buffers[c].notifications
  {
    hide Core;
    forall c | c in s.buffers && c != b
      ensures s.buffers[c].notifications - {r} == s.buffers[c].notifications
    {
      CoreAt(s, c);
    }
  }

  lemma DetachMeans(s: State, r: Id)
    requires Inv(s) && r in s.refs && s.refs[r].content.Some? && Sound(s)
    ensures View(Detach(s, r)).refs == View(s).refs[r := s.refs[r].(content := None)]
    ensures View(Detach(s, r)).buffers == Deaf(View(s).buffers, {r}) && Detach(s, r).datas == s.datas
  {
    hide Core, Alive;
    DeafOne(s, r, s.datas[s.refs[r].content.value].buffer);
  }

  lemma CollectMeans(s: State, d: Id)
    requires Sound(s) && d in s.datas && forall e | e in s.datas && e != d :: HasRef(s, e)
    ensures Collect(s, d).refs == s.refs && Collect(s, d).datas == Held(s.datas, s.refs)
    ensures View(Collect(s, d)).buffers == View(s).buffers
  {
    var s' := Collect(s, d);
    forall e | e in s.datas
      ensures HasRef(s, e) <==> exists r :: r in s.refs && s.refs[r].content == Some(e)
    {
      if HasRef(s, e) {
        var r :| r in s.refs && LinkedTo(s, r, e);
        assert s.refs[r].content == Some(e);
      }
      if exists r :: r in s.refs && s.refs[r].content == Some(e) {
        var r :| r in s.refs && s.refs[r].content == Some(e);
        assert LinkedTo(s, r, e);
      }
    }
    assert s'.datas == Held(s.datas, s.refs);
  }

  lemma OthersHeld(s: State, r: Id)
    requires Inv(s) && r in s.refs && s.refs[r].content.Some? && Sound(s)
    ensures forall e | e in s.datas && e != s.refs[r].content.value :: HasRef(Detach(s, r), e)
  {
    hide Core;
    var s' := Detach(s, r);
    forall e | e in s.datas && e != s.refs[r].content.value
      ensures HasRef(s', e)
    {
      assert HasRef(s, e);
      var q :| q in s.refs && LinkedTo(s, q, e);
      assert q in s'.refs && LinkedTo(s', q, e);
    }
  }

  lemma ResetMeans(s: State, r: Id)
    requires Inv(s) && r in s.refs && Sound(s)
    ensures View(Reset(s, r)) == Cleared(View(s), r)
  {
    hide Core, Alive, Collect, Detach, Held, Deaf;
    if s.refs[r].content.Some? {
      DetachMeans(s, r);
      OthersHeld(s, r);
      DetachCore(s, r);
      CoreSound(Detach(s, r));
      CollectMeans(Detach(s, r), s.refs[r].content.value);
    } else {
      assert s.refs[r := s.refs[r].(content := None)] == s.refs;
      HeldWhole(s, s.refs);
      DeafSame(s, {r});
    }
  }

  lemma WrapMeans(s: State, op: Op)
    requires Inv(s) && Sound(s) && op.Wrap? && Applies(s, op)
    ensures View(Apply(s, op)) == Means(View(s), op)
  {
    hide Core, Alive, Held, Deaf, View, Create;
    var Wrap(r, read, write, d, b, address, readable, writable) := op;
    if address == 0 {
      NothingWrapped(s, op);
    } else {
      ViewParts(s);
      AllocateMeans(s, r, read, write, d, b, address, readable, writable);
      var s2 := Allocated(s, r, read, write, d, b, address, readable, writable);
      forall e | e in s2.datas && e != d
        ensures HasRef(s2, e)
      {
        StillHeld(s, s2, e);
      }
      CollectMeans(s2, d);
      ViewParts(s2);
      ViewParts(Collect(s2, d));
      CreateIs(s, r, read, write, d, b, address, readable, writable);
      DeafToNone(View(s).buffers[b := Holding(readable, writable, true, {})]);
    }
  }

  lemma ViewParts(s: State)
    ensures View(s).refs == s.refs && View(s).datas == s.datas && View(s).buffers.Keys == s.buffers.Keys
  {
  }

  lemma NothingWrapped(s: State, op: Op)
    requires Inv(s) && Sound(s) && op.Wrap? && op.address == 0 && Applies(s, op)
    ensures View(Apply(s, op)) == Means(View(s), op)
  {
    hide Core, Alive;
  }

  /** The new buffer with its data, and a null reference. */
  ghost function Made(s: State, r: Id, read: bool, write: bool, d: Id, b: Id, address: nat, readable: bool,
                      writable: bool): (s': State)
    requires Sound(s) && r !in s.refs && d !in s.datas && b !in s.buffers
    ensures Sound(s')
  {
    New(s, r, read, write).(buffers := s.buffers[b := NewBuffer(readable, writable)],
                            datas := s.datas[d := Data(b, address)])
  }

  /** The reference gets it if it may. */
  ghost function Allocated(s: State, r: Id, read: bool, write: bool, d: Id, b: Id, address: nat, readable: bool,
                           writable: bool): State
    requires Sound(s) && r !in s.refs && d !in s.datas && b !in s.buffers
  {
    Link(Made(s, r, read, write, d, b, address, readable, writable), r, d)
  }

  lemma CreateIs(s: State, r: Id, read: bool, write: bool, d: Id, b: Id, address: nat, readable: bool, writable: bool)
    requires Sound(s) && r !in s.refs && d !in s.datas && b !in s.buffers && address != 0
    ensures var s2 := Allocated(s, r, read, write, d, b, address, readable, writable);
      Sound(s2) && d in s2.datas && Create(s, r, read, write, d, b, address, readable, writable) == Collect(s2, d)
  {
    hide Collect;
  }

  lemma AllocateMeans(s: State, r: Id, read: bool, write: bool, d: Id, b: Id, address: nat, readable: bool,
                      writable: bool)
    requires Sound(s) && r !in s.refs && d !in s.datas && b !in s.buffers && address != 0
    ensures var s2 := Allocated(s, r, read, write, d, b, address, readable, writable);
      var ok := (read ==> readable) && (write ==> writable);
      && Sound(s2) && s2.refs == s.refs[r := Ref(read, write, if ok then Some(d) else None)]
      && s2.datas == s.datas[d := Data(b, address)]
      && View(s2).buffers == View(s).buffers[b := Holding(readable, writable, true, {})]
  {
    hide View, Sound;
    var s1 := Made(s, r, read, write, d, b, address, readable, writable);
    LinkKeepsView(s1, r, d);
    MadeMeans(s, r, read, write, d, b, address, readable, writable);
  }

  lemma LinkKeepsView(s: State, r: Id, d: Id)
    requires Sound(s) && r in s.refs && s.refs[r].content.None? && d in s.datas
    ensures Sound(Link(s, r, d)) && View(Link(s, r, d)).buffers == View(s).buffers
  {
  }

  lemma MadeMeans(s: State, r: Id, read: bool, write: bool, d: Id, b: Id, address: nat, readable: bool, writable: bool)
    requires Sound(s) && r !in s.refs && d !in s.datas && b !in s.buffers
    ensures var s1 := Made(s, r, read, write, d, b, address, readable, writable);
      View(s1).buffers == View(s).buffers[b := Holding(readable, writable, true, {})]
  {
  }

  lemma DeafToNone(buffers: map<Id, Holding>)
    ensures Deaf(buffers, {}) == buffers
  {
    forall b | b in buffers
      ensures buffers[b].(listeners := buffers[b].listeners - {}) == buffers[b]
    {
      assert buffers[b].listeners - {} == buffers[b].listeners;
    }
  }

  lemma StillHeld(s: State, s': State, e: Id)
    requires Alive(s) && e in s.datas && forall q | q in s.refs :: q in s'.refs && s'.refs[q] == s.refs[q]
    ensures HasRef(s', e)
  {
    assert HasRef(s, e);
    var q :| q in s.refs && LinkedTo(s, q, e);
    assert q in s'.refs && LinkedTo(s', q, e);
  }

  lemma CopyMeans(s: State, op: Op)
    requires Inv(s) && Sound(s) && op.CopyFrom? && Applies(s, op)
    ensures Possible(View(s), op) && View(Apply(s, op)) == Means(View(s), op)
  {
    hide Core, Alive, Nothing, Granted, Behind, Writers, Holders;
    NothingIff(s, op.from);
    if !IsNull(s, op.from) {
      var b := s.datas[s.refs[op.from].content.value].buffer;
      CoreAt(s, b);
      GrantsIff(s, b, op.read, op.write);
      GrantedIff(s, b, op.read, op.write);
    }
  }

  lemma MoveMeans(s: State, op: Op)
    requires Inv(s) && Sound(s) && op.MoveFrom? && Applies(s, op)
    ensures View(Apply(s, op)) == Means(View(s), op)
  {
    hide Core, Alive, Held, Deaf, View, Steal;
    var m, r, from := View(s), op.r, op.from;
    ViewParts(s);
    var refs := m.refs[r := m.refs[from]][from := m.refs[from].(content := None)];
    var s1 := New(s, r, s.refs[from].read, s.refs[from].write);
    NewInv(s, r, s.refs[from].read, s.refs[from].write);
    ViewParts(s1);
    ViewParts(Apply(s, op));
    NewMeans(s, r, s.refs[from].read, s.refs[from].write);
    CoreSound(s1);
    if s.refs[from].content.None? {
      HeldAfterMove(s, r, from, refs);
      DeafSame(s, {from});
      assert m.refs[from].(content := None) == m.refs[from];
    } else {
      StealMeans(s1, r, from);
      assert View(Apply(s, op)).refs == refs;
    }
  }

  lemma NewMeans(s: State, r: Id, read: bool, write: bool)
    requires r !in s.refs
    ensures View(New(s, r, read, write)) == View(s).(refs := s.refs[r := Ref(read, write, None)])
  {
  }

  lemma HeldAfterMove(s: State, r: Id, from: Id, refs: map<Id, Ref>)
    requires Alive(s) && from in s.refs && r != from && (r in s.refs ==> s.refs[r].content.None?)
    requires r in refs && refs[r].content == s.refs[from].content
    requires forall q | q in s.refs && q != r && q != from :: q in refs && refs[q] == s.refs[q]
    ensures Held(s.datas, refs) == s.datas
  {
    forall q | q in s.refs && s.refs[q].content.Some?
      ensures exists p :: p in refs && refs[p].content == s.refs[q].content
    {
      var p := if q == from then r else q;
      assert p in refs && refs[p].content == s.refs[q].content;
    }
    HeldWhole(s, refs);
  }

  lemma StealDeafens(s: State, r: Id, from: Id)
    requires Inv(s) && Sound(s) && r in s.refs && from in s.refs && r != from && s.refs[r].content.None?
    requires s.refs[from].content.Some?
    ensures View(Steal(s, r, from)).buffers == Deaf(View(s).buffers, {from})
  {
    hide Core, Alive;
    DeafOne(s, from, s.datas[s.refs[from].content.value].buffer);
  }

  lemma AssignMeans(s: State, op: Op)
    requires Inv(s) && Sound(s) && op.AssignFrom? && Applies(s, op)
    ensures View(Apply(s, op)) == Means(View(s), op)
  {
    hide Core, Alive, Held, Deaf, Nothing, Reset, Steal;
    var r, from, m := op.r, op.from, View(s);
    ResetInv(s, r);
    ResetRefs(s, r);
    if r != from {
      var s1 := Reset(s, r);
      CoreSound(s1);
      ResetMeans(s, r);
      NothingIff(s, from);
      NothingIff(s1, from);
      FromKept(s, r, from);
      var content := if IsNull(s, from) then None else s.refs[from].content;
      var refs := m.refs[r := m.refs[r].(content := content)][from := m.refs[from].(content := None)];
      DeafTwice(m.buffers, r, from);
      if IsNull(s1, from) {
        ResetMeans(s1, from);
        assert refs == s1.refs[from := s1.refs[from].(content := None)];
        HeldTwice(m.datas, s1.refs, refs);
      } else {
        StealMeans(s1, r, from);
        assert refs == Steal(s1, r, from).refs;
        HeldTwice(m.datas, s1.refs, refs);
      }
    }
  }

  /** Resetting one reference leaves what another one refers to. */
  lemma FromKept(s: State, r: Id, from: Id)
    requires Inv(s) && Sound(s) && r in s.refs && from in s.refs && r != from && Sound(Reset(s, r))
    requires Reset(s, r).refs == s.refs[r := s.refs[r].(content := None)]
    ensures IsNull(Reset(s, r), from) <==> IsNull(s, from)
  {
    hide Core, Alive;
  }

  lemma StealMeans(s: State, r: Id, from: Id)
    requires Inv(s) && Sound(s) && r in s.refs && from in s.refs && r != from && s.refs[r].content.None?
    requires s.refs[from].content.Some?
    ensures var m, m' := View(s), View(Steal(s, r, from));
      && m'.refs == m.refs[r := m.refs[r].(content := m.refs[from].content)][from := m.refs[from].(content := None)]
      && m'.datas == Held(m.datas, m'.refs) && m'.buffers == Deaf(m.buffers, {from})
  {
    hide Core, Alive, Held, Deaf;
    HeldAfterMove(s, r, from, Steal(s, r, from).refs);
    StealDeafens(s, r, from);
  }

  lemma DeafTwice(buffers: map<Id, Holding>, r: Id, q: Id)
    ensures Deaf(Deaf(buffers, {r}), {q}) == Deaf(buffers, {r, q})
  {
    forall b | b in buffers
      ensures buffers[b].listeners - {r} - {q} == buffers[b].listeners - {r, q}
    {
    }
  }

  /** What is referred to in the end was referred to in between. */
  lemma HeldTwice(datas: map<Id, Data>, refs: map<Id, Ref>, refs': map<Id, Ref>)
    requires forall q | q in refs' && refs'[q].content.Some? ::
      exists p :: p in refs && refs[p].content == refs'[q].content
    ensures Held(Held(datas, refs), refs') == Held(datas, refs')
  {
  }

  lemma GiveBackMeans(s: State, op: Op)
    requires Inv(s) && Sound(s) && op.GiveBack? && Applies(s, op)
    ensures View(Apply(s, op)) == Means(View(s), op)
  {
    hide Core, Alive, Held, Deaf, Nothing, Behind, Reset, Disarm, View;
    var r := op.r;
    ViewParts(s);
    NothingIff(s, r);
    if IsNull(s, r) {
      ResetMeans(s, r);
    } else {
      var s1 := Disarm(s, r);
      DisarmInv(s, r);
      CoreSound(s1);
      DisarmKeepsRefs(s, r);
      UnlinkIsReset(s1, r);
      ResetMeans(s1, r);
      DisarmMeans(s, r);
    }
  }

  lemma DisarmMeans(s: State, r: Id)
    requires Sound(s) && r in s.refs && s.refs[r].content.Some?
    ensures var m, d := View(s), s.refs[r].content;
      var b := s.datas[d.value].buffer;
      var given := map e | e in m.datas :: if d == Some(e) then m.datas[e].(address := 0) else m.datas[e];
      b in m.buffers && View(Disarm(s, r)) ==
        m.(datas := given, buffers := m.buffers[b := m.buffers[b].(owned := false, listeners := {})])
  {
  }

  lemma NotifyMeans(s: State, op: Op)
    requires Inv(s) && Sound(s) && op.Notify? && Applies(s, op)
    ensures View(Apply(s, op)) == Means(View(s), op)
  {
    hide Core, Alive, Held, Deaf, Nothing, Behind, Reset;
    NothingIff(s, op.r);
    if IsNull(s, op.r) { ResetMeans(s, op.r); }
  }

  lemma SubMeans(s: State, op: Op)
    requires Inv(s) && Sound(s) && op.Sub? && Applies(s, op)
    ensures Possible(View(s), op) && View(Apply(s, op)) == Means(View(s), op)
  {
    hide Core, Alive, Nothing, Behind;
    NothingIff(s, op.from);
  }

  lemma DropMeans(s: State, op: Op)
    requires Inv(s) && Sound(s) && op.Drop? && Applies(s, op)
    ensures View(Apply(s, op)) == Means(View(s), op)
  {
    hide Core, Alive, Held, Deaf, Reset;
    ResetMeans(s, op.r);
    ResetRefs(s, op.r);
    assert s.refs[op.r := s.refs[op.r].(content := None)] - {op.r} == s.refs - {op.r};
  }

  lemma PossibleIff(s: State, op: Op)
    requires Sound(s)
    ensures Whole(View(s)) && (Possible(View(s), op) <==> Applies(s, op))
  {
    hide Nothing;
    if op.Sub? && op.from in s.refs { NothingIff(s, op.from); }
  }

  /** Every operation does what it means. */
  lemma ApplyMeans(s: State, op: Op)
    requires Inv(s) && Sound(s) && Applies(s, op)
    ensures Whole(View(s)) && Possible(View(s), op) && View(Apply(s, op)) == Means(View(s), op)
  {
    hide Core, Alive, Held, Deaf, Nothing, Behind, Reset, View, Granted;
    PossibleIff(s, op);
    match op
    case Construct(r, read, write) => ConstructMeans(s, op);
    case Wrap(_, _, _, _, _, _, _, _) => WrapMeans(s, op);
    case CopyFrom(_, _, _, _) => CopyMeans(s, op);
    case MoveFrom(_, _) => MoveMeans(s, op);
    case AssignFrom(_, _) => AssignMeans(s, op);
    case Sub(_, _, _, _) => SubMeans(s, op);
    case Clear(r) => ResetMeans(s, r);
    case Drop(_) => DropMeans(s, op);
    case Test(_) => TestMeans(s, op);
    case Notify(_) => NotifyMeans(s, op);
    case GiveBack(_) => GiveBackMeans(s, op);
  }

  lemma ConstructMeans(s: State, op: Op)
    requires Inv(s) && Sound(s) && op.Construct? && Applies(s, op)
    ensures View(Apply(s, op)) == Means(View(s), op)
  {
    hide Core, Alive;
  }

  lemma TestMeans(s: State, op: Op)
    requires Inv(s) && Sound(s) && op.Test? && Applies(s, op)
    ensures View(Apply(s, op)) == Means(View(s), op)
  {
    hide Core, Alive, Held, Deaf, Nothing, Reset;
    NothingIff(s, op.r);
    if IsNull(s, op.r) { ResetMeans(s, op.r); }
  }

  // ----- runs -----

  ghost function MeaningRun(ops: seq<Op>): (m: Meaning)
    decreases |ops|
  {
    if ops == [] then Meaning(map[], map[], map[])
    else
      var m, op := MeaningRun(ops[..|ops| - 1]), ops[|ops| - 1];
      if Whole(m) && Possible(m, op) then Means(m, op) else m
  }

  /** In every run, references are what the operations mean. */
  lemma {:induction false} RunMeans(ops: seq<Op>)
    ensures View(Run(ops)) == MeaningRun(ops)
    decreases |ops|
  {
    hide Inv, Means, Possible, Applies, Apply;
    if ops == [] {
      EmptyMeans();
    } else {
      var before, op := ops[..|ops| - 1], ops[|ops| - 1];
      RunMeans(before);
      var s := Run(before);
      InvSound(s);
      PossibleIff(s, op);
      if Applies(s, op) { ApplyMeans(s, op); }
    }
  }

  lemma EmptyMeans()
    ensures View(EMPTY) == Meaning(map[], map[], map[])
  {
  }

  /** The counters, and what was destroyed and freed, are known from the meaning: states that mean the same are
      equal. */
  lemma MeaningDetermines(s: State, s': State)
    requires Inv(s) && Inv(s') && View(s) == View(s')
    ensures s == s'
  {
    hide Inv;
    ViewParts(s);
    ViewParts(s');
    forall b | b in s.buffers
      ensures s.buffers[b] == s'.buffers[b]
    {
      assert View(s).buffers[b] == View(s').buffers[b];
      BufferDetermined(s, s', b);
    }
  }

  lemma BufferDetermined(s: State, s': State, b: Id)
    requires Inv(s) && Inv(s') && s.refs == s'.refs && s.datas == s'.datas && b in s.buffers && b in s'.buffers
    requires s.buffers[b].readable == s'.buffers[b].readable && s.buffers[b].writable == s'.buffers[b].writable
    requires s.buffers[b].owns == s'.buffers[b].owns && s.buffers[b].notifications == s'.buffers[b].notifications
    ensures s.buffers[b] == s'.buffers[b]
  {
    hide Core, Alive, Linked;
    CoreAt(s, b);
    CoreAt(s', b);
    assert forall r :: Linked(s, r, b) <==> Linked(s', r, b) by { SameLinks(s, s', b); }
    assert Writers(s, b) == Writers(s', b) && Holders(s, b) == Holders(s', b);
    MemoryOf(s, b);
    MemoryOf(s', b);
  }

  lemma SameLinks(s: State, s': State, b: Id)
    requires s.refs == s'.refs && s.datas == s'.datas
    ensures forall r :: Linked(s, r, b) <==> Linked(s', r, b)
  {
  }
}
