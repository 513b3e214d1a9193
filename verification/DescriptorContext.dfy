/** All the descriptors of a context on one store of references, and exposing several values at once. */
module DescriptorContext {
  import opened References
  import opened ReferenceInvariant
  import opened ReferenceRuns
  import opened Descriptor
  import opened DescriptorOps
  import opened DescriptorStack
  import opened DescriptorRuns

  /** The stack of each name, and whether it is metadata; a name that was not met yet has an empty stack. */
  datatype Context = Context(store: State, stacks: map<string, seq<Id>>, metadata: set<string>)

  function HoldersOf(c: Context, name: string): seq<Id> {
    if name in c.stacks then c.stacks[name] else []
  }

  function Named(c: Context, name: string): Desc {
    Desc(c.store, HoldersOf(c, name), name in c.metadata)
  }

  /** Every descriptor is valid, and no two have a holder in common. */
  ghost predicate Consistent(c: Context) {
    && (forall name :: Valid(Named(c, name)))
    && (forall m, n, h | h in HoldersOf(c, m) && h in HoldersOf(c, n) :: m == n)
  }

  /** A call on one descriptor. */
  ghost function Do(c: Context, name: string, e: Event): (Context, Outcome)
    requires Valid(Named(c, name)) && Enabled(Named(c, name), e)
  {
    var (d, out) := Step(Named(c, name), e);
    (Context(d.store, c.stacks[name := d.holders], c.metadata), out)
  }

  // ----- references that are not holders of the descriptor -----

  ghost predicate Spared(s: State, s': State, q: Id, given: Entry) {
    && Sound(s) && Sound(s') && q in s.refs && q in s'.refs && EntryOf(s', q) == Left(EntryOf(s, q), given)
  }

  lemma ShareSpares(d: Desc, e: Event, q: Id)
    requires Valid(d) && e.Share? && Enabled(d, e) && q in d.store.refs && q !in d.holders
    ensures Spared(d.store, Step(d, e).0.store, q, Gone)
  {
    hide Inv, ShareData, SharedState;
    InvSound(d.store);
    var n, d' := e.objects, Step(d, e).0;
    ShareDataIff(d, n, e.address, e.sized, e.read, e.write, e.ok);
    if Step(d, e).1.Done? {
      ShareShape(d, n, e.address, e.sized, e.read, e.write, e.ok);
      SharedEntry(d.store, n, e.address, e.read, e.write, q);
    } else {
      FailedShareIsUndone(d, n, e.address, e.sized, e.read, e.write, e.ok);
      FailedShareValid(d, n, e.address, e.sized, e.read, e.write, e.ok);
      InvSound(d'.store);
    }
  }

  lemma TakeSpares(d: Desc, e: Event, q: Id)
    requires Valid(d) && e.Take? && Enabled(d, e) && q in d.store.refs && q !in d.holders
    ensures Spared(d.store, Step(d, e).0.store, q, GivesBack(d, e))
  {
    hide Inv, Copy, Forget, Sound, PopTop, GiveUp, Replace, EntryOf;
    InvSound(d.store);
    if Shared(d) && e.ok {
      var n, rest, top := e.names, d.holders[..|d.holders| - 1], d.holders[|d.holders| - 1];
      PopEntry(d.store, top, n.oldref, q);
      PoppedEntry(d.store, top, n.oldref);
      var s := PopTop(d.store, top, n.oldref);
      if d.metadata && |rest| == 1 {
        PopKeepsNew(d.store, top, rest[0], n);
        ForgetEntry(s, rest[0], q);
        ForgetEntry(s, rest[0], n.oldref);
        var s1 := Forget(s, rest[0]);
        ReplaceEntry(s1, n, e.sized, n.oldref);
        ReplaceEntry(s1, n, e.sized, q);
        GiveUpEntry(Replace(s1, n, e.sized), n.oldref, q);
      } else {
        GiveUpEntry(s, n.oldref, q);
      }
    }
  }

  /** A share or a reclaim leaves other references alone, but for those to what it gives back. */
  lemma StepSpares(d: Desc, e: Event, q: Id)
    requires Valid(d) && (e.Share? || e.Take?) && Enabled(d, e) && q in d.store.refs && q !in d.holders
    ensures Spared(d.store, Step(d, e).0.store, q, GivesBack(d, e))
  {
    hide Valid, Enabled, Step, Spared;
    if e.Share? { ShareSpares(d, e, q); } else { TakeSpares(d, e, q); }
  }

  lemma NewHolders(d: Desc, e: Event, h: Id)
    requires Valid(d) && (e.Share? || e.Take?) && Enabled(d, e) && h in Step(d, e).0.holders
    ensures h in d.holders || h !in d.store.refs
  {
    hide Inv, ShareData, Reclaim;
    if e.Share? {
      var n := e.objects;
      if Step(d, e).1.Done? {
        ShareShape(d, n, e.address, e.sized, e.read, e.write, e.ok);
      } else {
        FailedShareIsUndone(d, n, e.address, e.sized, e.read, e.write, e.ok);
      }
    } else {
      PopIff(d, e.names, e.sized, e.ok);
    }
  }

  // ----- one call in a context -----

  /** The other descriptors stay valid, and show what is left once something is given back. */
  lemma OtherDescriptor(c: Context, name: string, e: Event, other: string)
    requires Consistent(c) && (e.Share? || e.Take?) && Enabled(Named(c, name), e) && other != name
    ensures var c' := Do(c, name, e).0;
      && Valid(Named(c', other))
      && Stack(Named(c', other)) == LeftAll(Stack(Named(c, other)), GivesBack(Named(c, name), e))
  {
    hide Inv, Sound, Step, Enabled, EntryOf, Left, GivesBack;
    var d, d' := Named(c, other), Named(Do(c, name, e).0, other);
    var given := GivesBack(Named(c, name), e);
    StepValid(Named(c, name), e);
    InvSound(c.store);
    InvSound(d'.store);
    forall i | 0 <= i < |d.holders|
      ensures d.holders[i] in d'.store.refs
      ensures EntryOf(d'.store, d.holders[i]) == Left(EntryOf(d.store, d.holders[i]), given)
    {
      assert d.holders[i] !in HoldersOf(c, name);
      StepSpares(Named(c, name), e, d.holders[i]);
    }
    LeftStack(d, d', given);
    assert Stack(d)[..|Stack(d)|] == Stack(d);
  }

  lemma DoConsistent(c: Context, name: string, e: Event)
    requires Consistent(c) && (e.Share? || e.Take?) && Enabled(Named(c, name), e)
    ensures Consistent(Do(c, name, e).0)
  {
    hide Valid, Enabled, Step;
    var c' := Do(c, name, e).0;
    forall m
      ensures Valid(Named(c', m))
    {
      if m == name { StepValid(Named(c, name), e); } else { OtherDescriptor(c, name, e, m); }
    }
    forall m, n, h | h in HoldersOf(c', m) && h in HoldersOf(c', n)
      ensures m == n
    {
      assert HoldersOf(c', name) == Step(Named(c, name), e).0.holders;
      if m == name && n != name { KeepsItsHolder(c, name, e, n, h); }
      if n == name && m != name { KeepsItsHolder(c, name, e, m, h); }
      if m != name && n != name { assert h in HoldersOf(c, m) && h in HoldersOf(c, n); }
    }
  }

  lemma KeepsItsHolder(c: Context, name: string, e: Event, other: string, h: Id)
    requires Consistent(c) && (e.Share? || e.Take?) && Enabled(Named(c, name), e)
    requires other != name && h in HoldersOf(c, other)
    ensures h !in Step(Named(c, name), e).0.holders
  {
    hide Inv, Step, Enabled;
    assert Valid(Named(c, other));
    if h in Step(Named(c, name), e).0.holders {
      NewHolders(Named(c, name), e, h);
    }
  }

  // ----- operations on references that are no holders -----

  ghost predicate Permitted(c: Context, op: Op) {
    Inv(c.store) && Applies(c.store, op) && forall name, h | h in HoldersOf(c, name) :: h !in Touches(op)
  }

  lemma PermittedApplies(c: Context, op: Op)
    requires Permitted(c, op)
    ensures Sound(c.store) && Applies(c.store, op)
  {
    hide Inv;
    InvSound(c.store);
  }

  ghost function Acted(c: Context, op: Op): Context
    requires Permitted(c, op)
  {
    c.(store := Apply(c.store, op))
  }

  /** Every descriptor shows what is left once something is given back. */
  ghost predicate LeavesStacks(c: Context, c': Context, given: Entry) {
    Consistent(c) && Consistent(c') && forall name :: Stack(Named(c', name)) == LeftAll(Stack(Named(c, name)), given)
  }

  lemma ContextSound(c: Context)
    requires Consistent(c)
    ensures Sound(c.store)
  {
    hide Inv;
    assert Valid(Named(c, ""));
    InvSound(c.store);
  }

  lemma ActedLeaves(c: Context, op: Op)
    requires Consistent(c) && Permitted(c, op) && Sound(c.store)
    ensures LeavesStacks(c, Acted(c, op), Given(c.store, op))
  {
    hide Valid, Stack, Applies, Apply, Touches, Sound, LeftAll, Given;
    var c' := Acted(c, op);
    forall name
      ensures Valid(Named(c', name)) && Stack(Named(c', name)) == LeftAll(Stack(Named(c, name)), Given(c.store, op))
    {
      ActedOne(c, op, name);
    }
    forall m, n, h | h in HoldersOf(c', m) && h in HoldersOf(c', n)
      ensures m == n
    {
      assert h in HoldersOf(c, m) && h in HoldersOf(c, n);
    }
  }

  lemma ActedOne(c: Context, op: Op, name: string)
    requires Consistent(c) && Permitted(c, op) && Sound(c.store)
    ensures var d' := Named(Acted(c, op), name);
      Valid(d') && Stack(d') == LeftAll(Stack(Named(c, name)), Given(c.store, op))
  {
    hide Inv, Stack, Applies, Apply, Touches, Sound, LeftAll, Given;
    var d := Named(c, name);
    assert Valid(d);
    assert forall h | h in d.holders :: h in HoldersOf(c, name);
    StepRefines(d, Act(op));
  }

  /** Any number of operations, each permitted when its turn comes. */
  ghost predicate AllPermitted(c: Context, ops: seq<Op>)
    decreases |ops|
  {
    ops != [] ==> Permitted(c, ops[0]) && AllPermitted(Acted(c, ops[0]), ops[1..])
  }

  ghost function ActedAll(c: Context, ops: seq<Op>): Context
    requires AllPermitted(c, ops)
    decreases |ops|
  {
    if ops == [] then c else ActedAll(Acted(c, ops[0]), ops[1..])
  }

  /** What they give back, in order. */
  ghost function GivenBy(c: Context, ops: seq<Op>): seq<Entry>
    requires Consistent(c) && AllPermitted(c, ops)
    decreases |ops|
  {
    if ops == [] then []
    else
      ContextSound(c);
      ActedLeaves(c, ops[0]);
      [Given(c.store, ops[0])] + GivenBy(Acted(c, ops[0]), ops[1..])
  }

  /** What is left once several things are given back. */
  function LeftAfter(stack: seq<Entry>, given: seq<Entry>): seq<Entry>
    decreases |given|
  {
    if given == [] then stack else LeftAfter(LeftAll(stack, given[0]), given[1..])
  }

  /** Every descriptor shows what is left of what it showed. */
  ghost predicate Leaves(c: Context, c': Context, given: seq<Entry>) {
    Consistent(c) && Consistent(c') && forall name :: Stack(Named(c', name)) == LeftAfter(Stack(Named(c, name)), given)
  }

  lemma {:induction false} LeftAfterBoth(stack: seq<Entry>, given: seq<Entry>, more: seq<Entry>)
    ensures LeftAfter(stack, given + more) == LeftAfter(LeftAfter(stack, given), more)
    decreases |given|
  {
    hide LeftAll;
    if given == [] {
      assert given + more == more;
    } else {
      assert (given + more)[0] == given[0] && (given + more)[1..] == given[1..] + more;
      LeftAfterBoth(LeftAll(stack, given[0]), given[1..], more);
    }
  }

  lemma LeavesThen(c: Context, c1: Context, c2: Context, given: seq<Entry>, more: seq<Entry>)
    requires Leaves(c, c1, given) && Leaves(c1, c2, more)
    ensures Leaves(c, c2, given + more)
  {
    hide Consistent, Stack, LeftAfter, Valid;
    assert forall name :: Valid(Named(c, name)) && Valid(Named(c1, name)) && Valid(Named(c2, name)) by {
      AllValid(c);
      AllValid(c1);
      AllValid(c2);
    }
    forall name
      ensures Stack(Named(c2, name)) == LeftAfter(Stack(Named(c, name)), given + more)
    {
      LeftAfterBoth(Stack(Named(c, name)), given, more);
      assert Stack(Named(c1, name)) == LeftAfter(Stack(Named(c, name)), given);
    }
  }

  lemma AllValid(c: Context)
    requires Consistent(c)
    ensures forall name :: Valid(Named(c, name))
  {
    hide Valid;
  }

  lemma {:induction false} AllActed(c: Context, ops: seq<Op>)
    requires Consistent(c) && AllPermitted(c, ops)
    ensures Leaves(c, ActedAll(c, ops), GivenBy(c, ops))
    decreases |ops|
  {
    hide Valid, Stack, Applies, Apply, Permitted, LeftAll, Given;
    if ops != [] {
      ContextSound(c);
      assert Applies(c.store, ops[0]) by { PermittedApplies(c, ops[0]); }
      ActedLeaves(c, ops[0]);
      var c1 := Acted(c, ops[0]);
      AllActed(c1, ops[1..]);
      var given, more := GivenBy(c, ops), GivenBy(c1, ops[1..]);
      assert given[0] == Given(c.store, ops[0]) && given[1..] == more;
      forall name
        ensures Stack(Named(ActedAll(c, ops), name)) == LeftAfter(Stack(Named(c, name)), given)
      {
        assert Stack(Named(c1, name)) == LeftAll(Stack(Named(c, name)), given[0]);
      }
    }
  }

  // ----- exposing several values at once -----

  /** A value to share, and the reclaim that matches, with what happens to other references before each. */
  datatype Item = Item(name: string, before: seq<Op>, share: Event, after: seq<Op>, take: Event)

  /** Shares in order until one fails; then, if none did, what happens during the event; then the reclaims of what was
      shared, in the reverse order. */
  ghost predicate Exposable(c: Context, items: seq<Item>, event: seq<Op>)
    requires Consistent(c)
    decreases |items|, 1
  {
    if items == [] then AllPermitted(c, event)
    else
      var x := items[0];
      && AllPermitted(c, x.before) && x.share.Share? && x.take.Take?
      && (AllActed(c, x.before);
          var c0 := ActedAll(c, x.before);
          && Enabled(Named(c0, x.name), x.share)
          && var (c1, out) := Do(c0, x.name, x.share);
          (out.Done? ==>
             (DoConsistent(c0, x.name, x.share);
              && Exposable(c1, items[1..], event)
              && var c2 := Exposed(c1, items[1..], event).0;
              && Consistent(c2) && AllPermitted(c2, x.after)
              && (AllActed(c2, x.after); Enabled(Named(ActedAll(c2, x.after), x.name), x.take)))))
  }

  /** The context in the end, and what was given back by the operations on other references. */
  ghost function Exposed(c: Context, items: seq<Item>, event: seq<Op>): (Context, seq<Entry>)
    requires Consistent(c) && Exposable(c, items, event)
    decreases |items|, 2
  {
    if items == [] then (ActedAll(c, event), GivenBy(c, event))
    else
      var x := items[0];
      AllActed(c, x.before);
      var c0, given := ActedAll(c, x.before), GivenBy(c, x.before);
      var (c1, out) := Do(c0, x.name, x.share);
      if out.Failed? then (c1, given)
      else
        DoConsistent(c0, x.name, x.share);
        var (c2, more) := Exposed(c1, items[1..], event);
        AllActed(c2, x.after);
        (Do(ActedAll(c2, x.after), x.name, x.take).0, given + (more + GivenBy(c2, x.after)))
  }

  /** Whatever shares fail, and as long as the callbacks of the reclaims succeed, every descriptor shows in the end what
      it showed before, but for what was given back meanwhile by operations on other references. */
  lemma {:induction false} ExposeRestores(c: Context, items: seq<Item>, event: seq<Op>)
    requires Consistent(c) && Exposable(c, items, event) && forall x | x in items :: x.take.Take? && x.take.ok
    ensures var (c', given) := Exposed(c, items, event); Leaves(c, c', given)
    decreases |items|
  {
    hide Valid, Enabled, Step, Stack, Leaves, Consistent, LeftAfter, AllPermitted, GivenBy, ActedAll;
    if items == [] {
      AllActed(c, event);
    } else {
      var x := items[0];
      AllActed(c, x.before);
      var c0, given := ActedAll(c, x.before), GivenBy(c, x.before);
      LeavesBoth(c, c0, given);
      var (c1, out) := Do(c0, x.name, x.share);
      DoConsistent(c0, x.name, x.share);
      if out.Failed? {
        FailedRestores(c0, x.name, x.share);
        LeavesThen(c, c0, c1, given, []);
        assert given + [] == given;
      } else {
        ExposeRestores(c1, items[1..], event);
        var (c2, more) := Exposed(c1, items[1..], event);
        LeavesBoth(c1, c2, more);
        AllActed(c2, x.after);
        var c3, last := ActedAll(c2, x.after), GivenBy(c2, x.after);
        LeavesBoth(c2, c3, last);
        LeavesThen(c1, c2, c3, more, last);
        DoConsistent(c3, x.name, x.take);
        TakenRestores(c0, x, c1, c3, more + last);
        LeavesThen(c, c0, Do(c3, x.name, x.take).0, given, more + last);
      }
    }
  }

  lemma LeavesBoth(c: Context, c': Context, given: seq<Entry>)
    requires Leaves(c, c', given)
    ensures Consistent(c) && Consistent(c')
  {
  }

  lemma FailedRestores(c: Context, name: string, e: Event)
    requires Consistent(c) && e.Share? && Enabled(Named(c, name), e) && Do(c, name, e).1.Failed?
    requires Consistent(Do(c, name, e).0)
    ensures Leaves(c, Do(c, name, e).0, [])
  {
    hide Step, Enabled, Valid;
    var c' := Do(c, name, e).0;
    forall m
      ensures Stack(Named(c', m)) == Stack(Named(c, m))
    {
      FailureIsUndone(Named(c, name), e);
      SameStack(Named(c, m), Named(c', m));
    }
  }

  /** Data that is shared now is behind no holder that was there before. */
  lemma NotBehind(c: Context, name: string, data: Id)
    requires Consistent(c) && data !in c.store.datas
    ensures Without(Stack(Named(c, name)), data)
  {
    hide Inv;
    var d := Named(c, name);
    assert Valid(d);
    InvSound(c.store);
    var stack := Stack(d);
    forall i | 0 <= i < |stack|
      ensures stack[i].Entry? ==> stack[i].data != data
    {
      assert stack[i] == EntryOf(d.store, d.holders[Base(d.metadata) + i]);
    }
  }

  /** None of the entries is of the data. */
  predicate Without(stack: seq<Entry>, data: Id) {
    forall x | x in stack :: x.Entry? ==> x.data != data
  }

  lemma LeftOfOthers(stack: seq<Entry>, given: Entry, data: Id)
    requires Without(stack, data) && (given.Entry? ==> given.data == data)
    ensures LeftAll(stack, given) == stack
  {
  }

  lemma {:induction false} StillWithout(stack: seq<Entry>, given: seq<Entry>, data: Id)
    requires Without(stack, data)
    ensures Without(LeftAfter(stack, given), data)
    decreases |given|
  {
    if given != [] { StillWithout(LeftAll(stack, given[0]), given[1..], data); }
  }

  /** The entry on top goes its own way. */
  lemma {:induction false} LeftOnTop(stack: seq<Entry>, top: Entry, given: seq<Entry>) returns (top': Entry)
    ensures LeftAfter(stack + [top], given) == LeftAfter(stack, given) + [top']
    ensures top'.Entry? ==> top' == top
    decreases |given|
  {
    if given == [] {
      top' := top;
    } else {
      var next := Left(top, given[0]);
      assert LeftAll(stack + [top], given[0]) == LeftAll(stack, given[0]) + [next];
      top' := LeftOnTop(LeftAll(stack, given[0]), next, given[1..]);
    }
  }

  lemma TakenRestores(c: Context, x: Item, c1: Context, c2: Context, given: seq<Entry>)
    requires Consistent(c) && x.share.Share? && Enabled(Named(c, x.name), x.share) && x.take.Take? && x.take.ok
    requires Do(c, x.name, x.share).1.Done? && c1 == Do(c, x.name, x.share).0 && Leaves(c1, c2, given)
    requires Consistent(c2) && Enabled(Named(c2, x.name), x.take) && Consistent(Do(c2, x.name, x.take).0)
    ensures Leaves(c, Do(c2, x.name, x.take).0, given)
  {
    hide Step, Enabled, Valid, LeftAll, LeftAfter, GivesBack, Stack, Without;
    var c3, data := Do(c2, x.name, x.take).0, x.share.objects.data;
    var top := SharedTop(c, x, c1);
    var top' := LeftOnTop(Stack(Named(c, x.name)), top, given);
    FreshData(c, x);
    forall m
      ensures Stack(Named(c3, m)) == LeftAfter(Stack(Named(c, m)), given)
    {
      var left := LeftAfter(Stack(Named(c, m)), given);
      NotBehind(c, m, data);
      StillWithout(Stack(Named(c, m)), given, data);
      LeftOfOthers(left, top', data);
      LeftOfNothing(Stack(Named(c, m)));
      if m == x.name {
        TopTaken(left, x, c2, top');
      } else {
        OtherDescriptor(c, x.name, x.share, m);
        TopGiven(LeftAfter(Stack(Named(c, x.name)), given), x, c2, top');
        OtherDescriptor(c2, x.name, x.take, m);
      }
    }
  }

  lemma FreshData(c: Context, x: Item)
    requires Valid(Named(c, x.name)) && x.share.Share? && Enabled(Named(c, x.name), x.share)
    ensures x.share.objects.data !in c.store.datas
  {
    hide Inv;
  }

  /** The share puts the value on top of its stack, and gives nothing back. */
  lemma SharedTop(c: Context, x: Item, c1: Context) returns (top: Entry)
    requires Consistent(c) && x.share.Share? && Enabled(Named(c, x.name), x.share)
    requires Do(c, x.name, x.share).1.Done? && c1 == Do(c, x.name, x.share).0
    ensures Consistent(c1) && Stack(Named(c1, x.name)) == Stack(Named(c, x.name)) + [top]
    ensures GivesBack(Named(c, x.name), x.share) == Gone && (top.Entry? ==> top.data == x.share.objects.data)
  {
    hide Step, Enabled, Valid, Stack;
    DoConsistent(c, x.name, x.share);
    StepRefines(Named(c, x.name), x.share);
    var n := x.share.objects;
    top := if x.share.address == 0 then Gone else Entry(n.data, n.buffer, x.share.address);
  }

  lemma TopTaken(rest: seq<Entry>, x: Item, c: Context, top: Entry)
    requires Consistent(c) && x.take.Take? && x.take.ok && Enabled(Named(c, x.name), x.take)
    requires Stack(Named(c, x.name)) == rest + [top] && LeftAll(rest, top) == rest
    requires Consistent(Do(c, x.name, x.take).0)
    ensures Stack(Named(Do(c, x.name, x.take).0, x.name)) == rest
  {
    hide Step, Enabled, Valid, Stack, LeftAll;
    StepRefines(Named(c, x.name), x.take);
    assert (rest + [top])[..|rest|] == rest;
  }

  /** What the reclaim gives back is what the stack had on top. */
  lemma TopGiven(rest: seq<Entry>, x: Item, c: Context, top: Entry)
    requires Consistent(c) && x.take.Take? && x.take.ok && Enabled(Named(c, x.name), x.take)
    requires Stack(Named(c, x.name)) == rest + [top]
    ensures GivesBack(Named(c, x.name), x.take) == top
  {
    hide Inv, EntryOf;
    var d := Named(c, x.name);
    assert Valid(d);
    InvSound(d.store);
    assert Stack(d)[|Stack(d)| - 1] == EntryOf(d.store, d.holders[|d.holders| - 1]);
  }
}
