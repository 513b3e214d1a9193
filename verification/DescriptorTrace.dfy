/** Exposing several values in a context makes the calls of a multi-expose, in their order. */
module DescriptorTrace {
  import opened ReferenceRuns
  import opened Descriptor
  import opened DescriptorStack
  import opened DescriptorContext
  import ExposeCalls

  /** A call on a descriptor, an operation on references that are no holders, or the event. */
  datatype Doing = Calling(name: string, call: Event) | Acting(op: Op) | Raising

  ghost predicate Runnable(c: Context, doings: seq<Doing>)
    decreases |doings|
  {
    doings != [] ==>
      match doings[0]
      case Calling(name, e) =>
        && Consistent(c) && Enabled(Named(c, name), e)
        && Runnable(Do(c, name, e).0, doings[1..])
      case Acting(op) => Permitted(c, op) && Runnable(Acted(c, op), doings[1..])
      case Raising => Runnable(c, doings[1..])
  }

  ghost function RunAll(c: Context, doings: seq<Doing>): Context
    requires Runnable(c, doings)
    decreases |doings|
  {
    if doings == [] then c
    else
      match doings[0]
      case Calling(name, e) => RunAll(Do(c, name, e).0, doings[1..])
      case Acting(op) => RunAll(Acted(c, op), doings[1..])
      case Raising => RunAll(c, doings[1..])
  }

  lemma {:induction false} RunBoth(c: Context, a: seq<Doing>, b: seq<Doing>)
    requires Runnable(c, a) && Runnable(RunAll(c, a), b)
    ensures Runnable(c, a + b) && RunAll(c, a + b) == RunAll(RunAll(c, a), b)
    decreases |a|
  {
    hide Valid, Enabled, Do, Acted, Permitted;
    if a == [] {
      assert a + b == b;
    } else {
      assert (a + b)[0] == a[0] && (a + b)[1..] == a[1..] + b;
      match a[0]
      case Calling(name, e) => RunBoth(Do(c, name, e).0, a[1..], b);
      case Acting(op) => RunBoth(Acted(c, op), a[1..], b);
      case Raising => RunBoth(c, a[1..], b);
    }
  }

  function Acts(ops: seq<Op>): seq<Doing> {
    if ops == [] then [] else [Acting(ops[0])] + Acts(ops[1..])
  }

  lemma {:induction false} ActsRun(c: Context, ops: seq<Op>)
    requires AllPermitted(c, ops)
    ensures Runnable(c, Acts(ops)) && RunAll(c, Acts(ops)) == ActedAll(c, ops)
    decreases |ops|
  {
    hide Permitted, Acted;
    if ops != [] {
      ActsRun(Acted(c, ops[0]), ops[1..]);
      assert Acts(ops)[0] == Acting(ops[0]) && Acts(ops)[1..] == Acts(ops[1..]);
    }
  }

  /** How many values are shared. */
  ghost function Opened(c: Context, items: seq<Item>, event: seq<Op>): (k: nat)
    requires Consistent(c) && Exposable(c, items, event)
    ensures k <= |items|
    decreases |items|
  {
    if items == [] then 0
    else
      AllActed(c, items[0].before);
      var c0 := ActedAll(c, items[0].before);
      var (c1, out) := Do(c0, items[0].name, items[0].share);
      if out.Failed? then 0
      else
        DoConsistent(c0, items[0].name, items[0].share);
        1 + Opened(c1, items[1..], event)
  }

  /** With `k` of them shared: the shares in order up to the first that fails, the event if none does, and the reclaims
      of what was shared, the last one first; before each call what happens to other references. */
  ghost function Doings(items: seq<Item>, event: seq<Op>, k: nat): seq<Doing>
    requires k <= |items|
  {
    var tried := if k == |items| then k else k + 1;
    var happening := if k == |items| then [Raising] + Acts(event) else [];
    SharingOf(items, tried) + happening + TakingOf(items, k)
  }

  /** The first `n` shares. */
  function SharingOf(items: seq<Item>, n: nat): seq<Doing>
    requires n <= |items|
  {
    if n == 0 then []
    else SharingOf(items, n - 1) + (Acts(items[n - 1].before) + [Calling(items[n - 1].name, items[n - 1].share)])
  }

  /** The reclaims of the first `n`, from the last one on. */
  function TakingOf(items: seq<Item>, n: nat): seq<Doing>
    requires n <= |items|
  {
    if n == 0 then []
    else Acts(items[n - 1].after) + [Calling(items[n - 1].name, items[n - 1].take)] + TakingOf(items, n - 1)
  }

  lemma {:induction false} SharingFirst(items: seq<Item>, n: nat)
    requires 0 < n <= |items|
    ensures SharingOf(items, n) ==
      Acts(items[0].before) + [Calling(items[0].name, items[0].share)] + SharingOf(items[1..], n - 1)
    decreases n
  {
    hide Acts;
    var first := Acts(items[0].before) + [Calling(items[0].name, items[0].share)];
    if n == 1 {
      assert SharingOf(items, 0) == [] && SharingOf(items[1..], 0) == [];
    } else {
      SharingFirst(items, n - 1);
      assert items[1..][n - 2] == items[n - 1];
      var last := Acts(items[n - 1].before) + [Calling(items[n - 1].name, items[n - 1].share)];
      assert (first + SharingOf(items[1..], n - 2)) + last == first + (SharingOf(items[1..], n - 2) + last);
    }
  }

  lemma {:induction false} TakingLast(items: seq<Item>, n: nat)
    requires 0 < n <= |items|
    ensures TakingOf(items, n) ==
      TakingOf(items[1..], n - 1) + (Acts(items[0].after) + [Calling(items[0].name, items[0].take)])
    decreases n
  {
    hide Acts;
    var last := Acts(items[0].after) + [Calling(items[0].name, items[0].take)];
    if n == 1 {
      assert TakingOf(items, 0) == [] && TakingOf(items[1..], 0) == [] && last + [] == last && [] + last == last;
    } else {
      TakingLast(items, n - 1);
      assert items[1..][n - 2] == items[n - 1];
      var first := Acts(items[n - 1].after) + [Calling(items[n - 1].name, items[n - 1].take)];
      assert first + (TakingOf(items[1..], n - 2) + last) == (first + TakingOf(items[1..], n - 2)) + last;
    }
  }

  /** The doings of the rest, with the first value around them. */
  lemma DoingsAround(items: seq<Item>, event: seq<Op>, k: nat)
    requires items != [] && k < |items|
    ensures var first := Acts(items[0].before) + [Calling(items[0].name, items[0].share)];
      var last := Acts(items[0].after) + [Calling(items[0].name, items[0].take)];
      Doings(items, event, k + 1) == first + Doings(items[1..], event, k) + last
  {
    hide Acts, SharingOf, TakingOf;
    var tried := if k == |items| - 1 then k else k + 1;
    SharingFirst(items, tried + 1);
    TakingLast(items, k + 1);
    var happening := if k == |items| - 1 then [Raising] + Acts(event) else [];
    var first := Acts(items[0].before) + [Calling(items[0].name, items[0].share)];
    var last := Acts(items[0].after) + [Calling(items[0].name, items[0].take)];
    var a, b := SharingOf(items[1..], tried), TakingOf(items[1..], k);
    assert first + a + happening + (b + last) == first + (a + happening + b) + last;
  }

  /** What happens to other references, and then a call. */
  lemma StepRuns(c: Context, ops: seq<Op>, name: string, e: Event)
    requires Consistent(c) && AllPermitted(c, ops) && Consistent(ActedAll(c, ops))
    requires Enabled(Named(ActedAll(c, ops), name), e)
    ensures var doings := Acts(ops) + [Calling(name, e)];
      Runnable(c, doings) && RunAll(c, doings) == Do(ActedAll(c, ops), name, e).0
  {
    hide Valid, Enabled, AllPermitted, ActedAll, Runnable, RunAll, Do;
    ActsRun(c, ops);
    CallRuns(ActedAll(c, ops), name, e);
    RunBoth(c, Acts(ops), [Calling(name, e)]);
  }

  /** Exposing the values is doing just that. */
  lemma {:induction false} ExposedRuns(c: Context, items: seq<Item>, event: seq<Op>)
    requires Consistent(c) && Exposable(c, items, event)
    ensures var doings := Doings(items, event, Opened(c, items, event));
      Runnable(c, doings) && RunAll(c, doings) == Exposed(c, items, event).0
    decreases |items|
  {
    hide Valid, Enabled, Step, AllPermitted, ActedAll, Runnable, RunAll, Doings, Acts, GivenBy, Leaves, Consistent;
    if items == [] {
      NothingElse(c, event);
    } else {
      var x := items[0];
      AllActed(c, x.before);
      LeavesBoth(c, ActedAll(c, x.before), GivenBy(c, x.before));
      StepRuns(c, x.before, x.name, x.share);
      var c0 := ActedAll(c, x.before);
      var (c1, out) := Do(c0, x.name, x.share);
      if out.Failed? {
        OnlyTried(items, event);
      } else {
        DoConsistent(c0, x.name, x.share);
        ExposedRuns(c1, items[1..], event);
        var c2 := Exposed(c1, items[1..], event).0;
        AllActed(c2, x.after);
        LeavesBoth(c2, ActedAll(c2, x.after), GivenBy(c2, x.after));
        LastRuns(c, c1, items, event);
      }
    }
  }

  lemma LastRuns(c: Context, c1: Context, items: seq<Item>, event: seq<Op>)
    requires items != [] && Consistent(c1) && Exposable(c1, items[1..], event)
    requires var x := items[0];
      var first := Acts(x.before) + [Calling(x.name, x.share)];
      Runnable(c, first) && RunAll(c, first) == c1
    requires var doings := Doings(items[1..], event, Opened(c1, items[1..], event));
      Runnable(c1, doings) && RunAll(c1, doings) == Exposed(c1, items[1..], event).0
    requires var x, c2 := items[0], Exposed(c1, items[1..], event).0;
      && Consistent(c2) && AllPermitted(c2, x.after) && Consistent(ActedAll(c2, x.after))
      && Enabled(Named(ActedAll(c2, x.after), x.name), x.take)
    ensures var x, c2 := items[0], Exposed(c1, items[1..], event).0;
      var doings := Doings(items, event, 1 + Opened(c1, items[1..], event));
      Runnable(c, doings) && RunAll(c, doings) == Do(ActedAll(c2, x.after), x.name, x.take).0
  {
    hide Valid, Enabled, AllPermitted, ActedAll, Runnable, RunAll, Doings, Acts, Exposed, Exposable, Consistent, Opened,
      Do;
    var x, c2, k := items[0], Exposed(c1, items[1..], event).0, Opened(c1, items[1..], event);
    var first, last := Acts(x.before) + [Calling(x.name, x.share)], Acts(x.after) + [Calling(x.name, x.take)];
    var rest := Doings(items[1..], event, k);
    StepRuns(c2, x.after, x.name, x.take);
    RunBoth(c, first, rest);
    RunBoth(c, first + rest, last);
    DoingsAround(items, event, k);
  }

  lemma CallRuns(c: Context, name: string, e: Event)
    requires Consistent(c) && Enabled(Named(c, name), e)
    ensures Runnable(c, [Calling(name, e)]) && RunAll(c, [Calling(name, e)]) == Do(c, name, e).0
  {
    hide Consistent, Enabled, Do;
    assert [Calling(name, e)][1..] == [];
  }

  lemma NothingElse(c: Context, event: seq<Op>)
    requires AllPermitted(c, event)
    ensures var doings := Doings([], event, 0);
      Runnable(c, doings) && RunAll(c, doings) == ActedAll(c, event)
  {
    hide AllPermitted, ActedAll, Acts;
    ActsRun(c, event);
    assert Doings([], event, 0) == [Raising] + Acts(event);
    assert ([Raising] + Acts(event))[1..] == Acts(event);
  }

  lemma OnlyTried(items: seq<Item>, event: seq<Op>)
    requires items != []
    ensures Doings(items, event, 0) == Acts(items[0].before) + [Calling(items[0].name, items[0].share)]
  {
    hide Acts;
    assert SharingOf(items, 0) == [] && TakingOf(items, 0) == [];
    assert SharingOf(items, 1) == [] + (Acts(items[0].before) + [Calling(items[0].name, items[0].share)]);
  }

  // ----- as calls of the library -----

  function ItemOf(x: Item): ExposeCalls.Item {
    ExposeCalls.Item(x.name, if x.share.Share? then x.share.address else 0, 0)
  }

  function ItemsOf(items: seq<Item>): seq<ExposeCalls.Item> {
    seq(|items|, i requires 0 <= i < |items| => ItemOf(items[i]))
  }

  /** The calls among what is done. */
  function CallsAmong(doings: seq<Doing>, event: string): seq<ExposeCalls.Call> {
    if doings == [] then []
    else
      (match doings[0]
       case Calling(name, Share(n, address, _, _, _, _)) => [ExposeCalls.Share(ExposeCalls.Item(name, address, 0))]
       case Calling(name, Take(_, _, _)) => [ExposeCalls.Reclaim(name)]
       case Raising => [ExposeCalls.Event(event)]
       case _ => []) + CallsAmong(doings[1..], event)
  }

  lemma {:induction false} CallsBoth(a: seq<Doing>, b: seq<Doing>, event: string)
    ensures CallsAmong(a + b, event) == CallsAmong(a, event) + CallsAmong(b, event)
    decreases |a|
  {
    if a == [] {
      assert a + b == b;
    } else {
      assert (a + b)[0] == a[0] && (a + b)[1..] == a[1..] + b;
      CallsBoth(a[1..], b, event);
    }
  }

  lemma {:induction false} NoCalls(ops: seq<Op>, event: string)
    ensures CallsAmong(Acts(ops), event) == []
    decreases |ops|
  {
    if ops != [] {
      assert Acts(ops)[1..] == Acts(ops[1..]);
      NoCalls(ops[1..], event);
    }
  }

  lemma {:induction false} SharingCalls(items: seq<Item>, n: nat, event: string)
    requires n <= |items| && forall x | x in items :: x.share.Share?
    ensures CallsAmong(SharingOf(items, n), event) == ExposeCalls.Shares(ItemsOf(items)[..n])
    decreases n
  {
    hide Acts, ExposeCalls.Shares, ExposeCalls.Names;
    if n == 0 {
      assert ItemsOf(items)[..0] == [];
      NoShares();
    } else {
      var x := items[n - 1];
      ExposeCalls.SharesPush(ItemsOf(items), n - 1);
      SharingCalls(items, n - 1, event);
      NoCalls(x.before, event);
      CallsBoth(Acts(x.before), [Calling(x.name, x.share)], event);
      CallsBoth(SharingOf(items, n - 1), Acts(x.before) + [Calling(x.name, x.share)], event);
      assert x in items;
      assert [Calling(x.name, x.share)][1..] == [];
      assert CallsAmong([Calling(x.name, x.share)], event) == [ExposeCalls.Share(ItemOf(x))];
    }
  }

  lemma NoShares()
    ensures ExposeCalls.Shares([]) == []
  {
  }

  lemma {:induction false} TakingCalls(items: seq<Item>, n: nat, event: string)
    requires n <= |items| && forall x | x in items :: x.take.Take?
    ensures CallsAmong(TakingOf(items, n), event) == ExposeCalls.Reclaims(ExposeCalls.Names(ItemsOf(items)[..n]))
    decreases n
  {
    hide Acts;
    if n > 0 {
      var x := items[n - 1];
      TakingCalls(items, n - 1, event);
      NoCalls(x.after, event);
      CallsBoth(Acts(x.after), [Calling(x.name, x.take)], event);
      CallsBoth(Acts(x.after) + [Calling(x.name, x.take)], TakingOf(items, n - 1), event);
      assert x in items;
      assert [Calling(x.name, x.take)][1..] == [];
      assert CallsAmong([Calling(x.name, x.take)], event) == [ExposeCalls.Reclaim(x.name)];
      ReclaimsFirst(ItemsOf(items), n);
    }
  }

  lemma ReclaimsFirst(items: seq<ExposeCalls.Item>, n: nat)
    requires 0 < n <= |items|
    ensures ExposeCalls.Reclaims(ExposeCalls.Names(items[..n])) ==
      [ExposeCalls.Reclaim(items[n - 1].name)] + ExposeCalls.Reclaims(ExposeCalls.Names(items[..n - 1]))
  {
  }

  lemma HappeningCalls(ops: seq<Op>, event: string)
    ensures CallsAmong([Raising] + Acts(ops), event) == [ExposeCalls.Event(event)] && CallsAmong([], event) == []
  {
    NoCalls(ops, event);
    CallsBoth([Raising], Acts(ops), event);
    assert [Raising][1..] == [];
  }

  /** The calls made are those of a multi-expose by the library, whose shares answer as these do. */
  lemma CallsAreMultiExpose(items: seq<Item>, ops: seq<Op>, k: nat, event: string, env: ExposeCalls.Environment,
                            pre: seq<ExposeCalls.Call>)
    requires k <= |items| && (forall x | x in items :: x.share.Share? && x.take.Take?)
    requires ExposeCalls.Good(env, pre, ItemsOf(items)) == k
    ensures CallsAmong(Doings(items, ops, k), event) == ExposeCalls.MultiCalls(env, pre, event, ItemsOf(items))
  {
    hide Acts, SharingOf, TakingOf, CallsAmong, ExposeCalls.Good, ExposeCalls.Shares, ExposeCalls.Reclaims,
      ExposeCalls.Names;
    var tried := if k == |items| then k else k + 1;
    var happening := if k == |items| then [Raising] + Acts(ops) else [];
    SharingCalls(items, tried, event);
    TakingCalls(items, k, event);
    HappeningCalls(ops, event);
    CallsBoth(SharingOf(items, tried), happening, event);
    CallsBoth(SharingOf(items, tried) + happening, TakingOf(items, k), event);
    assert ItemsOf(items)[..|items|] == ItemsOf(items);
  }
}
