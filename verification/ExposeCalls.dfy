/** The calls that expose several values at once, in one call or in a transaction. What a call to the library answers
    may depend on everything that was called before. Values are reclaimed like brackets: what a reclaim names is the
    last one that was shared and not reclaimed yet, and in the end nothing is left. */
module ExposeCalls {

  const PDI_OK := 0
  const PDI_ERR_STATE := 7

  datatype Item = Item(name: string, data: int, access: int)

  datatype Call = Share(item: Item) | Event(name: string) | Reclaim(name: string)

  /** The status of the last call of a history. */
  type Environment = seq<Call> -> int

  // ----- the calls that are made, and the status of the whole -----

  function Shares(items: seq<Item>): (calls: seq<Call>) {
    seq(|items|, i requires 0 <= i < |items| => Share(items[i]))
  }

  function Names(items: seq<Item>): seq<string> {
    seq(|items|, i requires 0 <= i < |items| => items[i].name)
  }

  /** Reclaims, the last name first. */
  function Reclaims(names: seq<string>): seq<Call> {
    seq(|names|, i requires 0 <= i < |names| => Reclaim(names[|names| - 1 - i]))
  }

  /** The first error among the given calls, made after `pre`. */
  function FirstError(env: Environment, pre: seq<Call>, calls: seq<Call>): int {
    if calls == [] then PDI_OK
    else
      var first := FirstError(env, pre, calls[..|calls| - 1]);
      if first != PDI_OK then first else env(pre + calls)
  }

  /** What the share of an item answers after the shares of those before it. */
  function ShareStatus(env: Environment, pre: seq<Call>, items: seq<Item>, i: nat): int
    requires i < |items|
  {
    env(pre + Shares(items[..i + 1]))
  }

  /** How many shares in a row succeed from the start. */
  function Good(env: Environment, pre: seq<Call>, items: seq<Item>): (k: nat)
    ensures k <= |items|
  {
    if items == [] then 0
    else
      var k := Good(env, pre, items[..|items| - 1]);
      if k == |items| - 1 && env(pre + Shares(items)) == PDI_OK then |items| else k
  }

  /** The names that are shared when all are tried. */
  function Kept(env: Environment, pre: seq<Call>, items: seq<Item>): seq<string> {
    if items == [] then []
    else
      Kept(env, pre, items[..|items| - 1])
      + if env(pre + Shares(items)) == PDI_OK then [items[|items| - 1].name] else []
  }

  /** Exactly the names that were shared are reclaimed, in reverse; the event comes if all were. */
  function MultiCalls(env: Environment, pre: seq<Call>, event: string, items: seq<Item>): seq<Call> {
    var k := Good(env, pre, items);
    if k == |items| then Shares(items) + [Event(event)] + Reclaims(Names(items))
    else Shares(items[..k + 1]) + Reclaims(Names(items[..k]))
  }

  function EndCalls(env: Environment, pre: seq<Call>, event: string, items: seq<Item>): seq<Call> {
    (if FirstError(env, pre, Shares(items)) == PDI_OK then [Event(event)] else []) + Reclaims(Kept(env, pre, items))
  }

  function TransactionCalls(env: Environment, pre: seq<Call>, event: string, items: seq<Item>): seq<Call> {
    Shares(items) + EndCalls(env, pre, event, items)
  }

  /** Outside a transaction, each value is reclaimed at once. */
  function LooseCalls(env: Environment, pre: seq<Call>, items: seq<Item>): seq<Call> {
    if items == [] then []
    else
      var before := LooseCalls(env, pre, items[..|items| - 1]);
      var item := items[|items| - 1];
      before + [Share(item)] + if env(pre + before + [Share(item)]) == PDI_OK then [Reclaim(item.name)] else []
  }

  // ----- lemmas -----

  lemma {:induction false} FirstErrorAppend(env: Environment, pre: seq<Call>, a: seq<Call>, b: seq<Call>)
    ensures FirstError(env, pre, a + b) ==
      if FirstError(env, pre, a) != PDI_OK then FirstError(env, pre, a) else FirstError(env, pre + a, b)
    decreases b
  {
    if b == [] {
      assert a + b == a;
    } else {
      var c := b[..|b| - 1];
      FirstErrorAppend(env, pre, a, c);
      assert (a + b)[..|a + b| - 1] == a + c;
      assert pre + (a + b) == pre + a + b;
    }
  }

  lemma FirstErrorStep(env: Environment, pre: seq<Call>, calls: seq<Call>, call: Call)
    ensures FirstError(env, pre, calls + [call]) ==
      if FirstError(env, pre, calls) != PDI_OK then FirstError(env, pre, calls) else env(pre + (calls + [call]))
  {
    assert (calls + [call])[..|calls|] == calls;
  }

  /** The status of a call, made after `pre` and the calls before it. */
  function StatusAt(env: Environment, pre: seq<Call>, calls: seq<Call>, i: nat): int
    requires i < |calls|
  {
    env(pre + calls[..i + 1])
  }

  /** No call before `i` fails. */
  predicate OkBefore(env: Environment, pre: seq<Call>, calls: seq<Call>, i: nat)
    requires i <= |calls|
  {
    forall j | 0 <= j < i :: StatusAt(env, pre, calls, j) == PDI_OK
  }

  /** The status of the first call that fails, if any does. */
  lemma {:induction false} FirstErrorIs(env: Environment, pre: seq<Call>, calls: seq<Call>)
    ensures FirstError(env, pre, calls) == PDI_OK <==> OkBefore(env, pre, calls, |calls|)
    ensures forall i | 0 <= i < |calls| && OkBefore(env, pre, calls, i) && StatusAt(env, pre, calls, i) != PDI_OK ::
      FirstError(env, pre, calls) == StatusAt(env, pre, calls, i)
    decreases |calls|
  {
    if calls != [] {
      var n := |calls| - 1;
      var front := calls[..n];
      FirstErrorIs(env, pre, front);
      assert calls[..n + 1] == calls;
      forall j | 0 <= j < n
        ensures StatusAt(env, pre, calls, j) == StatusAt(env, pre, front, j)
      {
        assert front[..j + 1] == calls[..j + 1];
      }
      assert OkBefore(env, pre, calls, n) <==> OkBefore(env, pre, front, n);
      assert OkBefore(env, pre, calls, n + 1) <==>
        OkBefore(env, pre, calls, n) && StatusAt(env, pre, calls, n) == PDI_OK;
      forall i | 0 <= i < n && OkBefore(env, pre, calls, i) && StatusAt(env, pre, calls, i) != PDI_OK
        ensures FirstError(env, pre, calls) == StatusAt(env, pre, calls, i)
      {
        assert OkBefore(env, pre, front, i);
      }
    }
  }

  /** The number of leading successes: all before it succeeded, and it did not. */
  lemma {:induction false} GoodIs(env: Environment, pre: seq<Call>, items: seq<Item>, i: nat)
    requires i < |items|
    ensures i < Good(env, pre, items) ==> ShareStatus(env, pre, items, i) == PDI_OK
    ensures i == Good(env, pre, items) ==> ShareStatus(env, pre, items, i) != PDI_OK
    decreases items
  {
    var front := items[..|items| - 1];
    if i == |front| {
      assert items[..i + 1] == items;
    } else {
      assert front[..i + 1] == items[..i + 1];
      GoodIs(env, pre, front, i);
    }
  }

  lemma {:induction false} GoodPrefix(env: Environment, pre: seq<Call>, items: seq<Item>, n: nat)
    requires n <= |items|
    ensures Good(env, pre, items[..n]) == if Good(env, pre, items) < n then Good(env, pre, items) else n
    decreases items
  {
    if n == |items| {
      assert items[..n] == items;
    } else {
      var front := items[..|items| - 1];
      assert front[..n] == items[..n];
      GoodPrefix(env, pre, front, n);
    }
  }

  lemma SharesPush(items: seq<Item>, n: nat)
    requires n < |items|
    ensures Shares(items[..n + 1]) == Shares(items[..n]) + [Share(items[n])]
    ensures Names(items[..n + 1]) == Names(items[..n]) + [items[n].name]
  {
  }

  /** All shares succeed exactly when none of them is the first error, and then all names are kept. */
  lemma {:induction false} AllShared(env: Environment, pre: seq<Call>, items: seq<Item>)
    ensures FirstError(env, pre, Shares(items)) == PDI_OK <==> Good(env, pre, items) == |items|
    ensures Good(env, pre, items) == |items| ==> Kept(env, pre, items) == Names(items)
    decreases items
  {
    if items != [] {
      var n := |items| - 1;
      AllShared(env, pre, items[..n]);
      SharesPush(items, n);
      assert items[..n + 1] == items;
      FirstErrorStep(env, pre, Shares(items[..n]), Share(items[n]));
    }
  }

  lemma LastFails(env: Environment, pre: seq<Call>, items: seq<Item>)
    requires items != [] && Good(env, pre, items) == |items| - 1
    ensures Kept(env, pre, items) == Names(items[..|items| - 1])
  {
    hide FirstError;
    var n := |items| - 1;
    GoodPrefix(env, pre, items, n);
    AllShared(env, pre, items[..n]);
    GoodIs(env, pre, items, n);
    assert items[..n + 1] == items;
  }

  lemma GoodIff(env: Environment, pre: seq<Call>, items: seq<Item>)
    ensures Good(env, pre, items) >= |items| - 1 <==> forall i | 0 <= i < |items| - 1 ::
      ShareStatus(env, pre, items, i) == PDI_OK
  {
    hide Good, ShareStatus;
    var k := Good(env, pre, items);
    if k < |items| - 1 {
      GoodIs(env, pre, items, k);
    } else {
      forall i | 0 <= i < |items| - 1
        ensures ShareStatus(env, pre, items, i) == PDI_OK
      {
        GoodIs(env, pre, items, i);
      }
    }
  }

  lemma SameCallsIff(env: Environment, pre: seq<Call>, event: string, items: seq<Item>)
    requires items != []
    ensures TransactionCalls(env, pre, event, items) == MultiCalls(env, pre, event, items) <==>
      forall i | 0 <= i < |items| - 1 :: ShareStatus(env, pre, items, i) == PDI_OK
  {
    hide FirstError, Good, Kept, ShareStatus;
    var k, n := Good(env, pre, items), |items| - 1;
    GoodIff(env, pre, items);
    AllShared(env, pre, items);
    if k == n {
      LastFails(env, pre, items);
      assert items[..k + 1] == items;
    } else if k < n {
      var multi, trans := MultiCalls(env, pre, event, items), TransactionCalls(env, pre, event, items);
      assert trans[k + 1] == Share(items[k + 1]);
      assert |multi| > k + 1 ==> multi[k + 1].Reclaim?;
    }
  }

  lemma {:induction false} LooseStart(env: Environment, pre: seq<Call>, items: seq<Item>)
    requires items != []
    ensures var calls := LooseCalls(env, pre, items);
      && |calls| >= |items| && calls[0] == Share(items[0])
      && (env(pre + [Share(items[0])]) == PDI_OK ==> |calls| >= 2 && calls[1] == Reclaim(items[0].name))
      && (|items| == 1 && env(pre + [Share(items[0])]) != PDI_OK ==> calls == [Share(items[0])])
    decreases items
  {
    var front := items[..|items| - 1];
    if front == [] {
      assert pre + [] + [Share(items[0])] == pre + [Share(items[0])];
    } else {
      LooseStart(env, pre, front);
    }
  }

  lemma NamelessCallsIff(env: Environment, pre: seq<Call>, items: seq<Item>)
    requires items != []
    ensures LooseCalls(env, pre, items) == MultiCalls(env, pre, "", items) <==>
      |items| == 1 && env(pre + [Share(items[0])]) != PDI_OK
  {
    hide LooseCalls, Good;
    var k := Good(env, pre, items);
    LooseStart(env, pre, items);
    GoodIs(env, pre, items, 0);
    assert Shares(items[..1]) == [Share(items[0])];
    var multi := MultiCalls(env, pre, "", items);
    if k == 0 {
      assert multi == [Share(items[0])];
    } else {
      assert |multi| >= 2 && !multi[1].Reclaim?;
    }
  }

  /** What a client sees of a transaction around the given exposes. */
  function TransactionRun(env: Environment, pre: seq<Call>, event: string, items: seq<Item>): (seq<Call>, int) {
    if event == "" then (LooseCalls(env, pre, items), PDI_ERR_STATE)
    else
      var calls := TransactionCalls(env, pre, event, items);
      (calls, FirstError(env, pre, calls))
  }

  function MultiRun(env: Environment, pre: seq<Call>, event: string, items: seq<Item>): (seq<Call>, int) {
    var calls := MultiCalls(env, pre, event, items);
    (calls, FirstError(env, pre, calls))
  }

  /** A transaction makes the same calls and returns the same status as one multi-expose exactly when no
      share but the last one fails. A transaction named "" is none: it does so only for a single value whose
      share fails with the status of a misplaced call. */
  lemma SameIff(env: Environment, pre: seq<Call>, event: string, items: seq<Item>)
    requires items != []
    ensures TransactionRun(env, pre, event, items) == MultiRun(env, pre, event, items) <==>
      if event == "" then |items| == 1 && env(pre + [Share(items[0])]) == PDI_ERR_STATE
      else forall i | 0 <= i < |items| - 1 :: ShareStatus(env, pre, items, i) == PDI_OK
  {
    hide LooseCalls, TransactionCalls, MultiCalls, Good, Kept;
    if event == "" {
      NamelessCallsIff(env, pre, items);
      LooseStart(env, pre, items);
      FirstErrorStep(env, pre, [], Share(items[0]));
      assert [] + [Share(items[0])] == [Share(items[0])];
    } else {
      SameCallsIff(env, pre, event, items);
    }
  }

  /** Two values, the share of the first failing: the transaction goes on to share and reclaim the second, the
      multi-expose stops. */
  lemma FirstShareFails(env: Environment, a: Item, b: Item)
    requires env == (h => if h == [Share(a)] then 1 else PDI_OK)
    ensures TransactionRun(env, [], "event", [a, b]) == ([Share(a), Share(b), Reclaim(b.name)], 1)
    ensures MultiRun(env, [], "event", [a, b]) == ([Share(a)], 1)
  {
    var one, two := [a], [a, b];
    assert one[..0] == [] && two[..1] == one && one[..1] == one;
    assert Shares(one) == [Share(a)] && Shares(two) == [Share(a), Share(b)] && Shares([]) == [];
    assert [] + Shares(one) == [Share(a)] && [] + Shares(two) == [Share(a), Share(b)];
    assert Good(env, [], one) == 0 && Good(env, [], two) == 0;
    assert env(Shares(one)) == 1 && env(Shares(two)) == PDI_OK && [] + [b.name] == [b.name];
    assert Kept(env, [], []) == [] && Kept(env, [], one) == [] && Kept(env, [], two) == [b.name];
    assert Reclaims([b.name]) == [Reclaim(b.name)] && Reclaims(Names([])) == [];
    assert MultiCalls(env, [], "event", two) == [Share(a)];
    FailureFirst(env, [Share(a)], [Share(b)]);
    assert [Share(a)] + [Share(b)] == Shares(two);
    FailureFirst(env, [Share(a)], [Share(b), Reclaim(b.name)]);
    assert [Share(a)] + [Share(b), Reclaim(b.name)] == [Share(a), Share(b), Reclaim(b.name)];
    assert TransactionCalls(env, [], "event", two) == [Share(a), Share(b), Reclaim(b.name)];
    assert [Share(a)] + [] == [Share(a)];
    FailureFirst(env, [Share(a)], []);
  }

  lemma FailureFirst(env: Environment, calls: seq<Call>, more: seq<Call>)
    requires |calls| == 1 && env(calls) == 1
    ensures FirstError(env, [], calls + more) == 1
  {
    assert calls[..0] == [] && [] + calls == calls;
    FirstErrorAppend(env, [], calls, more);
  }

  /** A transaction named "": the value is reclaimed at once, no event comes and the end of the transaction fails. */
  lemma NamelessTransaction(env: Environment, a: Item)
    requires env == (h => PDI_OK)
    ensures TransactionRun(env, [], "", [a]) == ([Share(a), Reclaim(a.name)], PDI_ERR_STATE)
    ensures MultiRun(env, [], "", [a]) == ([Share(a), Event(""), Reclaim(a.name)], PDI_OK)
  {
    var one := [a];
    assert one[..0] == [] && Shares(one) == [Share(a)];
    assert Good(env, [], one) == 1;
    assert Reclaims(Names(one)) == [Reclaim(a.name)];
    assert LooseCalls(env, [], []) == [];
    assert LooseCalls(env, [], one) == [Share(a), Reclaim(a.name)];
    var calls := [Share(a), Event(""), Reclaim(a.name)];
    assert MultiCalls(env, [], "", one) == calls;
    assert calls[..2] == [Share(a), Event("")] && calls[..2][..1] == [Share(a)] && [Share(a)][..0] == [];
    assert FirstError(env, [], [Share(a)]) == PDI_OK;
    assert FirstError(env, [], calls[..2]) == PDI_OK;
  }

  // ----- brackets -----

  datatype Open = Broken | Open(names: seq<string>)

  /** What is shared and not reclaimed after a call, the last one last; `Broken` if a reclaim is out of turn. */
  function AfterCall(open: Open, call: Call, status: int): Open {
    match open
    case Broken => Broken
    case Open(names) =>
      match call
      case Share(item) => if status == PDI_OK then Open(names + [item.name]) else open
      case Event(_) => open
      case Reclaim(name) =>
        if names != [] && names[|names| - 1] == name then Open(names[..|names| - 1]) else Broken
  }

  /** The same after several calls, made after `pre`. */
  function AfterCalls(env: Environment, pre: seq<Call>, calls: seq<Call>, open: Open): Open
    decreases |calls|
  {
    if calls == [] then open
    else AfterCalls(env, pre + [calls[0]], calls[1..], AfterCall(open, calls[0], env(pre + [calls[0]])))
  }

  /** Everything shared is reclaimed in turn. */
  predicate Balanced(env: Environment, pre: seq<Call>, calls: seq<Call>) {
    AfterCalls(env, pre, calls, Open([])) == Open([])
  }

  lemma {:induction false} AfterBoth(env: Environment, pre: seq<Call>, a: seq<Call>, b: seq<Call>, open: Open)
    ensures AfterCalls(env, pre, a + b, open) == AfterCalls(env, pre + a, b, AfterCalls(env, pre, a, open))
    decreases |a|
  {
    hide AfterCall;
    if a == [] {
      assert a + b == b && pre + a == pre;
    } else {
      assert (a + b)[0] == a[0] && (a + b)[1..] == a[1..] + b && pre + [a[0]] + a[1..] == pre + a;
      AfterBoth(env, pre + [a[0]], a[1..], b, AfterCall(open, a[0], env(pre + [a[0]])));
    }
  }

  lemma AfterOne(env: Environment, pre: seq<Call>, call: Call, open: Open)
    ensures AfterCalls(env, pre, [call], open) == AfterCall(open, call, env(pre + [call]))
  {
    hide AfterCall;
  }

  /** The shares of a transaction open what they keep. */
  lemma {:induction false} AfterShares(env: Environment, pre: seq<Call>, items: seq<Item>)
    ensures AfterCalls(env, pre, Shares(items), Open([])) == Open(Kept(env, pre, items))
    decreases |items|
  {
    hide AfterCalls;
    if items == [] {
      AfterNone(env, pre, Open([]));
      assert Shares(items) == [];
    } else {
      var n := |items| - 1;
      AfterShares(env, pre, items[..n]);
      SharesPush(items, n);
      assert items[..n + 1] == items;
      AfterBoth(env, pre, Shares(items[..n]), [Share(items[n])], Open([]));
      AfterOne(env, pre + Shares(items[..n]), Share(items[n]), Open(Kept(env, pre, items[..n])));
      assert pre + Shares(items[..n]) + [Share(items[n])] == pre + Shares(items);
      assert Kept(env, pre, items[..n]) + [] == Kept(env, pre, items[..n]);
    }
  }

  lemma AfterNone(env: Environment, pre: seq<Call>, open: Open)
    ensures AfterCalls(env, pre, [], open) == open
  {
  }

  /** The reclaims close all, whatever they answer. */
  lemma {:induction false} AfterReclaims(env: Environment, pre: seq<Call>, names: seq<string>)
    ensures AfterCalls(env, pre, Reclaims(names), Open(names)) == Open([])
    decreases |names|
  {
    if names == [] {
      assert Reclaims(names) == [];
    } else {
      var n := |names| - 1;
      var calls := Reclaims(names);
      assert calls[0] == Reclaim(names[n]) && calls[1..] == Reclaims(names[..n]);
      AfterReclaims(env, pre + [calls[0]], names[..n]);
    }
  }

  /** Whatever fails, a transaction is balanced. */
  lemma TransactionBalanced(env: Environment, pre: seq<Call>, event: string, items: seq<Item>)
    ensures Balanced(env, pre, TransactionCalls(env, pre, event, items))
  {
    hide AfterCalls, Reclaims, Shares, Kept, FirstError;
    var end := if FirstError(env, pre, Shares(items)) == PDI_OK then [Event(event)] else [];
    EventThenReclaims(env, pre + Shares(items), end, Kept(env, pre, items));
    AfterShares(env, pre, items);
    AfterBoth(env, pre, Shares(items), end + Reclaims(Kept(env, pre, items)), Open([]));
  }

  lemma EventThenReclaims(env: Environment, pre: seq<Call>, end: seq<Call>, names: seq<string>)
    requires end == [] || (|end| == 1 && end[0].Event?)
    ensures AfterCalls(env, pre, end + Reclaims(names), Open(names)) == Open([])
  {
    hide AfterCalls, Reclaims;
    AfterBoth(env, pre, end, Reclaims(names), Open(names));
    if end == [] {
      AfterNone(env, pre, Open(names));
    } else {
      assert end == [end[0]];
      AfterOne(env, pre, end[0], Open(names));
    }
    AfterReclaims(env, pre + end, names);
  }

  /** Up to the first failure, all names are kept. */
  lemma KeptUpTo(env: Environment, pre: seq<Call>, items: seq<Item>)
    ensures var k := Good(env, pre, items);
      && (k == |items| ==> Kept(env, pre, items) == Names(items))
      && (k < |items| ==> Kept(env, pre, items[..k + 1]) == Names(items[..k]))
  {
    hide Good, Kept, FirstError;
    var k := Good(env, pre, items);
    AllShared(env, pre, items);
    if k < |items| {
      GoodPrefix(env, pre, items, k + 1);
      LastFails(env, pre, items[..k + 1]);
      assert items[..k + 1][..k] == items[..k];
    }
  }

  /** Whatever fails, a multi-expose is balanced. */
  lemma MultiBalanced(env: Environment, pre: seq<Call>, event: string, items: seq<Item>)
    ensures Balanced(env, pre, MultiCalls(env, pre, event, items))
  {
    hide AfterCalls, Reclaims, Shares, Kept, Good;
    var k := Good(env, pre, items);
    var tried := if k == |items| then items else items[..k + 1];
    var end := if k == |items| then [Event(event)] else [];
    var names := Kept(env, pre, tried);
    KeptUpTo(env, pre, items);
    EventThenReclaims(env, pre + Shares(tried), end, names);
    AfterShares(env, pre, tried);
    AfterBoth(env, pre, Shares(tried), end + Reclaims(names), Open([]));
    assert Shares(tried) + (end + Reclaims(names)) == MultiCalls(env, pre, event, items);
  }

  /** Outside a transaction, each value is reclaimed before the next is shared. */
  lemma {:induction false} LooseBalanced(env: Environment, pre: seq<Call>, items: seq<Item>)
    ensures Balanced(env, pre, LooseCalls(env, pre, items))
    decreases |items|
  {
    hide AfterCalls;
    if items == [] {
      AfterNone(env, pre, Open([]));
    } else {
      var front, item := items[..|items| - 1], items[|items| - 1];
      var before := LooseCalls(env, pre, front);
      LooseBalanced(env, pre, front);
      LooseOne(env, pre + before, item);
      var calls := LooseOf(env, pre + before, item);
      AfterBoth(env, pre, before, calls, Open([]));
      assert LooseCalls(env, pre, items) == before + calls;
    }
  }

  function LooseOf(env: Environment, pre: seq<Call>, item: Item): seq<Call> {
    [Share(item)] + if env(pre + [Share(item)]) == PDI_OK then [Reclaim(item.name)] else []
  }

  lemma LooseOne(env: Environment, pre: seq<Call>, item: Item)
    ensures AfterCalls(env, pre, LooseOf(env, pre, item), Open([])) == Open([])
  {
    hide AfterCalls;
    var more := if env(pre + [Share(item)]) == PDI_OK then [Reclaim(item.name)] else [];
    AfterBoth(env, pre, [Share(item)], more, Open([]));
    AfterOne(env, pre, Share(item), Open([]));
    if env(pre + [Share(item)]) == PDI_OK {
      AfterOne(env, pre + [Share(item)], Reclaim(item.name), Open([item.name]));
    } else {
      AfterNone(env, pre + [Share(item)], Open([]));
    }
    assert [] + [item.name] == [item.name];
  }

  /** The event comes when all values are open and nothing failed: once, or not at all. */
  lemma EventSeesAll(env: Environment, pre: seq<Call>, event: string, items: seq<Item>, i: nat)
    requires i < |MultiCalls(env, pre, event, items)|
    ensures var calls := MultiCalls(env, pre, event, items);
      calls[i].Event? ==>
        && calls[i] == Event(event) && i == |items|
        && AfterCalls(env, pre, calls[..i], Open([])) == Open(Names(items))
        && forall j | 0 <= j < |items| :: calls[j] == Share(items[j]) && env(pre + calls[..j + 1]) == PDI_OK
  {
    hide AfterCalls, Kept, Good;
    var calls := MultiCalls(env, pre, event, items);
    if calls[i].Event? {
      var k := Good(env, pre, items);
      assert k == |items| && i == |items|;
      assert calls[..i] == Shares(items);
      AfterShares(env, pre, items);
      KeptUpTo(env, pre, items);
      forall j | 0 <= j < |items|
        ensures calls[j] == Share(items[j]) && env(pre + calls[..j + 1]) == PDI_OK
      {
        GoodIs(env, pre, items, j);
        assert calls[..j + 1] == Shares(items[..j + 1]);
      }
    }
  }
}
