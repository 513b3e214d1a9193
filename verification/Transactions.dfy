/** Exposing several values at once, as the library does it: in one call, or in a transaction. */
module Transactions {
  import opened ExposeCalls

  class Library {
    const env: Environment
    var trace: seq<Call>
    var transaction: string
    var status: int
    var data: seq<string>

    constructor (e: Environment)
      ensures env == e && trace == [] && transaction == "" && status == PDI_OK && data == [] && Valid()
    {
      env, trace, transaction, status, data := e, [], "", PDI_OK, [];
    }

    predicate Valid()
      reads this
    {
      transaction == "" ==> data == []
    }

    /** One call to the data store. */
    method Do(call: Call) returns (result: int)
      modifies this`trace
      ensures trace == old(trace) + [call] && result == env(trace)
    {
      trace := trace + [call];
      result := env(trace);
    }

    method Expose(item: Item) returns (result: int)
      requires Valid()
      modifies this`trace, this`status, this`data
      ensures Valid()
      ensures transaction == "" ==>
        && trace == old(trace) + LooseCalls(env, old(trace), [item])
        && result == FirstError(env, old(trace), LooseCalls(env, old(trace), [item]))
        && Balanced(env, old(trace), LooseCalls(env, old(trace), [item]))
        && status == old(status) && data == old(data)
      ensures transaction != "" ==>
        && trace == old(trace) + [Share(item)] && result == env(trace)
        && data == old(data) + (if result == PDI_OK then [item.name] else [])
        && AfterCalls(env, old(trace), [Share(item)], Open(old(data))) == Open(data)
        && status == if old(status) == PDI_OK then result else old(status)
    {
      hide AfterCalls;
      ghost var pre := trace;
      LooseBalanced(env, pre, [item]);
      AfterOne(env, pre, Share(item), Open(data));
      assert data + [] == data;
      assert [item][..0] == [] && pre + [] + [Share(item)] == pre + [Share(item)];
      FirstErrorStep(env, pre, [], Share(item));
      assert [] + [Share(item)] == [Share(item)];
      result := Do(Share(item));
      if result != PDI_OK {
        if transaction != "" && status == PDI_OK { status := result; }
        return;
      }
      if transaction != "" {
        data := data + [item.name];
      } else {
        FirstErrorStep(env, pre, [Share(item)], Reclaim(item.name));
        assert pre + ([Share(item)] + [Reclaim(item.name)]) == pre + [Share(item)] + [Reclaim(item.name)];
        result := Do(Reclaim(item.name));
      }
    }

    /** Reclaims all the names, the last one first, and keeps the first error. */
    method ReclaimAll(names: seq<string>, before: int) returns (result: int)
      modifies this`trace
      ensures trace == old(trace) + Reclaims(names)
      ensures AfterCalls(env, old(trace), trace[|old(trace)|..], Open(names)) == Open([])
      ensures result == if before != PDI_OK then before else FirstError(env, old(trace), Reclaims(names))
    {
      ghost var pre := trace;
      result := before;
      var i := 0;
      assert Reclaims(names)[..0] == [];
      while i < |names|
        invariant 0 <= i <= |names| && trace == pre + Reclaims(names)[..i]
        invariant result == if before != PDI_OK then before else FirstError(env, pre, Reclaims(names)[..i])
      {
        var call := Reclaim(names[|names| - 1 - i]);
        assert Reclaims(names)[..i + 1] == Reclaims(names)[..i] + [call];
        FirstErrorStep(env, pre, Reclaims(names)[..i], call);
        var r := Do(call);
        assert trace == pre + (Reclaims(names)[..i] + [call]);
        result := if result == PDI_OK then r else result;
        i := i + 1;
      }
      assert Reclaims(names)[..|names|] == Reclaims(names);
      assert trace[|pre|..] == Reclaims(names);
      AfterReclaims(env, pre, names);
    }

    /** Whatever shares fail, those that succeeded are reclaimed in reverse, the event comes if all
        succeeded, and the first error is returned. */
    method MultiExpose(event: string, items: seq<Item>) returns (result: int)
      requires items != []
      modifies this`trace
      ensures trace == old(trace) + MultiCalls(env, old(trace), event, items)
      ensures Balanced(env, old(trace), trace[|old(trace)|..])
      ensures result == FirstError(env, old(trace), MultiCalls(env, old(trace), event, items))
    {
      hide Good, FirstError, Kept, AfterCalls;
      ghost var pre := trace;
      MultiBalanced(env, pre, event, items);
      var shared: seq<string> := [];
      ShareNone(env, pre, items);
      ShareNext(env, pre, items, 0);
      result := Do(Share(items[0]));
      if result != PDI_OK {
        assert MultiCalls(env, pre, event, items) == Shares(items[..1]) == trace[|pre|..];
        return;
      }
      shared := shared + [items[0].name];
      var i := 1;
      while i < |items|
        invariant 1 <= i <= |items| && result == PDI_OK
        invariant SharedSoFar(env, pre, items, i, trace, shared)
      {
        ShareNext(env, pre, items, i);
        result := Do(Share(items[i]));
        if result != PDI_OK { break; }
        shared := shared + [items[i].name];
        i := i + 1;
      }
      ghost var calls := Shares(if result == PDI_OK then items else items[..i + 1]);
      assert result == PDI_OK ==> items[..i] == items;
      MultiEnds(env, pre, event, items, calls, shared, result);
      if result == PDI_OK {
        result := Do(Event(event));
      }
      result := ReclaimAll(shared, result);
      assert trace[|pre|..] == MultiCalls(env, pre, event, items);
    }

    method TransactionBegin(name: string) returns (result: int)
      requires Valid()
      modifies this`transaction, this`status
      ensures Valid()
      ensures
        if old(transaction) != "" then
          result == PDI_ERR_STATE && transaction == old(transaction) && status == old(status)
        else
          result == PDI_OK && transaction == name && status == PDI_OK
    {
      if transaction != "" { return PDI_ERR_STATE; }
      transaction, status := name, PDI_OK;
      return PDI_OK;
    }

    /** Without a transaction, the error left by an earlier one is returned again. */
    method TransactionEnd() returns (result: int)
      requires Valid()
      modifies this
      ensures Valid() && transaction == "" && data == [] && result == status
      ensures old(transaction) == "" ==>
        trace == old(trace) && result == if old(status) != PDI_OK then old(status) else PDI_ERR_STATE
      ensures old(transaction) != "" ==>
        var calls := (if old(status) == PDI_OK then [Event(old(transaction))] else []) + Reclaims(old(data));
        && trace == old(trace) + calls && AfterCalls(env, old(trace), calls, Open(old(data))) == Open([])
        && result == if old(status) != PDI_OK then old(status) else FirstError(env, old(trace), calls)
    {
      hide FirstError, Reclaims, AfterCalls;
      if transaction == "" {
        status := if status == PDI_OK then PDI_ERR_STATE else status;
        return status;
      }
      ghost var pre := trace;
      ghost var calls: seq<Call> := [];
      assert pre + [] == pre && [] + Reclaims(data) == Reclaims(data);
      if status == PDI_OK {
        OneCall(env, pre, Event(transaction));
        status := Do(Event(transaction));
        calls := [Event(transaction)];
        FirstErrorAppend(env, pre, calls, Reclaims(data));
      }
      assert pre + calls + Reclaims(data) == pre + (calls + Reclaims(data));
      EventThenReclaims(env, pre, calls, data);
      status := ReclaimAll(data, status);
      data, transaction := [], "";
      return status;
    }
  }

  lemma OneCall(env: Environment, pre: seq<Call>, call: Call)
    ensures FirstError(env, pre, [call]) == env(pre + [call])
  {
  }

  /** The first `i` shares were made and all succeeded. */
  ghost predicate SharedSoFar(env: Environment, pre: seq<Call>, items: seq<Item>, i: nat, trace: seq<Call>,
                              shared: seq<string>)
    requires i <= |items|
  {
    && trace == pre + Shares(items[..i]) && shared == Names(items[..i])
    && Good(env, pre, items) >= i && FirstError(env, pre, Shares(items[..i])) == PDI_OK
  }

  lemma ShareNone(env: Environment, pre: seq<Call>, items: seq<Item>)
    ensures SharedSoFar(env, pre, items, 0, pre, [])
  {
    assert items[..0] == [] && Shares([]) == [] && Names([]) == [];
  }

  /** The next share either extends them or is the first error. */
  lemma ShareNext(env: Environment, pre: seq<Call>, items: seq<Item>, i: nat)
    requires i < |items| && SharedSoFar(env, pre, items, i, pre + Shares(items[..i]), Names(items[..i]))
    ensures var trace := pre + Shares(items[..i]) + [Share(items[i])];
      && trace == pre + Shares(items[..i + 1])
      && (env(trace) == PDI_OK ==> SharedSoFar(env, pre, items, i + 1, trace, Names(items[..i]) + [items[i].name]))
      && (env(trace) != PDI_OK ==>
              Good(env, pre, items) == i && FirstError(env, pre, Shares(items[..i + 1])) == env(trace))
  {
    hide Good, FirstError;
    SharesPush(items, i);
    FirstErrorStep(env, pre, Shares(items[..i]), Share(items[i]));
    GoodIs(env, pre, items, i);
  }

  /** After the shares: the event if there is no error, and the reclaims. */
  lemma MultiEnds(env: Environment, pre: seq<Call>, event: string, items: seq<Item>, calls: seq<Call>,
                  shared: seq<string>, result: int)
    requires result == FirstError(env, pre, calls) && items != []
    requires var k := Good(env, pre, items);
      if result == PDI_OK then k == |items| && calls == Shares(items) && shared == Names(items)
      else k < |items| && calls == Shares(items[..k + 1]) && shared == Names(items[..k])
    ensures var calls' := if result == PDI_OK then calls + [Event(event)] else calls;
      var result' := if result == PDI_OK then env(pre + calls + [Event(event)]) else result;
      && MultiCalls(env, pre, event, items) == calls' + Reclaims(shared)
      && pre + calls' == (if result == PDI_OK then pre + calls + [Event(event)] else pre + calls)
      && pre + calls' + Reclaims(shared) == pre + (calls' + Reclaims(shared))
      && FirstError(env, pre, calls' + Reclaims(shared)) ==
        if result' != PDI_OK then result' else FirstError(env, pre + calls', Reclaims(shared))
  {
    hide Good, FirstError, Shares, Reclaims, Names;
    if result == PDI_OK {
      EventThen(env, pre, calls, Event(event), Reclaims(shared));
    } else {
      FirstErrorAppend(env, pre, calls, Reclaims(shared));
      assert pre + calls + Reclaims(shared) == pre + (calls + Reclaims(shared));
    }
  }

  lemma EventThen(env: Environment, pre: seq<Call>, calls: seq<Call>, event: Call, rest: seq<Call>)
    requires FirstError(env, pre, calls) == PDI_OK
    ensures pre + (calls + [event]) == pre + calls + [event]
    ensures pre + (calls + [event]) + rest == pre + (calls + [event] + rest)
    ensures FirstError(env, pre, calls + [event] + rest) ==
      var r := env(pre + calls + [event]);
      if r != PDI_OK then r else FirstError(env, pre + (calls + [event]), rest)
  {
    hide FirstError;
    assert pre + (calls + [event]) == pre + calls + [event];
    FirstErrorStep(env, pre, calls, event);
    FirstErrorAppend(env, pre, calls + [event], rest);
  }

  /** A client that exposes the items in a transaction. */
  method RunTransaction(lib: Library, event: string, items: seq<Item>) returns (result: int)
    requires lib.Valid() && lib.transaction == ""
    modifies lib
    ensures lib.Valid() && lib.transaction == ""
    ensures (lib.trace, result) ==
      (old(lib.trace) + TransactionRun(lib.env, old(lib.trace), event, items).0,
       TransactionRun(lib.env, old(lib.trace), event, items).1)
    ensures Balanced(lib.env, old(lib.trace), lib.trace[|old(lib.trace)|..])
  {
    hide FirstError, Kept, LooseCalls, Reclaims, AfterCalls;
    ghost var pre := lib.trace;
    TransactionBalanced(lib.env, pre, event, items);
    LooseBalanced(lib.env, pre, items);
    result := lib.TransactionBegin(event);
    ExposeNone(lib.env, pre);
    var i := 0;
    assert items[..0] == [];
    while i < |items|
      invariant 0 <= i <= |items| && lib.Valid() && lib.transaction == event
      invariant event == "" ==> lib.status == PDI_OK && lib.trace == pre + LooseCalls(lib.env, pre, items[..i])
      invariant event != "" ==> lib.trace == pre + Shares(items[..i]) && lib.data == Kept(lib.env, pre, items[..i])
      invariant event != "" ==> lib.status == FirstError(lib.env, pre, Shares(items[..i]))
    {
      ExposeNext(lib.env, pre, items, i);
      result := lib.Expose(items[i]);
      i := i + 1;
    }
    assert items[..i] == items;
    ghost var before := lib.trace;
    ghost var calls := EndCalls(lib.env, pre, event, items);
    FirstErrorAppend(lib.env, pre, Shares(items), calls);
    assert pre + Shares(items) + calls == pre + (Shares(items) + calls);
    result := lib.TransactionEnd();
    assert lib.trace[|pre|..] == TransactionRun(lib.env, pre, event, items).0;
  }

  lemma ExposeNone(env: Environment, pre: seq<Call>)
    ensures LooseCalls(env, pre, []) == [] && Kept(env, pre, []) == [] && FirstError(env, pre, Shares([])) == PDI_OK
    ensures pre + Shares([]) == pre && pre + [] == pre
  {
  }

  lemma ExposeNext(env: Environment, pre: seq<Call>, items: seq<Item>, i: nat)
    requires i < |items|
    ensures var trace := pre + Shares(items[..i]);
      var result := env(trace + [Share(items[i])]);
      var first := FirstError(env, pre, Shares(items[..i]));
      && trace + [Share(items[i])] == pre + Shares(items[..i + 1])
      && Kept(env, pre, items[..i + 1])
         == Kept(env, pre, items[..i]) + (if result == PDI_OK then [items[i].name] else [])
      && FirstError(env, pre, Shares(items[..i + 1])) == (if first == PDI_OK then result else first)
    ensures var trace := pre + LooseCalls(env, pre, items[..i]);
      pre + LooseCalls(env, pre, items[..i + 1]) == trace + LooseCalls(env, trace, [items[i]])
  {
    hide FirstError;
    SharesPush(items, i);
    FirstErrorStep(env, pre, Shares(items[..i]), Share(items[i]));
    assert items[..i + 1][..i] == items[..i];
    var trace := pre + LooseCalls(env, pre, items[..i]);
    assert [items[i]][..0] == [];
    assert trace + [] + [Share(items[i])] == pre + LooseCalls(env, pre, items[..i]) + [Share(items[i])];
  }
}
