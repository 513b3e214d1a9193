/** What holds over every run of a descriptor, from any valid one or from the start. */
module DescriptorRuns {
  import opened References
  import opened ReferenceInvariant
  import opened ReferenceRuns
  import opened Descriptor
  import opened DescriptorOps
  import opened DescriptorStack

  lemma StepValid(d: Desc, e: Event)
    requires Valid(d) && Enabled(d, e)
    ensures Valid(Step(d, e).0) && Step(d, e).0.metadata == d.metadata
  {
    hide Valid, Enabled, Step;
    StepRefines(d, e);
  }

  ghost predicate EnabledAll(d: Desc, es: seq<Event>)
    requires Valid(d)
    decreases |es|
  {
    es != [] ==> Enabled(d, es[0]) && (StepValid(d, es[0]); EnabledAll(Step(d, es[0]).0, es[1..]))
  }

  /** The descriptor after the run: valid, so that metadata keeps its placeholder. */
  ghost function After(d: Desc, es: seq<Event>): (d': Desc)
    requires Valid(d) && EnabledAll(d, es)
    ensures Valid(d') && d'.metadata == d.metadata
    decreases |es|
  {
    if es == [] then d
    else
      StepValid(d, es[0]);
      After(Step(d, es[0]).0, es[1..])
  }

  ghost function Outcomes(d: Desc, es: seq<Event>): seq<Outcome>
    requires Valid(d) && EnabledAll(d, es)
    decreases |es|
  {
    if es == [] then []
    else
      StepValid(d, es[0]);
      [Step(d, es[0]).1] + Outcomes(Step(d, es[0]).0, es[1..])
  }

  // ----- the stack of entries -----

  /** What the events of the run find outside the descriptor. */
  ghost function Notes(d: Desc, es: seq<Event>): (notes: seq<Note>)
    requires Valid(d) && EnabledAll(d, es)
    ensures |notes| == |es|
    decreases |es|
  {
    if es == [] then []
    else
      StepValid(d, es[0]);
      [Observed(d, es[0])] + Notes(Step(d, es[0]).0, es[1..])
  }

  function OutcomesSpec(metadata: bool, stack: seq<Entry>, es: seq<Event>, notes: seq<Note>): seq<Outcome>
    requires |notes| == |es|
    decreases |es|
  {
    if es == [] then []
    else
      var (stack', out) := StepSpec(metadata, stack, es[0], notes[0]);
      [out] + OutcomesSpec(metadata, stack', es[1..], notes[1..])
  }

  /** In every run, every event succeeds or fails, and every share and reclaim returns, as with the stack of entries. */
  lemma {:induction false} RunRefines(d: Desc, es: seq<Event>)
    requires Valid(d) && EnabledAll(d, es)
    ensures Outcomes(d, es) == OutcomesSpec(d.metadata, Stack(d), es, Notes(d, es))
    decreases |es|
  {
    hide Valid, Enabled, StepSpec, Step, Stack, Observed;
    if es != [] {
      StepValid(d, es[0]);
      StepRefines(d, es[0]);
      RunRefines(Step(d, es[0]).0, es[1..]);
    }
  }

  /** A descriptor before anything is shared: empty, or with the null placeholder of metadata. */
  ghost function Initial(metadata: bool, place: Id): Desc {
    if metadata then Desc(New(EMPTY, place, true, false), [place], true) else Desc(EMPTY, [], false)
  }

  lemma InitialIsValid(metadata: bool, place: Id)
    ensures var d := Initial(metadata, place);
      Valid(d) && Stack(d) == []
  {
    hide Core, Alive;
    assert Inv(EMPTY) by { assert Run([]) == EMPTY; }
    NewInv(EMPTY, place, true, false);
  }

  /** From the start, any sequence of events has the outcomes of a stack of entries that starts empty. */
  lemma EveryRun(metadata: bool, place: Id, es: seq<Event>)
    requires Valid(Initial(metadata, place)) && EnabledAll(Initial(metadata, place), es)
    ensures var d := Initial(metadata, place);
      Outcomes(d, es) == OutcomesSpec(metadata, [], es, Notes(d, es))
  {
    hide Valid, EnabledAll, Outcomes, Notes, OutcomesSpec, Stack;
    InitialIsValid(metadata, place);
    RunRefines(Initial(metadata, place), es);
  }

  // ----- a share and its reclaim -----

  /** What an event gives back to the user. */
  ghost function GivesBack(d: Desc, e: Event): Entry
    requires Valid(d) && Enabled(d, e)
  {
    InvSound(d.store);
    match e
    case Take(_, _, ok) => if ok && Shared(d) then EntryOf(d.store, d.holders[|d.holders| - 1]) else Gone
    case Act(op) => Given(d.store, op)
    case _ => Gone
  }

  ghost predicate GivenBack(d: Desc, es: seq<Event>, data: Id)
    requires Valid(d) && EnabledAll(d, es)
    decreases |es|
  {
    es != [] && (StepValid(d, es[0]);
      || (GivesBack(d, es[0]).Entry? && GivesBack(d, es[0]).data == data)
      || GivenBack(Step(d, es[0]).0, es[1..], data))
  }

  /** The run never pops the holder at position `k`. */
  ghost predicate StaysAbove(d: Desc, es: seq<Event>, k: nat)
    requires Valid(d) && EnabledAll(d, es)
    decreases |es|
  {
    && k < |d.holders|
    && (es != [] ==> (StepValid(d, es[0]); StaysAbove(Step(d, es[0]).0, es[1..], k)))
  }

  /** A holder that is not popped shows what it showed, unless that is given back. */
  lemma StepEntry(d: Desc, e: Event, k: nat)
    requires Valid(d) && Enabled(d, e) && Base(d.metadata) <= k < |d.holders| && Sound(d.store)
    requires var d' := Step(d, e).0; k < |d'.holders|
    ensures var d' := Step(d, e).0;
      && Valid(d') && d'.metadata == d.metadata && Sound(d'.store)
      && EntryOf(d'.store, d'.holders[k]) == Left(EntryOf(d.store, d.holders[k]), GivesBack(d, e))
  {
    hide Inv, Sound, Step, EntryOf, Observed, Enabled, Left;
    StepRefines(d, e);
    var d', i := Step(d, e).0, k - Base(d.metadata);
    InvSound(d'.store);
    assert Stack(d)[i] == EntryOf(d.store, d.holders[k]);
    assert Stack(d')[i] == EntryOf(d'.store, d'.holders[k]);
    assert Stack(d')[i] == Left(Stack(d)[i], GivesBack(d, e)) by {
      SpecEntry(d, e, i);
    }
  }

  lemma SpecEntry(d: Desc, e: Event, i: nat)
    requires Valid(d) && Enabled(d, e) && i < |Stack(d)|
    requires i < |StepSpec(d.metadata, Stack(d), e, Observed(d, e)).0|
    ensures StepSpec(d.metadata, Stack(d), e, Observed(d, e)).0[i] == Left(Stack(d)[i], GivesBack(d, e))
  {
    hide Inv, Sound, Applies;
    InvSound(d.store);
  }

  lemma {:induction false} EntryFate(d: Desc, es: seq<Event>, k: nat)
    requires Valid(d) && EnabledAll(d, es) && Base(d.metadata) <= k && StaysAbove(d, es, k) && Sound(d.store)
    ensures var d', x := After(d, es), EntryOf(d.store, d.holders[k]);
      && k < |d'.holders| && Sound(d'.store)
      && EntryOf(d'.store, d'.holders[k]) == if x.Entry? && GivenBack(d, es, x.data) then Gone else x
    decreases |es|
  {
    hide Inv, Sound, Step, EntryOf, Enabled, GivesBack;
    if es != [] {
      StepValid(d, es[0]);
      StepEntry(d, es[0], k);
      EntryFate(Step(d, es[0]).0, es[1..], k);
    }
  }

  /** Memory that was shared comes back from the reclaim that matches the share, whatever happens in between to the
      stack above it and to other references; unless it was given back before, and then nothing comes back. */
  lemma SharedComesBack(d: Desc, share: Event, es: seq<Event>, take: Event)
    requires Valid(d) && share.Share? && Enabled(d, share) && Accepted(d.metadata, share)
    requires Valid(Step(d, share).0) && EnabledAll(Step(d, share).0, es)
    requires StaysAbove(Step(d, share).0, es, |d.holders|)
    requires var d' := After(Step(d, share).0, es);
      |d'.holders| == |d.holders| + 1 && take.Take? && take.ok && Enabled(d', take)
    ensures Step(After(Step(d, share).0, es), take).1 ==
      Done(if GivenBack(Step(d, share).0, es, share.objects.data) then 0 else share.address)
  {
    hide Inv, Sound, Enabled, EnabledAll, GivenBack, StaysAbove, Step, EntryOf, Observed;
    StepRefines(d, share);
    var d1 := Step(d, share).0;
    var k := |d.holders|;
    var x := if share.address == 0 then Gone else Entry(share.objects.data, share.objects.buffer, share.address);
    assert Stack(d1) == Stack(d) + [x];
    AboveNow(d1, es, k);
    InvSound(d1.store);
    assert Stack(d1)[|Stack(d)|] == EntryOf(d1.store, d1.holders[k]);
    EntryFate(d1, es, k);
    var d2 := After(d1, es);
    StepRefines(d2, take);
    assert Stack(d2)[|Stack(d2)| - 1] == EntryOf(d2.store, d2.holders[k]);
  }

  lemma AboveNow(d: Desc, es: seq<Event>, k: nat)
    requires Valid(d) && EnabledAll(d, es) && StaysAbove(d, es, k)
    ensures k < |d.holders|
  {
  }

  // ----- runs of descriptors are runs of references -----

  /** A reclaim that leaves only the placeholder, of a value that is there. */
  ghost predicate LeavesPlace(d: Desc, e: Event)
    requires Valid(d) && Sound(d.store)
  {
    e.Take? && e.ok && d.metadata && |d.holders| == 2 && !IsNull(d.store, d.holders[1])
  }

  /** The value has data, was shared readable, and no other reference is writing it. */
  ghost predicate Copies(d: Desc, e: Event)
    requires Valid(d) && Sound(d.store)
  {
    && LeavesPlace(d, e) && e.sized
    && var b := EntryOf(d.store, d.holders[1]).buffer;
    d.store.buffers[b].readable && Writers(d.store, b) <= {d.holders[0], d.holders[1]}
  }

  lemma CopyMadeIff(d: Desc, e: Event, s1: State)
    requires Valid(d) && Sound(d.store) && e.Take? && e.ok && Enabled(d, e) && d.metadata && |d.holders| == 2
    requires s1 == Popped(d, e.names)
    ensures Inv(s1) && Sound(s1) && e.names.oldref in s1.refs && (CopyMade(s1, e.names, e.sized) ==> Copies(d, e))
  {
    hide Inv, Sound, PopTop, Forget, Writers, Obtainable;
    var n, top, bottom := e.names, d.holders[1], d.holders[0];
    PoppedEntry(d.store, top, n.oldref);
    PopKeepsNew(d.store, top, bottom, n);
    ForgetEntry(PopTop(d.store, top, n.oldref), bottom, n.oldref);
    if IsNull(d.store, top) {
      NotObtainable(s1, n.oldref);
    } else {
      ReadableIff(d, n);
    }
  }

  lemma NotObtainable(s: State, r: Id)
    requires Sound(s) && r in s.refs && EntryOf(s, r).Gone?
    ensures !Obtainable(s, true, false, r)
  {
  }

  /** The data, with its address, that the event may make. */
  ghost function MadeBy(d: Desc, e: Event): set<(Id, nat)>
    requires Valid(d)
  {
    InvSound(d.store);
    match e
    case Share(n, address, _, _, _, _) => {(n.data, address)}
    case Take(n, _, _) => if Copies(d, e) then {(n.data, n.address)} else {}
    case Act(op) => Makes(op)
    case _ => {}
  }

  lemma CreateReaches(s: State, n: Fresh, address: nat, read: bool, write: bool)
    requires Inv(s) && Unused(s, n)
    ensures Reaches(s, Create(s, n.r, false, false, n.data, n.buffer, address, read, write), {(n.data, address)})
  {
    hide Inv, Reaches, Create;
    InvSound(s);
    ReachesSelf(s, {(n.data, address)});
    ReachesThen(s, s, {(n.data, address)}, Wrap(n.r, false, false, n.data, n.buffer, address, read, write));
  }

  lemma CopyReaches(s0: State, s: State, made: set<(Id, nat)>, r: Id, read: bool, write: bool, from: Id)
    requires Inv(s0) && Reaches(s0, s, made) && Inv(s) && r !in s.refs && from in s.refs
    ensures Sound(s) && Reaches(s0, Copy(s, r, read, write, from), made) && Inv(Copy(s, r, read, write, from))
    ensures Copy(s, r, read, write, from).refs.Keys == s.refs.Keys + {r}
  {
    hide Inv, Reaches, Copy;
    InvSound(s);
    CopyShape(s, r, read, write, from);
    ReachesThen(s0, s, made, CopyFrom(r, read, write, from));
  }

  lemma ForgetReaches(s0: State, s: State, made: set<(Id, nat)>, r: Id)
    requires Inv(s0) && Reaches(s0, s, made) && Inv(s) && r in s.refs
    ensures Sound(s) && Reaches(s0, Forget(s, r), made) && Inv(Forget(s, r))
    ensures Forget(s, r).refs.Keys == s.refs.Keys - {r}
  {
    hide Inv, Reaches, Reset;
    InvSound(s);
    ForgetInv(s, r);
    ReachesThen(s0, s, made, Op.Drop(r));
  }

  lemma GiveUpReaches(s0: State, s: State, made: set<(Id, nat)>, r: Id)
    requires Inv(s0) && Reaches(s0, s, made) && Inv(s) && r in s.refs
    ensures Reaches(s0, GiveUp(s, r), made) && Inv(GiveUp(s, r))
  {
    hide Inv, Reaches, Release, Forget;
    InvSound(s);
    ReleaseInv(s, r);
    ReleaseRefs(s, r);
    ReachesThen(s0, s, made, GiveBack(r));
    ForgetReaches(s0, Release(s, r), made, r);
  }

  lemma PopReaches(s0: State, s: State, made: set<(Id, nat)>, top: Id, oldref: Id)
    requires Inv(s0) && Reaches(s0, s, made) && Inv(s) && top in s.refs && oldref !in s.refs
    ensures Reaches(s0, PopTop(s, top, oldref), made)
  {
    hide Inv, Reaches, Copy, Forget;
    CopyReaches(s0, s, made, oldref, false, false, top);
    ForgetReaches(s0, Copy(s, oldref, false, false, top), made, top);
  }

  lemma ShareReaches(d: Desc, e: Event)
    requires Valid(d) && e.Share? && Enabled(d, e)
    ensures Reaches(d.store, Step(d, e).0.store, MadeBy(d, e))
  {
    hide Inv, Reaches, Copy, Create, Forget, ShareRef, Release, Sound;
    InvSound(d.store);
    var made := MadeBy(d, e);
    ReachesSelf(d.store, made);
    if !(e.sized && e.address == 0 && (e.read || e.write)) {
      var n := e.objects;
      CreateShape(d.store, n.r, n.data, n.buffer, e.address, e.read, e.write);
      CreateReaches(d.store, n, e.address, e.read, e.write);
      var s := Create(d.store, n.r, false, false, n.data, n.buffer, e.address, e.read, e.write);
      ShareRefIff(d.(store := s), n.h, n.r, false, false, e.ok);
      if ShareRef(d.(store := s), n.h, n.r, false, false, e.ok).1.Failed? {
        GiveUpReaches(d.store, s, made, n.r);
      } else {
        CopyReaches(d.store, s, made, n.h, false, false, n.r);
        ForgetReaches(d.store, Copy(s, n.h, false, false, n.r), made, n.r);
      }
    }
  }

  lemma LendReaches(d: Desc, e: Event)
    requires Valid(d) && e.Lend? && Enabled(d, e)
    ensures Reaches(d.store, Step(d, e).0.store, MadeBy(d, e))
  {
    hide Inv, Reaches, Copy, ShareRef, Sound;
    ReachesSelf(d.store, {});
    CopyReaches(d.store, d.store, {}, e.h, e.read, e.write, e.from);
    ShareRefIff(d, e.h, e.from, e.read, e.write, e.ok);
  }

  lemma PopEventReaches(d: Desc, e: Event)
    requires Valid(d) && e.Pop? && Enabled(d, e)
    ensures Reaches(d.store, Step(d, e).0.store, MadeBy(d, e))
  {
    hide Inv, Reaches, Copy, Forget, Sound, PopTop;
    var made := MadeBy(d, e);
    ReachesSelf(d.store, made);
    if Shared(d) && e.ok {
      var n, rest, top := e.names, d.holders[..|d.holders| - 1], d.holders[|d.holders| - 1];
      PopReaches(d.store, d.store, made, top, n.oldref);
      var s := PopTop(d.store, top, n.oldref);
      if d.metadata && |rest| == 1 {
        ForgetReaches(d.store, s, made, rest[0]);
        var s1 := Forget(s, rest[0]);
        CopyReaches(d.store, s1, made, n.place, true, false, n.oldref);
        ForgetReaches(d.store, Copy(s1, n.place, true, false, n.oldref), made, n.oldref);
      } else {
        ForgetReaches(d.store, s, made, n.oldref);
      }
    }
  }

  lemma ReplaceReaches(s0: State, s: State, made: set<(Id, nat)>, n: Names, sized: bool)
    requires Inv(s0) && Reaches(s0, s, made) && Inv(s) && n.oldref in s.refs && n.copy !in s.refs && n.place !in s.refs
    requires n.copy != n.place && n.data !in s.datas && n.buffer !in s.buffers && n.address != 0
    requires Sound(s) && (CopyMade(s, n, sized) ==> (n.data, n.address) in made)
    ensures Reaches(s0, Replace(s, n, sized), made)
  {
    hide Inv, Reaches, Copy, Create, Forget;
    InvSound(s);
    if CopyMade(s, n, sized) {
      CreateShape(s, n.copy, n.data, n.buffer, n.address, true, true);
      var s1 := Create(s, n.copy, false, false, n.data, n.buffer, n.address, true, true);
      ReachesThen(s0, s, made, Wrap(n.copy, false, false, n.data, n.buffer, n.address, true, true));
      CopyReaches(s0, s1, made, n.place, true, false, n.copy);
      ForgetReaches(s0, Copy(s1, n.place, true, false, n.copy), made, n.copy);
    } else {
      ReachesThen(s0, s, made, Construct(n.place, true, false));
    }
  }

  lemma TakeReaches(d: Desc, e: Event)
    requires Valid(d) && e.Take? && Enabled(d, e)
    ensures Reaches(d.store, Step(d, e).0.store, MadeBy(d, e))
  {
    hide Inv, Reaches, Copy, Forget, Sound, PopTop, GiveUp, Replace;
    InvSound(d.store);
    var made := MadeBy(d, e);
    ReachesSelf(d.store, made);
    if Shared(d) && e.ok {
      var n, rest, top := e.names, d.holders[..|d.holders| - 1], d.holders[|d.holders| - 1];
      PopReaches(d.store, d.store, made, top, n.oldref);
      var s := PopTop(d.store, top, n.oldref);
      if d.metadata && |rest| == 1 {
        ForgetReaches(d.store, s, made, rest[0]);
        PopKeepsNew(d.store, top, rest[0], n);
        var s1 := Forget(s, rest[0]);
        CopyMadeIff(d, e, s1);
        ReplaceReaches(d.store, s1, made, n, e.sized);
        GiveUpReaches(d.store, Replace(s1, n, e.sized), made, n.oldref);
      } else {
        GiveUpReaches(d.store, s, made, n.oldref);
      }
    }
  }

  lemma StepReaches(d: Desc, e: Event)
    requires Valid(d) && Enabled(d, e)
    ensures Reaches(d.store, Step(d, e).0.store, MadeBy(d, e))
  {
    hide Inv, Reaches, Apply, Applies, ShareData, ShareRef, ReleaseTop, Reclaim;
    match e
    case Share(_, _, _, _, _, _) => ShareReaches(d, e);
    case Lend(_, _, _, _, _) => LendReaches(d, e);
    case Pop(_, _) => PopEventReaches(d, e);
    case Take(_, _, _) => TakeReaches(d, e);
    case Act(op) =>
      InvSound(d.store);
      ReachesSelf(d.store, Makes(op));
      ReachesThen(d.store, d.store, Makes(op), op);
  }

  lemma {:induction false} AfterApplies(d: Desc, es: seq<Event>) returns (ops: seq<Op>)
    requires Valid(d) && EnabledAll(d, es)
    ensures AppliesAll(d.store, ops) && ApplyAll(d.store, ops) == After(d, es).store
    decreases |es|
  {
    hide Inv, Step, Enabled, AppliesAll, ApplyAll, MakeOnly;
    if es == [] {
      ops := [];
      NoOps(d.store);
    } else {
      StepValid(d, es[0]);
      StepReaches(d, es[0]);
      var d' := Step(d, es[0]).0;
      var first: seq<Op> :| AppliesAll(d.store, first) && ApplyAll(d.store, first) == d'.store
        && MakeOnly(first, MadeBy(d, es[0]));
      var more := AfterApplies(d', es[1..]);
      ApplyAllAppend(d.store, first, more);
      ops := first + more;
    }
  }

  lemma NoOps(s: State)
    requires Inv(s)
    ensures AppliesAll(s, []) && ApplyAll(s, []) == s
  {
  }

  /** From the start, every run of a descriptor leaves a store that some run of reference operations leaves: all that
      holds over the latter holds over the former. */
  lemma IsReferenceRun(metadata: bool, place: Id, es: seq<Event>) returns (ops: seq<Op>)
    requires Valid(Initial(metadata, place)) && EnabledAll(Initial(metadata, place), es)
    ensures Run(ops) == After(Initial(metadata, place), es).store
  {
    hide Valid, EnabledAll, After, Inv, AppliesAll, ApplyAll, Run;
    var d := Initial(metadata, place);
    var first := if metadata then [Construct(place, true, false)] else [];
    assert Run(first) == d.store by { InitialRun(metadata, place); }
    var more := AfterApplies(d, es);
    ContinuesRun(first, more);
    ops := first + more;
  }

  lemma InitialRun(metadata: bool, place: Id)
    ensures Run(if metadata then [Construct(place, true, false)] else []) == Initial(metadata, place).store
  {
    hide Inv;
    assert Run([]) == EMPTY;
    assert [Construct(place, true, false)][..0] == [];
  }

  // ----- memory that is the user's -----

  lemma DisarmedForEver(d: Desc, es: seq<Event>, b: Id)
    requires Valid(d) && EnabledAll(d, es) && b in d.store.buffers && !d.store.buffers[b].owns
    ensures var s := After(d, es).store;
      b in s.buffers && s.buffers[b].freed == 0
  {
    hide Inv, EnabledAll, After, AppliesAll, ApplyAll;
    var ops := AfterApplies(d, es);
    StaysDisarmed(d.store, ops, b);
  }

  /** Memory whose share failed is never freed, whatever happens later. */
  lemma FailedShareIsNeverFreed(d: Desc, share: Event, es: seq<Event>)
    requires Valid(d) && share.Share? && Enabled(d, share) && Step(d, share).1.Failed?
    requires Valid(Step(d, share).0) && EnabledAll(Step(d, share).0, es)
    ensures var s, b := After(Step(d, share).0, es).store, share.objects.buffer;
      b in Step(d, share).0.store.buffers ==> b in s.buffers && s.buffers[b].freed == 0
  {
    hide Inv, EnabledAll, After, Step;
    FailureIsUndone(d, share);
    var d', b := Step(d, share).0, share.objects.buffer;
    if b in d'.store.buffers {
      MemoryOf(d'.store, b);
      DisarmedForEver(d', es, b);
    }
  }

  lemma GiveUpDisarms(s: State, r: Id)
    requires Inv(s) && Sound(s) && r in s.refs && EntryOf(s, r).Entry?
    ensures var s', b := GiveUp(s, r), EntryOf(s, r).buffer;
      b in s'.buffers && !s'.buffers[b].owns
  {
    hide Inv, GiveUp;
    GiveUpShape(s, r, s.refs[r].content.value);
  }

  lemma TakeDisarms(d: Desc, take: Event)
    requires Valid(d) && take.Take? && Enabled(d, take) && Shared(d) && take.ok && Sound(d.store)
    requires EntryOf(d.store, d.holders[|d.holders| - 1]).Entry?
    ensures var s, b := Step(d, take).0.store, EntryOf(d.store, d.holders[|d.holders| - 1]).buffer;
      b in s.buffers && !s.buffers[b].owns
  {
    hide Inv, Copy, Forget, Sound, PopTop, GiveUp, Replace, EntryOf;
    var n, rest, top := take.names, d.holders[..|d.holders| - 1], d.holders[|d.holders| - 1];
    PoppedEntry(d.store, top, n.oldref);
    var s := PopTop(d.store, top, n.oldref);
    if d.metadata && |rest| == 1 {
      PopKeepsNew(d.store, top, rest[0], n);
      ForgetEntry(s, rest[0], n.oldref);
      var s1 := Forget(s, rest[0]);
      ReplaceEntry(s1, n, take.sized, n.oldref);
      GiveUpDisarms(Replace(s1, n, take.sized), n.oldref);
    } else {
      GiveUpDisarms(s, n.oldref);
    }
  }

  /** Making the placeholder does not touch other references. */
  lemma ReplaceEntry(s: State, n: Names, sized: bool, q: Id)
    requires Inv(s) && Sound(s) && n.oldref in s.refs && n.copy !in s.refs && n.place !in s.refs && q in s.refs
    requires n.copy != n.place && n.data !in s.datas && n.buffer !in s.buffers && n.address != 0
    ensures var s' := Replace(s, n, sized);
      Inv(s') && Sound(s') && q in s'.refs && EntryOf(s', q) == EntryOf(s, q)
  {
    hide Inv, Copy, Create, Forget;
    if CopyMade(s, n, sized) {
      CreateShape(s, n.copy, n.data, n.buffer, n.address, true, true);
      var s1 := Create(s, n.copy, false, false, n.data, n.buffer, n.address, true, true);
      OpEntry(s, Wrap(n.copy, false, false, n.data, n.buffer, n.address, true, true), q);
      CopyShape(s1, n.place, true, false, n.copy);
      OpEntry(s1, CopyFrom(n.place, true, false, n.copy), q);
      ForgetEntry(Copy(s1, n.place, true, false, n.copy), n.copy, q);
    } else {
      OpEntry(s, Construct(n.place, true, false), q);
    }
  }

  /** Memory that was reclaimed is never freed, whatever happens later. */
  lemma ReclaimedIsNeverFreed(d: Desc, take: Event, es: seq<Event>)
    requires Valid(d) && take.Take? && Enabled(d, take) && Shared(d) && take.ok && Sound(d.store)
    requires EntryOf(d.store, d.holders[|d.holders| - 1]).Entry?
    requires Valid(Step(d, take).0) && EnabledAll(Step(d, take).0, es)
    ensures var s := After(Step(d, take).0, es).store;
      var b := EntryOf(d.store, d.holders[|d.holders| - 1]).buffer;
      b in s.buffers && s.buffers[b].freed == 0
  {
    hide Inv, EnabledAll, After, Step, Sound;
    TakeDisarms(d, take);
    DisarmedForEver(Step(d, take).0, es, EntryOf(d.store, d.holders[|d.holders| - 1]).buffer);
  }
}
