/** What every operation on references keeps: locks are exactly the live references that hold them,
    a writer is alone, and memory is freed at most once and never after a release. */
module ReferenceInvariant {
  import opened Options
  import opened References

  /** The references that may write to buffer `b`. */
  function Writers(s: State, b: Id): set<Id> {
    set r | r in s.refs && Linked(s, r, b) && s.refs[r].write
  }

  /** The references that may read from or write to buffer `b`. */
  function Holders(s: State, b: Id): set<Id> {
    set r | r in s.refs && Linked(s, r, b) && (s.refs[r].read || s.refs[r].write)
  }

  ghost predicate LocksOk(s: State, b: Id)
    requires b in s.buffers
  {
    var buffer := s.buffers[b];
    && buffer.readLocks == (if buffer.readable then 0 else 1) + |Writers(s, b)|
    && buffer.writeLocks == (if buffer.writable then 0 else 1) + |Holders(s, b)|
  }

  ghost predicate Exclusive(s: State, b: Id)
    requires b in s.buffers
  {
    && (forall w | w in Writers(s, b) :: Holders(s, b) == {w} && s.buffers[b].writable)
    && (forall r | r in Holders(s, b) && s.refs[r].read :: s.buffers[b].readable)
  }

  ghost predicate MemoryOk(s: State, b: Id)
    requires b in s.buffers
  {
    var buffer := s.buffers[b];
    && (forall r | r in buffer.notifications :: Linked(s, r, b))
    && buffer.freed == (if buffer.destroyed && buffer.owns then 1 else 0)
    && (buffer.destroyed ==> forall d | d in s.datas :: s.datas[d].buffer != b)
  }

  ghost predicate Core(s: State) {
    && Sound(s)
    && (forall b | b in s.buffers :: LocksOk(s, b) && Exclusive(s, b) && MemoryOk(s, b))
    && (forall d | d in s.datas && s.datas[d].address == 0 :: !s.buffers[s.datas[d].buffer].owns)
  }

  /** Data descriptors and buffers live exactly as long as something points to them. */
  ghost predicate Alive(s: State) {
    && (forall d | d in s.datas :: HasRef(s, d))
    && (forall b | b in s.buffers && !s.buffers[b].destroyed :: HasData(s.datas, b))
  }

  ghost predicate Inv(s: State) {
    Core(s) && Alive(s)
  }

  // ----- primitives -----

  ghost predicate BufferOk(s: State, b: Id)
    requires b in s.buffers
  {
    LocksOk(s, b) && Exclusive(s, b) && MemoryOk(s, b)
  }

  lemma CoreAt(s: State, b: Id)
    requires Core(s) && b in s.buffers
    ensures BufferOk(s, b)
  {
  }

  lemma CoreIntro(s: State)
    requires Sound(s) && forall b | b in s.buffers :: BufferOk(s, b)
    requires forall d | d in s.datas && s.datas[d].address == 0 :: !s.buffers[s.datas[d].buffer].owns
    ensures Core(s)
  {
  }

  /** The sets of a buffer depend on the references linked to it. */
  lemma SameSets(s: State, s': State, b: Id)
    requires forall r :: Linked(s, r, b) <==> Linked(s', r, b)
    requires forall r | Linked(s, r, b) && Linked(s', r, b) ::
      s'.refs[r].read == s.refs[r].read && s'.refs[r].write == s.refs[r].write
    ensures Writers(s', b) == Writers(s, b) && Holders(s', b) == Holders(s, b)
  {
  }

  /** A buffer whose links and counts did not change is as right as before. */
  lemma Untouched(s: State, s': State, b: Id)
    requires b in s.buffers && b in s'.buffers && BufferOk(s, b)
    requires forall r :: Linked(s, r, b) <==> Linked(s', r, b)
    requires forall r | Linked(s, r, b) && Linked(s', r, b) ::
      s'.refs[r].read == s.refs[r].read && s'.refs[r].write == s.refs[r].write
    requires s'.buffers[b] == s.buffers[b]
    requires s.buffers[b].destroyed ==> forall d | d in s'.datas :: s'.datas[d].buffer != b
    ensures BufferOk(s', b)
  {
    SameSets(s, s', b);
    assert forall r | r in Holders(s, b) :: Linked(s, r, b);
    hide Writers, Holders;
  }

  lemma NewCore(s: State, r: Id, read: bool, write: bool)
    requires r !in s.refs && Core(s)
    ensures Core(New(s, r, read, write))
  {
    hide Core, BufferOk;
    var s' := New(s, r, read, write);
    CoreSound(s);
    forall b | b in s'.buffers
      ensures BufferOk(s', b)
    {
      CoreAt(s, b);
      assert s.buffers[b].destroyed ==> forall d | d in s.datas :: s.datas[d].buffer != b by { CoreDestroyed(s, b); }
      Untouched(s, s', b);
    }
    CoreIntro(s');
  }

  lemma CoreSound(s: State)
    requires Core(s)
    ensures Sound(s)
    ensures forall d | d in s.datas && s.datas[d].address == 0 :: !s.buffers[s.datas[d].buffer].owns
  {
  }

  lemma CoreDestroyed(s: State, b: Id)
    requires Core(s) && b in s.buffers
    ensures s.buffers[b].destroyed ==> forall d | d in s.datas :: s.datas[d].buffer != b
  {
    assert MemoryOk(s, b);
  }

  /** Linking adds the reference to the sets its rights put it in. */
  lemma LinkSets(s: State, r: Id, d: Id)
    requires Sound(s) && r in s.refs && s.refs[r].content.None? && d in s.datas && Link(s, r, d) != s
    ensures var s', b := Link(s, r, d), s.datas[d].buffer;
      && Writers(s', b) == Writers(s, b) + (if s.refs[r].write then {r} else {})
      && Holders(s', b) == Holders(s, b) + (if s.refs[r].read || s.refs[r].write then {r} else {})
      && r !in Writers(s, b) && r !in Holders(s, b)
      && (forall q | Linked(s, q, b) :: q != r && Linked(s', q, b))
      && (forall q | q in Holders(s, b) :: q in s.refs && q != r && s'.refs[q] == s.refs[q])
  {
  }

  lemma LinkLocks(s: State, r: Id, d: Id)
    requires Core(s) && r in s.refs && s.refs[r].content.None? && d in s.datas && Link(s, r, d) != s
    ensures LocksOk(Link(s, r, d), s.datas[d].buffer)
  {
    hide Writers, Holders, Core, Linked, Exclusive, MemoryOk;
    CoreSound(s);
    LinkSets(s, r, d);
    CoreAt(s, s.datas[d].buffer);
  }

  lemma LinkExclusive(s: State, r: Id, d: Id)
    requires Core(s) && r in s.refs && s.refs[r].content.None? && d in s.datas && Link(s, r, d) != s
    ensures Exclusive(Link(s, r, d), s.datas[d].buffer)
  {
    hide Writers, Holders, Core, Linked, MemoryOk;
    CoreSound(s);
    LinkSets(s, r, d);
    CoreAt(s, s.datas[d].buffer);
  }

  lemma LinkMemory(s: State, r: Id, d: Id)
    requires Core(s) && r in s.refs && s.refs[r].content.None? && d in s.datas && Link(s, r, d) != s
    ensures MemoryOk(Link(s, r, d), s.datas[d].buffer)
  {
    hide Writers, Holders, Core, Linked, Exclusive, LocksOk;
    CoreSound(s);
    LinkSets(s, r, d);
    CoreAt(s, s.datas[d].buffer);
  }

  lemma LinkBuffer(s: State, r: Id, d: Id)
    requires Core(s) && r in s.refs && s.refs[r].content.None? && d in s.datas && Link(s, r, d) != s
    ensures BufferOk(Link(s, r, d), s.datas[d].buffer)
  {
    hide LocksOk, Exclusive, MemoryOk, Core;
    CoreSound(s);
    LinkLocks(s, r, d);
    LinkExclusive(s, r, d);
    LinkMemory(s, r, d);
  }

  lemma LinkCore(s: State, r: Id, d: Id)
    requires Core(s) && r in s.refs && s.refs[r].content.None? && d in s.datas
    ensures Core(Link(s, r, d))
  {
    hide Core, BufferOk;
    CoreSound(s);
    var s', b := Link(s, r, d), s.datas[d].buffer;
    if s' != s {
      forall c | c in s'.buffers
        ensures BufferOk(s', c)
      {
        if c == b {
          LinkBuffer(s, r, d);
        } else {
          CoreAt(s, c);
          CoreDestroyed(s, c);
          Untouched(s, s', c);
        }
      }
      CoreIntro(s');
    }
  }

  lemma DetachSets(s: State, r: Id)
    requires Sound(s) && r in s.refs && s.refs[r].content.Some?
    ensures var s', b := Detach(s, r), s.datas[s.refs[r].content.value].buffer;
      && Writers(s', b) == Writers(s, b) - {r} && Holders(s', b) == Holders(s, b) - {r}
      && (r in Writers(s, b) <==> s.refs[r].write)
      && (r in Holders(s, b) <==> s.refs[r].read || s.refs[r].write)
      && (forall q | Linked(s, q, b) && q != r :: Linked(s', q, b))
      && (forall q | q in Holders(s, b) && q != r :: q in s'.refs && s'.refs[q] == s.refs[q])
  {
  }

  lemma DetachLocks(s: State, r: Id)
    requires Core(s) && r in s.refs && s.refs[r].content.Some?
    ensures LocksOk(Detach(s, r), s.datas[s.refs[r].content.value].buffer)
  {
    hide Writers, Holders, Core, Linked, Exclusive, MemoryOk;
    CoreSound(s);
    DetachSets(s, r);
    CoreAt(s, s.datas[s.refs[r].content.value].buffer);
  }

  lemma DetachExclusive(s: State, r: Id)
    requires Core(s) && r in s.refs && s.refs[r].content.Some?
    ensures Exclusive(Detach(s, r), s.datas[s.refs[r].content.value].buffer)
  {
    hide Writers, Holders, Core, Linked, MemoryOk;
    CoreSound(s);
    DetachSets(s, r);
    CoreAt(s, s.datas[s.refs[r].content.value].buffer);
  }

  lemma DetachMemory(s: State, r: Id)
    requires Core(s) && r in s.refs && s.refs[r].content.Some?
    ensures MemoryOk(Detach(s, r), s.datas[s.refs[r].content.value].buffer)
  {
    hide Writers, Holders, Core, Linked, Exclusive, LocksOk;
    CoreSound(s);
    DetachSets(s, r);
    CoreAt(s, s.datas[s.refs[r].content.value].buffer);
  }

  lemma DetachBuffer(s: State, r: Id)
    requires Core(s) && r in s.refs && s.refs[r].content.Some?
    ensures BufferOk(Detach(s, r), s.datas[s.refs[r].content.value].buffer)
  {
    hide LocksOk, Exclusive, MemoryOk, Core;
    CoreSound(s);
    DetachLocks(s, r);
    DetachExclusive(s, r);
    DetachMemory(s, r);
  }

  lemma DetachCore(s: State, r: Id)
    requires Core(s) && r in s.refs && s.refs[r].content.Some?
    ensures Core(Detach(s, r))
  {
    hide Core, BufferOk;
    CoreSound(s);
    var s', b := Detach(s, r), s.datas[s.refs[r].content.value].buffer;
    forall c | c in s'.buffers
      ensures BufferOk(s', c)
    {
      if c == b {
        DetachBuffer(s, r);
      } else {
        CoreAt(s, c);
        CoreDestroyed(s, c);
        Untouched(s, s', c);
      }
    }
    CoreIntro(s');
  }

  lemma StealSets(s: State, r: Id, from: Id)
    requires Sound(s) && r in s.refs && from in s.refs && r != from && s.refs[r].content.None?
    requires s.refs[from].content.Some?
    requires s.refs[r].read == s.refs[from].read && s.refs[r].write == s.refs[from].write
    ensures var s', b := Steal(s, r, from), s.datas[s.refs[from].content.value].buffer;
      && Writers(s', b) == Writers(s, b) - {from} + (if s.refs[r].write then {r} else {})
      && Holders(s', b) == Holders(s, b) - {from} + (if s.refs[r].read || s.refs[r].write then {r} else {})
      && r !in Writers(s, b) && r !in Holders(s, b)
      && (from in Writers(s, b) <==> s.refs[r].write)
      && (from in Holders(s, b) <==> s.refs[r].read || s.refs[r].write)
      && (forall q | Linked(s, q, b) && q != from :: Linked(s', q, b))
      && (forall q | q in Holders(s, b) && q != from :: q != r && q in s'.refs && s'.refs[q] == s.refs[q])
  {
  }

  lemma StealLocks(s: State, r: Id, from: Id)
    requires Core(s) && r in s.refs && from in s.refs && r != from && s.refs[r].content.None?
    requires s.refs[from].content.Some?
    requires s.refs[r].read == s.refs[from].read && s.refs[r].write == s.refs[from].write
    ensures LocksOk(Steal(s, r, from), s.datas[s.refs[from].content.value].buffer)
  {
    hide Writers, Holders, Core, Linked, Exclusive, MemoryOk;
    CoreSound(s);
    StealSets(s, r, from);
    CoreAt(s, s.datas[s.refs[from].content.value].buffer);
  }

  lemma StealExclusive(s: State, r: Id, from: Id)
    requires Core(s) && r in s.refs && from in s.refs && r != from && s.refs[r].content.None?
    requires s.refs[from].content.Some?
    requires s.refs[r].read == s.refs[from].read && s.refs[r].write == s.refs[from].write
    ensures Exclusive(Steal(s, r, from), s.datas[s.refs[from].content.value].buffer)
  {
    hide Writers, Holders, Core, Linked, MemoryOk, LocksOk;
    CoreSound(s);
    StealSets(s, r, from);
    var b, s' := s.datas[s.refs[from].content.value].buffer, Steal(s, r, from);
    CoreAt(s, b);
    if s.refs[r].write {
      assert Holders(s', b) == {r} && Writers(s', b) <= Holders(s, b) - {from} + {r};
    } else if s.refs[r].read {
      assert Writers(s', b) == {};
    } else {
      assert Holders(s', b) == Holders(s, b) && Writers(s', b) == Writers(s, b);
    }
  }

  lemma StealMemory(s: State, r: Id, from: Id)
    requires Core(s) && r in s.refs && from in s.refs && r != from && s.refs[r].content.None?
    requires s.refs[from].content.Some?
    requires s.refs[r].read == s.refs[from].read && s.refs[r].write == s.refs[from].write
    ensures MemoryOk(Steal(s, r, from), s.datas[s.refs[from].content.value].buffer)
  {
    hide Writers, Holders, Core, Linked, Exclusive, LocksOk;
    CoreSound(s);
    StealSets(s, r, from);
    CoreAt(s, s.datas[s.refs[from].content.value].buffer);
  }

  lemma StealBuffer(s: State, r: Id, from: Id)
    requires Core(s) && r in s.refs && from in s.refs && r != from && s.refs[r].content.None?
    requires s.refs[from].content.Some?
    requires s.refs[r].read == s.refs[from].read && s.refs[r].write == s.refs[from].write
    ensures BufferOk(Steal(s, r, from), s.datas[s.refs[from].content.value].buffer)
  {
    hide LocksOk, Exclusive, MemoryOk, Core;
    CoreSound(s);
    StealLocks(s, r, from);
    StealExclusive(s, r, from);
    StealMemory(s, r, from);
  }

  lemma StealCore(s: State, r: Id, from: Id)
    requires Core(s) && r in s.refs && from in s.refs && r != from && s.refs[r].content.None?
    requires s.refs[from].content.Some?
    requires s.refs[r].read == s.refs[from].read && s.refs[r].write == s.refs[from].write
    ensures Core(Steal(s, r, from))
  {
    hide Core, BufferOk;
    CoreSound(s);
    var s', b := Steal(s, r, from), s.datas[s.refs[from].content.value].buffer;
    forall c | c in s'.buffers
      ensures BufferOk(s', c)
    {
      if c == b {
        StealBuffer(s, r, from);
      } else {
        CoreAt(s, c);
        CoreDestroyed(s, c);
        Untouched(s, s', c);
      }
    }
    CoreIntro(s');
  }

  /** Changes that leave all links alone: the locks and their holders stay right. */
  lemma RelabelCore(s: State, s': State, b: Id)
    requires Core(s) && Sound(s') && b in s.buffers && s'.refs == s.refs && s'.buffers.Keys == s.buffers.Keys
    requires s'.datas.Keys == s.datas.Keys && forall d | d in s.datas :: s'.datas[d].buffer == s.datas[d].buffer
    requires forall c | c in s.buffers && c != b :: s'.buffers[c] == s.buffers[c]
    requires forall d | d in s'.datas && s'.datas[d].address == 0 :: !s'.buffers[s'.datas[d].buffer].owns
    requires var n, o := s'.buffers[b], s.buffers[b];
      && n.readable == o.readable && n.writable == o.writable && n.readLocks == o.readLocks
      && n.writeLocks == o.writeLocks
      && n.destroyed == o.destroyed && n.freed == (if n.destroyed && n.owns then 1 else 0)
      && forall r | r in n.notifications :: Linked(s, r, b)
    ensures Core(s')
  {
    hide Core, BufferOk;
    forall c | c in s'.buffers
      ensures BufferOk(s', c)
    {
      CoreAt(s, c);
      CoreDestroyed(s, c);
      if c == b { Relabelled(s, s', c); } else { Untouched(s, s', c); }
    }
    CoreIntro(s');
  }

  lemma Relabelled(s: State, s': State, b: Id)
    requires b in s.buffers && b in s'.buffers && BufferOk(s, b) && s'.refs == s.refs
    requires forall r :: Linked(s, r, b) <==> Linked(s', r, b)
    requires var n, o := s'.buffers[b], s.buffers[b];
      && n.readable == o.readable && n.writable == o.writable && n.readLocks == o.readLocks
      && n.writeLocks == o.writeLocks
      && n.freed == (if n.destroyed && n.owns then 1 else 0)
      && (n.destroyed ==> forall d | d in s'.datas :: s'.datas[d].buffer != b)
      && forall r | r in n.notifications :: Linked(s, r, b)
    ensures BufferOk(s', b)
  {
    SameSets(s, s', b);
    hide Writers, Holders;
  }

  /** A new buffer with one data descriptor that nothing references yet. */
  lemma AllocateCore(s: State, d: Id, b: Id, address: nat, buffer: Buffer)
    requires Core(s) && d !in s.datas && b !in s.buffers && address != 0
    requires buffer == NewBuffer(buffer.readable, buffer.writable)
    ensures Core(s.(buffers := s.buffers[b := buffer], datas := s.datas[d := Data(b, address)]))
  {
    hide Core, BufferOk;
    CoreSound(s);
    var s' := s.(buffers := s.buffers[b := buffer], datas := s.datas[d := Data(b, address)]);
    forall c | c in s'.buffers
      ensures BufferOk(s', c)
    {
      if c == b {
        NobodyLinked(s', b);
      } else {
        CoreAt(s, c);
        CoreDestroyed(s, c);
        Untouched(s, s', c);
      }
    }
    CoreIntro(s');
  }

  lemma NobodyLinked(s: State, b: Id)
    requires b in s.buffers && forall r :: !Linked(s, r, b)
    requires var o := s.buffers[b];
      && o.readLocks == (if o.readable then 0 else 1) && o.writeLocks == (if o.writable then 0 else 1)
      && o.notifications == {} && o.freed == (if o.destroyed && o.owns then 1 else 0)
      && (o.destroyed ==> forall d | d in s.datas :: s.datas[d].buffer != b)
    ensures BufferOk(s, b)
  {
    assert Writers(s, b) == {} && Holders(s, b) == {};
  }

  lemma SubDataCore(s: State, d: Id, b: Id, address: nat)
    requires Core(s) && d !in s.datas && b in s.buffers && !s.buffers[b].destroyed && address != 0
    ensures Core(s.(datas := s.datas[d := Data(b, address)]))
  {
    hide Core, BufferOk;
    CoreSound(s);
    var s' := s.(datas := s.datas[d := Data(b, address)]);
    forall c | c in s'.buffers
      ensures BufferOk(s', c)
    {
      CoreAt(s, c);
      CoreDestroyed(s, c);
      Untouched(s, s', c);
    }
    CoreIntro(s');
  }

  // ----- collection -----

  /** All is referenced, except perhaps the data descriptor `d`. */
  ghost predicate AliveBut(s: State, d: Id) {
    && (forall e | e in s.datas && e != d :: HasRef(s, e))
    && (forall b | b in s.buffers && !s.buffers[b].destroyed :: HasData(s.datas, b))
  }

  lemma CollectCore(s: State, d: Id)
    requires Core(s) && d in s.datas
    ensures Core(Collect(s, d))
  {
    hide Core, BufferOk;
    CoreSound(s);
    var s', b := Collect(s, d), s.datas[d].buffer;
    if s' != s {
      forall c | c in s'.buffers
        ensures BufferOk(s', c)
      {
        CoreAt(s, c);
        CoreDestroyed(s, c);
        if c == b && s'.buffers[b] != s.buffers[b] {
          LastGone(s, d);
        } else {
          Untouched(s, s', c);
        }
      }
      CoreIntro(s');
    }
  }

  lemma NoOtherData(datas: map<Id, Data>, d: Id, b: Id)
    requires !HasData(datas - {d}, b)
    ensures forall e | e in datas && e != d :: datas[e].buffer != b
  {
    var rest := datas - {d};
    assert forall e | e in datas && e != d :: e in rest && rest[e] == datas[e];
  }

  /** When the last data descriptor of a buffer goes, its locks are back to what it was created with and no
      notification is left: the assertions of the destructor hold. */
  lemma LastGone(s: State, d: Id)
    requires Core(s) && d in s.datas && !HasRef(s, d) && !HasData(s.datas - {d}, s.datas[d].buffer)
    ensures var b := s.datas[d].buffer;
      && Collect(s, d).buffers[b].destroyed && BufferOk(Collect(s, d), b)
      && s.buffers[b].readLocks == (if s.buffers[b].readable then 0 else 1)
      && s.buffers[b].writeLocks == (if s.buffers[b].writable then 0 else 1)
      && s.buffers[b].notifications == {}
  {
    var b := s.datas[d].buffer;
    NoOtherData(s.datas, d, b);
    assert forall r :: !LinkedTo(s, r, d);
    assert forall r :: !Linked(s, r, b);
    CoreAt(s, b);
    hide Core;
    assert Writers(s, b) == {} && Holders(s, b) == {};
    assert forall r :: r !in s.buffers[b].notifications;
    NobodyLinked(Collect(s, d), b);
  }

  lemma CollectInv(s: State, d: Id)
    requires Core(s) && d in s.datas && AliveBut(s, d)
    ensures Inv(Collect(s, d))
  {
    hide Core;
    CoreSound(s);
    CollectCore(s, d);
    var s', b := Collect(s, d), s.datas[d].buffer;
    if s' != s {
      forall e | e in s'.datas
        ensures HasRef(s', e)
      {
        var r :| r in s.refs && LinkedTo(s, r, e);
        assert r in s'.refs && LinkedTo(s', r, e);
      }
      forall c | c in s'.buffers && !s'.buffers[c].destroyed
        ensures HasData(s'.datas, c)
      {
        if c != b {
          var e :| e in s.datas && s.datas[e].buffer == c;
          assert e in s'.datas && s'.datas[e].buffer == c;
        }
      }
    }
  }

  // ----- the operations keep the invariant -----

  /** References keep what they were linked to, and so do buffers their data. */
  lemma StillAlive(s: State, s': State, d: Id)
    requires Alive(s) && s'.datas.Keys == s.datas.Keys && s'.buffers.Keys == s.buffers.Keys
    requires forall e | e in s.datas :: s'.datas[e].buffer == s.datas[e].buffer
    requires forall b | b in s.buffers :: s'.buffers[b].destroyed == s.buffers[b].destroyed
    requires forall r, e | r in s.refs && LinkedTo(s, r, e) && e != d :: exists q :: q in s'.refs && LinkedTo(s', q, e)
    ensures AliveBut(s', d)
  {
    forall e | e in s'.datas && e != d
      ensures HasRef(s', e)
    {
      assert HasRef(s, e);
      var r :| r in s.refs && LinkedTo(s, r, e);
    }
    forall b | b in s'.buffers && !s'.buffers[b].destroyed
      ensures HasData(s'.datas, b)
    {
      assert HasData(s.datas, b);
      var e :| e in s.datas && s.datas[e].buffer == b;
      assert e in s'.datas && s'.datas[e].buffer == b;
    }
  }

  lemma UnlinkInv(s: State, r: Id)
    requires Inv(s) && r in s.refs && s.refs[r].content.Some?
    ensures Inv(Unlink(s, r))
  {
    hide Core, Alive, Collect, AliveBut;
    CoreSound(s);
    DetachCore(s, r);
    var s', d := Detach(s, r), s.refs[r].content.value;
    CoreSound(s');
    forall q, e | q in s.refs && LinkedTo(s, q, e) && e != d
      ensures exists p :: p in s'.refs && LinkedTo(s', p, e)
    {
      assert q in s'.refs && LinkedTo(s', q, e);
    }
    StillAlive(s, s', d);
    CollectInv(s', d);
  }

  lemma ResetInv(s: State, r: Id)
    requires Inv(s) && r in s.refs
    ensures Inv(Reset(s, r))
  {
    hide Core, Alive, Unlink;
    CoreSound(s);
    if s.refs[r].content.Some? { UnlinkInv(s, r); }
  }

  lemma NewAlive(s: State, r: Id, read: bool, write: bool)
    requires Alive(s) && r !in s.refs
    ensures Alive(New(s, r, read, write))
  {
    var s' := New(s, r, read, write);
    forall d | d in s.datas
      ensures HasRef(s', d)
    {
      assert HasRef(s, d);
      var q :| q in s.refs && LinkedTo(s, q, d);
      assert q in s'.refs && LinkedTo(s', q, d);
    }
  }

  lemma NewInv(s: State, r: Id, read: bool, write: bool)
    requires Inv(s) && r !in s.refs
    ensures Inv(New(s, r, read, write))
  {
    hide Core, Alive;
    NewCore(s, r, read, write);
    NewAlive(s, r, read, write);
  }

  /** Everything stays alive after a link, and `d` is if it was linked. */
  lemma LinkAlive(s: State, r: Id, d: Id)
    requires Sound(s) && AliveBut(s, d) && r in s.refs && s.refs[r].content.None? && d in s.datas
    ensures AliveBut(Link(s, r, d), d)
    ensures Link(s, r, d) != s || HasRef(s, d) ==> Alive(Link(s, r, d))
  {
    var s' := Link(s, r, d);
    forall e | e in s.datas && HasRef(s, e)
      ensures HasRef(s', e)
    {
      var q :| q in s.refs && LinkedTo(s, q, e);
      assert q in s'.refs && LinkedTo(s', q, e);
    }
    assert s' != s ==> r in s'.refs && LinkedTo(s', r, d);
  }

  lemma CopyInv(s: State, r: Id, read: bool, write: bool, from: Id)
    requires Inv(s) && r !in s.refs && from in s.refs
    ensures Inv(Copy(s, r, read, write, from))
  {
    hide Core, Alive, AliveBut;
    CoreSound(s);
    NewInv(s, r, read, write);
    if !IsNull(s, from) {
      var s', d := New(s, r, read, write), s.refs[from].content.value;
      assert from in s'.refs && LinkedTo(s', from, d);
      AliveWeaken(s', d);
      LinkCore(s', r, d);
      LinkAlive(s', r, d);
    }
  }

  lemma AliveWeaken(s: State, d: Id)
    requires Alive(s)
    ensures AliveBut(s, d)
  {
  }

  lemma CreateInv(s: State, r: Id, read: bool, write: bool, d: Id, b: Id, address: nat, readable: bool, writable: bool)
    requires Inv(s) && r !in s.refs && d !in s.datas && b !in s.buffers
    ensures Inv(Create(s, r, read, write, d, b, address, readable, writable))
  {
    hide Core, AliveBut, Alive, Link, Collect;
    CoreSound(s);
    NewInv(s, r, read, write);
    if address != 0 {
      var s1 := New(s, r, read, write);
      var buffer := NewBuffer(readable, writable);
      var s2 := s1.(buffers := s.buffers[b := buffer], datas := s.datas[d := Data(b, address)]);
      AllocateCore(s1, d, b, address, buffer);
      CoreSound(s2);
      AllocateAlive(s1, d, b, address, buffer);
      LinkCore(s2, r, d);
      LinkAlive(s2, r, d);
      CoreSound(Link(s2, r, d));
      LinkKeepsData(s2, r, d);
      CollectInv(Link(s2, r, d), d);
    }
  }

  lemma LinkKeepsData(s: State, r: Id, d: Id)
    requires Sound(s) && r in s.refs && s.refs[r].content.None? && d in s.datas
    ensures Link(s, r, d).datas == s.datas
  {
  }

  lemma AllocateAlive(s: State, d: Id, b: Id, address: nat, buffer: Buffer)
    requires Alive(s) && d !in s.datas && b !in s.buffers
    ensures AliveBut(s.(buffers := s.buffers[b := buffer], datas := s.datas[d := Data(b, address)]), d)
  {
    var s' := s.(buffers := s.buffers[b := buffer], datas := s.datas[d := Data(b, address)]);
    forall e | e in s'.datas && e != d
      ensures HasRef(s', e)
    {
      assert HasRef(s, e);
      var q :| q in s.refs && LinkedTo(s, q, e);
      assert q in s'.refs && LinkedTo(s', q, e);
    }
    forall c | c in s'.buffers && !s'.buffers[c].destroyed
      ensures HasData(s'.datas, c)
    {
      if c == b {
        assert d in s'.datas && s'.datas[d].buffer == b;
      } else {
        assert HasData(s.datas, c);
        var e :| e in s.datas && s.datas[e].buffer == c;
        assert e in s'.datas && s'.datas[e].buffer == c;
      }
    }
  }

  lemma StealAlive(s: State, r: Id, from: Id)
    requires Sound(s) && Alive(s)
    requires r in s.refs && from in s.refs && r != from && s.refs[r].content.None? && s.refs[from].content.Some?
    ensures Alive(Steal(s, r, from))
  {
    var s' := Steal(s, r, from);
    forall d | d in s.datas
      ensures HasRef(s', d)
    {
      assert HasRef(s, d);
      var q :| q in s.refs && LinkedTo(s, q, d);
      var p := if q == from then r else q;
      assert p in s'.refs && LinkedTo(s', p, d);
    }
  }

  lemma StealInv(s: State, r: Id, from: Id)
    requires Inv(s) && r in s.refs && from in s.refs && r != from && s.refs[r].content.None?
    requires s.refs[from].content.Some?
    requires s.refs[r].read == s.refs[from].read && s.refs[r].write == s.refs[from].write
    ensures Inv(Steal(s, r, from))
  {
    hide Core, Alive;
    CoreSound(s);
    StealCore(s, r, from);
    StealAlive(s, r, from);
  }

  lemma MoveNewInv(s: State, r: Id, from: Id)
    requires Inv(s) && r !in s.refs && from in s.refs
    ensures Inv(MoveNew(s, r, from))
  {
    hide Core, Alive;
    CoreSound(s);
    NewInv(s, r, s.refs[from].read, s.refs[from].write);
    if s.refs[from].content.Some? {
      StealInv(New(s, r, s.refs[from].read, s.refs[from].write), r, from);
    }
  }

  lemma SubRefInv(s: State, r: Id, from: Id, d: Id, address: nat)
    requires Inv(s) && r !in s.refs && from in s.refs && !IsNull(s, from) && d !in s.datas && address != 0
    ensures Inv(SubRef(s, r, from, d, address)) && LinkedTo(SubRef(s, r, from, d, address), r, d)
  {
    hide Core, AliveBut, Alive;
    CoreSound(s);
    var b := s.datas[s.refs[from].content.value].buffer;
    NewInv(s, r, false, false);
    var s1 := New(s, r, false, false);
    CoreDestroyed(s, b);
    SubDataCore(s1, d, b, address);
    var s2 := s1.(datas := s.datas[d := Data(b, address)]);
    SubDataAlive(s1, d, b, address);
    CoreSound(s2);
    LinkCore(s2, r, d);
    LinkAlive(s2, r, d);
  }

  lemma SubDataAlive(s: State, d: Id, b: Id, address: nat)
    requires Alive(s) && d !in s.datas
    ensures AliveBut(s.(datas := s.datas[d := Data(b, address)]), d)
  {
    var s' := s.(datas := s.datas[d := Data(b, address)]);
    forall e | e in s'.datas && e != d
      ensures HasRef(s', e)
    {
      assert HasRef(s, e);
      var q :| q in s.refs && LinkedTo(s, q, e);
      assert q in s'.refs && LinkedTo(s', q, e);
    }
    forall c | c in s'.buffers && !s'.buffers[c].destroyed
      ensures HasData(s'.datas, c)
    {
      assert HasData(s.datas, c);
      var e :| e in s.datas && s.datas[e].buffer == c;
      assert e in s'.datas && s'.datas[e].buffer == c;
    }
  }

  /** Disarming keeps the invariant, provided the buffer is not destroyed, as it is not while it has data. */
  lemma DisarmInv(s: State, r: Id)
    requires Inv(s) && r in s.refs && s.refs[r].content.Some?
    ensures Inv(Disarm(s, r))
  {
    hide Core, Alive, BufferOk;
    CoreSound(s);
    var s', d := Disarm(s, r), s.refs[r].content.value;
    var b := s.datas[d].buffer;
    CoreDestroyed(s, b);
    CoreFreed(s, b);
    RelabelCore(s, s', b);
    RelabelAlive(s, s');
  }

  lemma CoreFreed(s: State, b: Id)
    requires Core(s) && b in s.buffers
    ensures s.buffers[b].freed == (if s.buffers[b].destroyed && s.buffers[b].owns then 1 else 0)
    ensures forall r | r in s.buffers[b].notifications :: Linked(s, r, b)
  {
    CoreAt(s, b);
  }

  lemma RelabelAlive(s: State, s': State)
    requires Alive(s) && s'.refs == s.refs && s'.datas.Keys == s.datas.Keys && s'.buffers.Keys == s.buffers.Keys
    requires forall e | e in s.datas :: s'.datas[e].buffer == s.datas[e].buffer
    requires forall b | b in s.buffers :: s'.buffers[b].destroyed == s.buffers[b].destroyed
    ensures Alive(s')
  {
    forall e | e in s'.datas
      ensures HasRef(s', e)
    {
      assert HasRef(s, e);
      var q :| q in s.refs && LinkedTo(s, q, e);
      assert q in s'.refs && LinkedTo(s', q, e);
    }
    forall b | b in s'.buffers && !s'.buffers[b].destroyed
      ensures HasData(s'.datas, b)
    {
      assert HasData(s.datas, b);
      var e :| e in s.datas && s.datas[e].buffer == b;
      assert e in s'.datas && s'.datas[e].buffer == b;
    }
  }

  lemma DisarmKeepsRefs(s: State, r: Id)
    requires Sound(s) && r in s.refs && s.refs[r].content.Some?
    ensures Disarm(s, r).refs == s.refs
  {
  }

  lemma ReleaseInv(s: State, r: Id)
    requires Inv(s) && r in s.refs
    ensures Inv(Release(s, r))
  {
    hide Core, Alive, Reset, Disarm, Unlink;
    CoreSound(s);
    if IsNull(s, r) {
      ResetInv(s, r);
    } else {
      DisarmInv(s, r);
      CoreSound(Disarm(s, r));
      DisarmKeepsRefs(s, r);
      UnlinkInv(Disarm(s, r), r);
    }
  }

  lemma OnNullifyInv(s: State, r: Id)
    requires Inv(s) && r in s.refs
    ensures Inv(OnNullify(s, r))
  {
    hide Core, Alive, BufferOk, Reset;
    CoreSound(s);
    if IsNull(s, r) {
      ResetInv(s, r);
    } else {
      var b := s.datas[s.refs[r].content.value].buffer;
      CoreFreed(s, b);
      RelabelCore(s, OnNullify(s, r), b);
      RelabelAlive(s, OnNullify(s, r));
    }
  }
}
