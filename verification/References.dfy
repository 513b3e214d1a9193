/** References with automatic memory management and reader/writer locks. Several references share a
    data descriptor, several data descriptors (the value and its parts) share a buffer, and locks
    are counted per buffer. Objects are named by numbers; a destroyed buffer is kept for its history. */
module References {
  import opened Options

  type Id = nat

  datatype Buffer = Buffer(
    readable: bool, writable: bool,   // the rights it was created with
    readLocks: int, writeLocks: int,
    notifications: set<Id>,           // the references with a nullification callback
    owns: bool,                       // whether the deallocator still frees the memory
    destroyed: bool, freed: nat)

  /** The address is 0 once the data has been released. */
  datatype Data = Data(buffer: Id, address: nat)

  datatype Ref = Ref(read: bool, write: bool, content: Option<Id>)

  datatype State = State(buffers: map<Id, Buffer>, datas: map<Id, Data>, refs: map<Id, Ref>)

  /** Nothing dangles. */
  ghost predicate Sound(s: State) {
    && (forall r | r in s.refs && s.refs[r].content.Some? :: s.refs[r].content.value in s.datas)
    && (forall d | d in s.datas :: s.datas[d].buffer in s.buffers)
  }

  predicate LinkedTo(s: State, r: Id, d: Id) {
    r in s.refs && s.refs[r].content == Some(d)
  }

  predicate Linked(s: State, r: Id, b: Id) {
    && r in s.refs && s.refs[r].content.Some? && s.refs[r].content.value in s.datas
    && s.datas[s.refs[r].content.value].buffer == b
  }

  /** What `is_null` answers: no content, or content that was released. */
  predicate IsNull(s: State, r: Id)
    requires Sound(s) && r in s.refs
  {
    s.refs[r].content.None? || s.datas[s.refs[r].content.value].address == 0
  }

  // ----- link and unlink -----

  predicate Grants(b: Buffer, read: bool, write: bool) {
    !(read && b.readLocks != 0) && !(write && b.writeLocks != 0)
  }

  function Lock(b: Buffer, read: bool, write: bool): Buffer {
    b.(writeLocks := b.writeLocks + if read || write then 1 else 0,
       readLocks := b.readLocks + if write then 1 else 0)
  }

  function Unlock(b: Buffer, read: bool, write: bool): Buffer {
    b.(writeLocks := b.writeLocks - if read || write then 1 else 0,
       readLocks := b.readLocks - if write then 1 else 0)
  }

  /** Links the null reference `r` to `d` if the data is there and the locks allow it. */
  function Link(s: State, r: Id, d: Id): State
    requires Sound(s) && r in s.refs && s.refs[r].content.None? && d in s.datas
  {
    var Ref(read, write, _) := s.refs[r];
    var b := s.datas[d].buffer;
    if s.datas[d].address == 0 || !Grants(s.buffers[b], read, write) then s
    else s.(refs := s.refs[r := Ref(read, write, Some(d))], buffers := s.buffers[b := Lock(s.buffers[b], read, write)])
  }

  predicate HasRef(s: State, d: Id) {
    exists r :: r in s.refs && LinkedTo(s, r, d)
  }

  predicate HasData(datas: map<Id, Data>, b: Id) {
    exists d :: d in datas && datas[d].buffer == b
  }

  /** Drops the data descriptor when no reference is left on it, then the buffer when no data
      descriptor is left on it: the two shared pointers. */
  function Collect(s: State, d: Id): State
    requires Sound(s) && d in s.datas
  {
    if HasRef(s, d) then s
    else
      var b, rest := s.datas[d].buffer, s.datas - {d};
      var s' := s.(datas := rest);
      if HasData(rest, b) then s'
      else
        var buffer := s.buffers[b];
        s'.(buffers := s.buffers[b := buffer.(destroyed := true, freed := buffer.freed + if buffer.owns then 1 else 0)])
  }

  function Detach(s: State, r: Id): State
    requires Sound(s) && r in s.refs && s.refs[r].content.Some?
  {
    var Ref(read, write, content) := s.refs[r];
    var b := s.datas[content.value].buffer;
    var buffer := Unlock(s.buffers[b].(notifications := s.buffers[b].notifications - {r}), read, write);
    s.(refs := s.refs[r := Ref(read, write, None)], buffers := s.buffers[b := buffer])
  }

  function Unlink(s: State, r: Id): State
    requires Sound(s) && r in s.refs && s.refs[r].content.Some?
  {
    Collect(Detach(s, r), s.refs[r].content.value)
  }

  // ----- the operations -----

  function Reset(s: State, r: Id): State
    requires Sound(s) && r in s.refs
  {
    if s.refs[r].content.Some? then Unlink(s, r) else s
  }

  /** `is_null` also drops the content of a released reference. */
  function Settle(s: State, r: Id): State
    requires Sound(s) && r in s.refs
  {
    if IsNull(s, r) then Reset(s, r) else s
  }

  /** A new null reference. */
  function New(s: State, r: Id, read: bool, write: bool): State
    requires r !in s.refs
  {
    s.(refs := s.refs[r := Ref(read, write, None)])
  }

  /** Locked from the start for what may not be done with it. */
  function NewBuffer(readable: bool, writable: bool): Buffer {
    Buffer(readable, writable, if readable then 0 else 1, if writable then 0 else 1, {}, true, false, 0)
  }

  /** A reference to so far unreferenced data. */
  function Create(s: State, r: Id, read: bool, write: bool, d: Id, b: Id, address: nat, readable: bool,
                  writable: bool): State
    requires Sound(s) && r !in s.refs && d !in s.datas && b !in s.buffers
  {
    var s' := New(s, r, read, write);
    if address == 0 then s'
    else
      var buffer := NewBuffer(readable, writable);
      Collect(Link(s'.(buffers := s.buffers[b := buffer], datas := s.datas[d := Data(b, address)]), r, d), d)
  }

  /** A reference to the content of another one, with rights of its own. */
  function Copy(s: State, r: Id, read: bool, write: bool, from: Id): State
    requires Sound(s) && r !in s.refs && from in s.refs
  {
    if IsNull(s, from) then New(s, r, read, write) else Link(New(s, r, read, write), r, s.refs[from].content.value)
  }

  /** Takes the content of a reference with the same rights, whose notification goes. */
  function Steal(s: State, r: Id, from: Id): State
    requires Sound(s) && r in s.refs && from in s.refs && r != from && s.refs[r].content.None?
    requires s.refs[from].content.Some?
  {
    var content := s.refs[from].content;
    var b := s.datas[content.value].buffer;
    s.(refs := s.refs[r := s.refs[r].(content := content)][from := s.refs[from].(content := None)],
       buffers := s.buffers[b := s.buffers[b].(notifications := s.buffers[b].notifications - {from})])
  }

  /** Move construction: even a released content moves. */
  function MoveNew(s: State, r: Id, from: Id): State
    requires Sound(s) && r !in s.refs && from in s.refs
  {
    var s' := New(s, r, s.refs[from].read, s.refs[from].write);
    if s.refs[from].content.None? then s' else Steal(s', r, from)
  }

  /** A sub-reference: a data descriptor of its own on the same buffer, referenced without rights. */
  function SubRef(s: State, r: Id, from: Id, d: Id, address: nat): State
    requires Sound(s) && r !in s.refs && from in s.refs && !IsNull(s, from) && d !in s.datas && address != 0
  {
    var b := s.datas[s.refs[from].content.value].buffer;
    Link(New(s, r, false, false).(datas := s.datas[d := Data(b, address)]), r, d)
  }

  /** Gives the memory back to the user: all notifications are called, the data reads as null from now
      on, and the deallocator is disarmed. */
  function Disarm(s: State, r: Id): State
    requires Sound(s) && r in s.refs && s.refs[r].content.Some?
  {
    var d := s.refs[r].content.value;
    var b := s.datas[d].buffer;
    s.(datas := s.datas[d := s.datas[d].(address := 0)],
       buffers := s.buffers[b := s.buffers[b].(notifications := {}, owns := false)])
  }

  function Release(s: State, r: Id): State
    requires Sound(s) && r in s.refs
  {
    if IsNull(s, r) then Reset(s, r) else Unlink(Disarm(s, r), r)
  }

  function OnNullify(s: State, r: Id): State
    requires Sound(s) && r in s.refs
  {
    if IsNull(s, r) then Reset(s, r)
    else
      var b := s.datas[s.refs[r].content.value].buffer;
      s.(buffers := s.buffers[b := s.buffers[b].(notifications := s.buffers[b].notifications + {r})])
  }
}
