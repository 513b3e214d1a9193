/** The example solver without any global clock: each process runs at its own pace and blocks in
    a receive until the message is there. Every interleaving computes the sequential run, and some
    process can always move. */
module AsyncHalo {
  import opened Options
  import opened HaloExchange

  /** Where a process is in an iteration; a `MPI_Sendrecv` is a send followed by a receive. */
  datatype Phase = Compute | Sending(d: Direction) | Receiving(d: Direction)

  datatype Rank = Rank(iter: nat, phase: Phase, grid: Grid)

  /** The processes by their coordinates, and the messages under way to each by direction. */
  datatype State = State(ranks: map<(int, int), Rank>, channels: map<(Direction, int, int), seq<Grid>>)

  function Order(d: Direction): nat {
    match d
    case Down => 0
    case Up => 1
    case Right => 2
    case Left => 3
  }

  function Position(p: Phase): nat {
    match p
    case Compute => 0
    case Sending(d) => 1 + 2 * Order(d)
    case Receiving(d) => 2 + 2 * Order(d)
  }

  function AfterReceive(d: Direction): Phase {
    match d
    case Down => Sending(Up)
    case Up => Sending(Right)
    case Right => Sending(Left)
    case Left => Compute
  }

  /** The block a process sends, as the receiver will store it. */
  function Payload(l: Layout, d: Direction, g: Grid): Grid {
    (y, x) => Sent(l, d, g, y, x)
  }

  function Store(l: Layout, d: Direction, g: Grid, message: Grid): Grid {
    (y, x) => if Receives(l, d, y, x) then message(y, x) else g(y, x)
  }

  /** A process that finished the receive of direction `d`. */
  function Advance(r: Rank, d: Direction, g: Grid): Rank {
    Rank(if d == Left then r.iter + 1 else r.iter, AfterReceive(d), g)
  }

  // ----- one move of one process -----

  ghost predicate InDomain(l: Layout, s: State) {
    && (forall a, b :: Process(l, a, b) ==> (a, b) in s.ranks)
    && (forall d, a, b :: Process(l, a, b) ==> (d, a, b) in s.channels)
  }

  /** The process is not waiting for a message that is not there. */
  ghost predicate CanMove(l: Layout, s: State, a: int, b: int)
    requires InDomain(l, s) && Process(l, a, b)
  {
    match s.ranks[(a, b)].phase
    case Receiving(d) => Source(l, d, a, b).ProcNull? || s.channels[(d, a, b)] != []
    case _ => true
  }

  ghost function Move(l: Layout, f: Stencil, s: State, a: int, b: int): (s': State)
    requires InDomain(l, s) && Process(l, a, b) && CanMove(l, s, a, b)
    ensures InDomain(l, s')
  {
    var r := s.ranks[(a, b)];
    match r.phase
    case Compute => s.(ranks := s.ranks[(a, b) := Rank(r.iter, Sending(Down), Iter(l.n, l.m, r.grid, f))])
    case Sending(d) =>
      var s' := s.(ranks := s.ranks[(a, b) := r.(phase := Receiving(d))]);
      (match Dest(l, d, a, b)
       case ProcNull => s'
       case Peer(c, e) =>
         if (d, c, e) in s.channels then
           s'.(channels := s.channels[(d, c, e) := s.channels[(d, c, e)] + [Payload(l, d, r.grid)]])
         else s')
    case Receiving(d) =>
      (match Source(l, d, a, b)
       case ProcNull => s.(ranks := s.ranks[(a, b) := Advance(r, d, r.grid)])
       case Peer(_, _) =>
         var ch := s.channels[(d, a, b)];
         State(s.ranks[(a, b) := Advance(r, d, Store(l, d, r.grid, ch[0]))], s.channels[(d, a, b) := ch[1..]]))
  }

  // ----- what the processes hold -----

  /** The lockstep world of iteration `i` after `o` of the four shifts. */
  function After(l: Layout, f: Stencil, i: nat, o: nat): World {
    if o == 0 then IterAll(l, ParallelRun(l, f, i), f)
    else if o == 1 then Sendrecv(l, Down, After(l, f, i, 0))
    else if o == 2 then Sendrecv(l, Up, After(l, f, i, 1))
    else if o == 3 then Sendrecv(l, Right, After(l, f, i, 2))
    else Sendrecv(l, Left, After(l, f, i, 3))
  }

  function Expected(l: Layout, f: Stencil, i: nat, p: Phase): World {
    match p
    case Compute => ParallelRun(l, f, i)
    case Sending(d) => After(l, f, i, Order(d))
    case Receiving(d) => After(l, f, i, Order(d))
  }

  ghost predicate Same(g: Grid, h: Grid) {
    forall y, x :: g(y, x) == h(y, x)
  }

  function SentCount(r: Rank, d: Direction): nat {
    r.iter + if Position(r.phase) > Position(Sending(d)) then 1 else 0
  }

  function ReceivedCount(r: Rank, d: Direction): nat {
    r.iter + if Position(r.phase) > Position(Receiving(d)) then 1 else 0
  }

  ghost predicate RankOk(l: Layout, f: Stencil, s: State, a: int, b: int) {
    Process(l, a, b) ==>
      && (a, b) in s.ranks
      && var r := s.ranks[(a, b)]; Same(r.grid, Expected(l, f, r.iter, r.phase)(a, b))
  }

  /** The messages under way are those sent and not yet received, in order. */
  ghost predicate ChannelOk(l: Layout, f: Stencil, s: State, d: Direction, a: int, b: int)
    requires InDomain(l, s)
  {
    Process(l, a, b) ==>
      var ch := s.channels[(d, a, b)];
      match Source(l, d, a, b)
      case ProcNull => ch == []
      case Peer(c, e) => Process(l, c, e) ==>
        && |ch| == SentCount(s.ranks[(c, e)], d) - ReceivedCount(s.ranks[(a, b)], d)
        && forall k | 0 <= k < |ch| :: MessageOk(l, f, d, ch[k], ReceivedCount(s.ranks[(a, b)], d) + k, c, e)
  }

  ghost predicate MessageOk(l: Layout, f: Stencil, d: Direction, message: Grid, i: nat, c: int, e: int) {
    Same(message, Payload(l, d, After(l, f, i, Order(d))(c, e)))
  }

  ghost predicate Inv(l: Layout, f: Stencil, s: State) {
    && InDomain(l, s)
    && (forall a, b :: RankOk(l, f, s, a, b))
    && (forall d, a, b :: ChannelOk(l, f, s, d, a, b))
  }

  // ----- pointwise facts -----

  lemma IterSame(l: Layout, f: Stencil, g: Grid, i: nat, a: int, b: int)
    requires Same(g, ParallelRun(l, f, i)(a, b))
    ensures Same(Iter(l.n, l.m, g, f), After(l, f, i, 0)(a, b))
  {
    hide ParallelRun;
    var w := ParallelRun(l, f, i);
    forall y, x
      ensures Iter(l.n, l.m, g, f)(y, x) == After(l, f, i, 0)(a, b)(y, x)
    {
      assert IterAt(l.n, l.m, g, f, y, x) == IterAt(l.n, l.m, w(a, b), f, y, x);
      assert After(l, f, i, 0)(a, b)(y, x) == IterAll(l, w, f)(a, b)(y, x);
    }
  }

  lemma PayloadSame(l: Layout, d: Direction, g: Grid, h: Grid)
    requires Same(g, h)
    ensures Same(Payload(l, d, g), Payload(l, d, h))
  {
  }

  lemma NextAfter(l: Layout, f: Stencil, i: nat, d: Direction)
    ensures var w := Sendrecv(l, d, After(l, f, i, Order(d)));
      if d == Left then ParallelRun(l, f, i + 1) == w else Expected(l, f, i, AfterReceive(d)) == w
  {
    hide Sendrecv, IterAll;
    if d == Left {
      assert After(l, f, i, 3) == Sendrecv(l, Right, After(l, f, i, 2));
      assert After(l, f, i, 2) == Sendrecv(l, Up, After(l, f, i, 1));
      assert After(l, f, i, 1) == Sendrecv(l, Down, After(l, f, i, 0));
    }
  }

  lemma StoreSame(l: Layout, d: Direction, w: World, g: Grid, message: Grid, a: int, b: int)
    requires Same(g, w(a, b)) && Source(l, d, a, b).Peer?
    requires var Peer(c, e) := Source(l, d, a, b); Same(message, Payload(l, d, w(c, e)))
    ensures Same(Store(l, d, g, message), Sendrecv(l, d, w)(a, b))
  {
    var Peer(c, e) := Source(l, d, a, b);
    forall y, x
      ensures Store(l, d, g, message)(y, x) == Sendrecv(l, d, w)(a, b)(y, x)
    {
      assert Sendrecv(l, d, w)(a, b)(y, x) == SendrecvAt(l, d, w, a, b, y, x);
      assert message(y, x) == Payload(l, d, w(c, e))(y, x) == Sent(l, d, w(c, e), y, x);
      assert g(y, x) == w(a, b)(y, x);
    }
  }

  lemma NullSame(l: Layout, d: Direction, w: World, g: Grid, a: int, b: int)
    requires Same(g, w(a, b)) && Source(l, d, a, b).ProcNull?
    ensures Same(g, Sendrecv(l, d, w)(a, b))
  {
    forall y, x
      ensures g(y, x) == Sendrecv(l, d, w)(a, b)(y, x)
    {
      assert Sendrecv(l, d, w)(a, b)(y, x) == SendrecvAt(l, d, w, a, b, y, x);
    }
  }

  lemma PeersAreProcesses(l: Layout, d: Direction, a: int, b: int)
    requires Process(l, a, b)
    ensures var p := Source(l, d, a, b); p.Peer? ==> Process(l, p.a, p.b) && (p.a, p.b) != (a, b)
    ensures var p := Dest(l, d, a, b); p.Peer? ==> Process(l, p.a, p.b) && (p.a, p.b) != (a, b)
  {
  }

  // ----- the invariant is kept -----

  /** The moved process holds what the lockstep run holds. */
  lemma MoveRank(l: Layout, f: Stencil, s: State, a: int, b: int)
    requires Inv(l, f, s) && Process(l, a, b) && CanMove(l, s, a, b)
    ensures RankOk(l, f, Move(l, f, s, a, b), a, b)
  {
    hide Iter, Sendrecv, After, ParallelRun, Same, Payload, Store;
    assert RankOk(l, f, s, a, b);
    var r := s.ranks[(a, b)];
    match r.phase
    case Compute => IterSame(l, f, r.grid, r.iter, a, b);
    case Sending(d) =>
    case Receiving(d) =>
      NextAfter(l, f, r.iter, d);
      PeersAreProcesses(l, d, a, b);
      var w := After(l, f, r.iter, Order(d));
      assert ChannelOk(l, f, s, d, a, b);
      match Source(l, d, a, b)
      case ProcNull => NullSame(l, d, w, r.grid, a, b);
      case Peer(c, e) =>
        var ch := s.channels[(d, a, b)];
        assert MessageOk(l, f, d, ch[0], ReceivedCount(r, d) + 0, c, e);
        StoreSame(l, d, w, r.grid, ch[0], a, b);
  }

  /** A move changes the counts of its own sends and receives only, by one. */
  lemma MoveCounts(l: Layout, f: Stencil, s: State, a: int, b: int, d: Direction)
    requires Inv(l, f, s) && Process(l, a, b) && CanMove(l, s, a, b)
    ensures var r, r' := s.ranks[(a, b)], Move(l, f, s, a, b).ranks[(a, b)];
      && SentCount(r', d) == SentCount(r, d) + (if r.phase == Sending(d) then 1 else 0)
      && ReceivedCount(r', d) == ReceivedCount(r, d) + (if r.phase == Receiving(d) then 1 else 0)
    ensures forall c, e | (c, e) in s.ranks && (c, e) != (a, b) ::
      (c, e) in Move(l, f, s, a, b).ranks && Move(l, f, s, a, b).ranks[(c, e)] == s.ranks[(c, e)]
  {
    hide Iter, Payload, Store, RankOk, ChannelOk;
  }

  lemma MoveChannel(l: Layout, f: Stencil, s: State, a: int, b: int, d: Direction, c: int, e: int)
    requires Inv(l, f, s) && Process(l, a, b) && CanMove(l, s, a, b) && Process(l, c, e)
    ensures ChannelOk(l, f, Move(l, f, s, a, b), d, c, e)
  {
    hide Iter, After, ParallelRun, Payload, Store, SentCount, ReceivedCount, Same, Inv, Move, CanMove, ChannelOk;
    if Source(l, d, c, e) == ProcNull {
      MoveNoChannel(l, f, s, a, b, d, c, e);
    } else {
      MovePeerChannel(l, f, s, a, b, d, c, e);
    }
  }

  lemma MoveNoChannel(l: Layout, f: Stencil, s: State, a: int, b: int, d: Direction, c: int, e: int)
    requires Inv(l, f, s) && Process(l, a, b) && CanMove(l, s, a, b) && Process(l, c, e)
    requires Source(l, d, c, e) == ProcNull
    ensures ChannelOk(l, f, Move(l, f, s, a, b), d, c, e)
  {
    hide Iter, After, ParallelRun, Payload, Store, SentCount, ReceivedCount, Same, Inv;
    InvParts(l, f, s, a, b, d, c, e);
    MoveCounts(l, f, s, a, b, d);
    PeersAreProcesses(l, d, c, e);
    if s.ranks[(a, b)].phase == Sending(d) && Dest(l, d, a, b).Peer? {
      ShiftMatches(l, d, c, e, a, b);
    }
  }

  lemma MovePeerChannel(l: Layout, f: Stencil, s: State, a: int, b: int, d: Direction, c: int, e: int)
    requires Inv(l, f, s) && Process(l, a, b) && CanMove(l, s, a, b) && Process(l, c, e) && Source(l, d, c, e).Peer?
    ensures ChannelOk(l, f, Move(l, f, s, a, b), d, c, e)
  {
    hide Iter, After, ParallelRun, Payload, Store, SentCount, ReceivedCount, Same, Inv;
    InvParts(l, f, s, a, b, d, c, e);
    MoveCounts(l, f, s, a, b, d);
    PeersAreProcesses(l, d, c, e);
    var s', r := Move(l, f, s, a, b), s.ranks[(a, b)];
    var Peer(u, v) := Source(l, d, c, e);
    var ch := s.channels[(d, c, e)];
    ShiftMatches(l, d, c, e, a, b);
    if r.phase == Sending(d) && (u, v) == (a, b) {
      SentMessage(l, f, s, a, b, d);
      assert s'.channels[(d, c, e)] == ch + [Payload(l, d, r.grid)];
    } else if r.phase == Receiving(d) && (c, e) == (a, b) {
      assert s'.channels[(d, c, e)] == ch[1..];
    } else {
      assert s'.channels[(d, c, e)] == ch;
    }
  }

  lemma InvParts(l: Layout, f: Stencil, s: State, a: int, b: int, d: Direction, c: int, e: int)
    requires Inv(l, f, s)
    ensures InDomain(l, s) && RankOk(l, f, s, a, b) && ChannelOk(l, f, s, d, c, e)
  {
  }

  lemma SentMessage(l: Layout, f: Stencil, s: State, a: int, b: int, d: Direction)
    requires Inv(l, f, s) && Process(l, a, b) && s.ranks[(a, b)].phase == Sending(d)
    ensures var r := s.ranks[(a, b)];
      SentCount(r, d) == r.iter && MessageOk(l, f, d, Payload(l, d, r.grid), r.iter, a, b)
  {
    assert RankOk(l, f, s, a, b);
    var r := s.ranks[(a, b)];
    PayloadSame(l, d, r.grid, After(l, f, r.iter, Order(d))(a, b));
  }

  lemma MoveInv(l: Layout, f: Stencil, s: State, a: int, b: int)
    requires Inv(l, f, s) && Process(l, a, b) && CanMove(l, s, a, b)
    ensures Inv(l, f, Move(l, f, s, a, b))
  {
    hide Move, CanMove, After;
    var s' := Move(l, f, s, a, b);
    MoveCounts(l, f, s, a, b, Down);
    forall c, e
      ensures RankOk(l, f, s', c, e)
    {
      assert RankOk(l, f, s, c, e);
      if (c, e) == (a, b) { MoveRank(l, f, s, a, b); }
    }
    forall d, c, e
      ensures ChannelOk(l, f, s', d, c, e)
    {
      if Process(l, c, e) { MoveChannel(l, f, s, a, b, d, c, e); }
    }
  }

  // ----- every run -----

  ghost function Places(l: Layout): (r: set<(int, int)>)
    ensures forall a, b :: (a, b) in r <==> Process(l, a, b)
  {
    set a, b | 0 <= a < l.rows && 0 <= b < l.cols :: (a, b)
  }

  ghost function Start(l: Layout): (s: State)
    ensures InDomain(l, s)
  {
    var places := Places(l);
    State(map p | p in places :: Rank(0, Compute, Init(StartColumn(l, p.0, p.1))),
          map c | c in EveryChannel(places) :: [])
  }

  ghost function EveryChannel(places: set<(int, int)>): (r: set<(Direction, int, int)>)
    ensures forall d, a, b :: (d, a, b) in r <==> (a, b) in places
  {
    set d: Direction, p | p in places :: (d, p.0, p.1)
  }

  lemma StartInv(l: Layout, f: Stencil)
    ensures Inv(l, f, Start(l))
  {
    var s := Start(l);
    forall a, b
      ensures RankOk(l, f, s, a, b)
    {
      hide After, ChannelOk, StartColumn;
      assert ParallelRun(l, f, 0)(a, b) == Init(StartColumn(l, a, b));
    }
    forall d, a, b
      ensures ChannelOk(l, f, s, d, a, b)
    {
      hide After, RankOk;
    }
  }

  /** The processes move in the given order; one that is blocked, or that does not exist, does not. */
  ghost function Run(l: Layout, f: Stencil, schedule: seq<(int, int)>): (s: State)
    ensures InDomain(l, s)
    decreases |schedule|
  {
    if schedule == [] then
      Start(l)
    else
      var s := Run(l, f, schedule[..|schedule| - 1]);
      var (a, b) := schedule[|schedule| - 1];
      if Process(l, a, b) && CanMove(l, s, a, b) then Move(l, f, s, a, b) else s
  }

  lemma {:induction false} RunInv(l: Layout, f: Stencil, schedule: seq<(int, int)>)
    ensures Inv(l, f, Run(l, f, schedule))
    decreases |schedule|
  {
    hide Inv, CanMove, Move;
    if schedule == [] {
      StartInv(l, f);
    } else {
      var before := schedule[..|schedule| - 1];
      RunInv(l, f, before);
      var s := Run(l, f, before);
      var (a, b) := schedule[|schedule| - 1];
      if Process(l, a, b) && CanMove(l, s, a, b) {
        MoveInv(l, f, s, a, b);
      }
    }
  }

  /** However the processes interleave, one that has completed `i` iterations holds its part of the
      sequential grid after `i` iterations. */
  lemma AsyncIsSequential(l: Layout, f: Stencil, schedule: seq<(int, int)>, a: int, b: int, y: int, x: int)
    requires Valid(l) && Placed(l)
    requires Process(l, a, b) && Local(l, y, x) && Tracked(l, a, b, y, x)
    ensures var r := Run(l, f, schedule).ranks[(a, b)];
      r.phase == Compute ==> r.grid(y, x) == SequentialRun(l, f, r.iter)(Row(l, a) + y, Column(l, b) + x)
  {
    hide Run, ParallelRun, SequentialRun, Agrees, Row, Column, Tracked, Placed;
    RunInv(l, f, schedule);
    var s := Run(l, f, schedule);
    assert RankOk(l, f, s, a, b);
    var r := s.ranks[(a, b)];
    if r.phase == Compute {
      ParallelIsSequential(l, f, r.iter);
      AgreesAt(l, ParallelRun(l, f, r.iter), SequentialRun(l, f, r.iter), a, b, y, x);
    }
  }

  // ----- no deadlock -----

  function Progress(r: Rank): nat {
    9 * r.iter + Position(r.phase)
  }

  /** A process blocked in a receive waits for one that is strictly behind it. */
  lemma WaitsForSlower(l: Layout, f: Stencil, s: State, a: int, b: int)
    requires Inv(l, f, s) && Process(l, a, b) && !CanMove(l, s, a, b)
    ensures var r := s.ranks[(a, b)];
      && r.phase.Receiving?
      && var p := Source(l, r.phase.d, a, b);
      && p.Peer? && Process(l, p.a, p.b)
      && Progress(s.ranks[(p.a, p.b)]) < Progress(r)
  {
    hide After, RankOk;
    var d := s.ranks[(a, b)].phase.d;
    PeersAreProcesses(l, d, a, b);
    assert ChannelOk(l, f, s, d, a, b);
  }

  lemma {:induction false} Mover(l: Layout, f: Stencil, s: State, a: int, b: int) returns (c: int, e: int)
    requires Inv(l, f, s) && Process(l, a, b)
    ensures Process(l, c, e) && CanMove(l, s, c, e)
    decreases Progress(s.ranks[(a, b)])
  {
    hide Inv, CanMove, Progress;
    assert InDomain(l, s) by { InvParts(l, f, s, a, b, Down, a, b); }
    if CanMove(l, s, a, b) {
      return a, b;
    } else {
      WaitsForSlower(l, f, s, a, b);
      var p := Source(l, s.ranks[(a, b)].phase.d, a, b);
      c, e := Mover(l, f, s, p.a, p.b);
    }
  }

  /** The exchange never deadlocks: in every reachable state some process can move. */
  lemma NoDeadlock(l: Layout, f: Stencil, schedule: seq<(int, int)>)
    requires Valid(l)
    ensures exists a, b :: Process(l, a, b) && CanMove(l, Run(l, f, schedule), a, b)
  {
    hide Inv, Run, CanMove;
    RunInv(l, f, schedule);
    var c, e := Mover(l, f, Run(l, f, schedule), 0, 0);
  }

  // ----- sends that wait to be received -----

  /** The exchange that the process has received but may not have finished. */
  function Pending(r: Rank): Option<Direction> {
    match r.phase
    case Compute => if r.iter > 0 then Some(Left) else None
    case Sending(Up) => Some(Down)
    case Sending(Right) => Some(Up)
    case Sending(Left) => Some(Right)
    case _ => None
  }

  /** Its own message of that exchange was received too. */
  ghost predicate Finished(l: Layout, s: State, a: int, b: int)
    requires InDomain(l, s) && Process(l, a, b)
  {
    match Pending(s.ranks[(a, b)])
    case None => true
    case Some(d) =>
      match Dest(l, d, a, b)
      case ProcNull => true
      case Peer(c, e) => (d, c, e) in s.channels ==> s.channels[(d, c, e)] == []
  }

  /** With no buffering at all, a `MPI_Sendrecv` returns only once its message was received. */
  ghost predicate CanMoveUnbuffered(l: Layout, s: State, a: int, b: int)
    requires InDomain(l, s) && Process(l, a, b)
  {
    CanMove(l, s, a, b) && Finished(l, s, a, b)
  }

  ghost function UnbufferedRun(l: Layout, f: Stencil, schedule: seq<(int, int)>): (s: State)
    ensures InDomain(l, s)
    decreases |schedule|
  {
    if schedule == [] then
      Start(l)
    else
      var s := UnbufferedRun(l, f, schedule[..|schedule| - 1]);
      var (a, b) := schedule[|schedule| - 1];
      if Process(l, a, b) && CanMoveUnbuffered(l, s, a, b) then Move(l, f, s, a, b) else s
  }

  /** A run without buffering is a run: what is computed is the same. */
  lemma {:induction false} UnbufferedIsRun(l: Layout, f: Stencil, schedule: seq<(int, int)>)
    returns (moves: seq<(int, int)>)
    ensures UnbufferedRun(l, f, schedule) == Run(l, f, moves)
    decreases |schedule|
  {
    hide CanMove, Move, Finished;
    if schedule == [] {
      moves := [];
    } else {
      moves := UnbufferedIsRun(l, f, schedule[..|schedule| - 1]);
      var s := Run(l, f, moves);
      var (a, b) := schedule[|schedule| - 1];
      if Process(l, a, b) && CanMoveUnbuffered(l, s, a, b) {
        assert (moves + [(a, b)])[..|moves|] == moves;
        moves := moves + [(a, b)];
      }
    }
  }

  /** A process whose message is not received yet waits for one that is strictly behind it. */
  lemma UnreceivedBySlower(l: Layout, f: Stencil, s: State, a: int, b: int)
    requires Inv(l, f, s) && Process(l, a, b) && !Finished(l, s, a, b)
    ensures var r := s.ranks[(a, b)];
      && Pending(r).Some?
      && var p := Dest(l, Pending(r).value, a, b);
      && p.Peer? && Process(l, p.a, p.b)
      && Progress(s.ranks[(p.a, p.b)]) < Progress(r)
  {
    hide After, RankOk;
    var d := Pending(s.ranks[(a, b)]).value;
    PeersAreProcesses(l, d, a, b);
    var p := Dest(l, d, a, b);
    ShiftMatches(l, d, p.a, p.b, a, b);
    assert ChannelOk(l, f, s, d, p.a, p.b);
  }

  lemma {:induction false} UnbufferedMover(l: Layout, f: Stencil, s: State, a: int, b: int) returns (c: int, e: int)
    requires Inv(l, f, s) && Process(l, a, b)
    ensures Process(l, c, e) && CanMoveUnbuffered(l, s, c, e)
    decreases Progress(s.ranks[(a, b)])
  {
    hide Inv, CanMove, Progress, Finished;
    assert InDomain(l, s) by { InvParts(l, f, s, a, b, Down, a, b); }
    if !CanMove(l, s, a, b) {
      WaitsForSlower(l, f, s, a, b);
      var p := Source(l, s.ranks[(a, b)].phase.d, a, b);
      c, e := UnbufferedMover(l, f, s, p.a, p.b);
    } else if !Finished(l, s, a, b) {
      UnreceivedBySlower(l, f, s, a, b);
      var p := Dest(l, Pending(s.ranks[(a, b)]).value, a, b);
      c, e := UnbufferedMover(l, f, s, p.a, p.b);
    } else {
      return a, b;
    }
  }

  /** Nor does it deadlock without any buffering. */
  lemma NoDeadlockUnbuffered(l: Layout, f: Stencil, schedule: seq<(int, int)>)
    requires Valid(l)
    ensures exists a, b :: Process(l, a, b) && CanMoveUnbuffered(l, UnbufferedRun(l, f, schedule), a, b)
  {
    hide Inv, Run, UnbufferedRun, CanMoveUnbuffered;
    var moves := UnbufferedIsRun(l, f, schedule);
    RunInv(l, f, moves);
    var c, e := UnbufferedMover(l, f, Run(l, f, moves), 0, 0);
  }
}
