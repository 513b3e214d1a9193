/** The time-driven main loop of the example solver: every process decides from its own counter when
    to join the next global reduction, and all must join the same ones. The processes run at their
    own pace, with clocks of their own; a reduction returns on a process once all have entered it. */
module ReductionSchedule {

  datatype Phase = Working | Waiting | Stopped

  /** The loop variables of one process and the number of reductions it has completed. */
  datatype Rank = Rank(ii: int, nextReduce: int, reductions: nat, phase: Phase)

  /** `times[(r, c)]` is the local time with which process `r` entered reduction `c`. */
  datatype State = State(ranks: seq<Rank>, times: map<(int, nat), real>)

  lemma FloorBounds(x: real, y: real)
    requires y > 0.0
    ensures var q := (x / y).Floor; q as real * y <= x < (q + 1) as real * y
  {
    var q := (x / y).Floor;
    BetweenMultiples(x, y, x / y, q as real, (q + 1) as real);
  }

  lemma BetweenMultiples(x: real, y: real, q: real, r: real, s: real)
    requires y > 0.0 && q * y == x && r <= q < s
    ensures r * y <= x < s * y
  {
    Scaled(q, s, y);
    if r < q { Scaled(r, q, y); }
  }

  lemma Scaled(a: real, b: real, y: real)
    requires y > 0.0 && a < b
    ensures a * y < b * y
  {
    var d := b - a;
    assert d * y > 0.0;
    assert d * y == b * y - a * y;
  }

  /** The next gap between reductions: nine tenths of the iterations that the remaining time allows at the pace so far,
      as a whole number toward zero, at least 1. */
  function Gap(duration: real, global: real, ii: int): (r: int)
    requires global >= 0.0
    ensures r >= 1
    ensures var left, pace := 0.9 * (duration - global) * (ii + 1) as real, global + 0.1;
      if r == 1 then left < 2.0 * pace else r as real * pace <= left < (r + 1) as real * pace
  {
    var left, pace := 0.9 * (duration - global) * (ii + 1) as real, global + 0.1;
    FloorBounds(left, pace);
    var rem := (left / pace).Floor;
    if rem < 1 then
      Scaled((rem + 1) as real, 2.0, pace);
      1
    else
      rem
  }

  /** Processes 0 to `p` - 1 have all entered reduction `c`. */
  ghost predicate AllEntered(times: map<(int, nat), real>, p: nat, c: nat) {
    forall r | 0 <= r < p :: (r, c) in times && times[(r, c)] >= 0.0
  }

  /** The result of reduction `c`: the largest local time. */
  ghost function Global(times: map<(int, nat), real>, p: nat, c: nat): (g: real)
    requires AllEntered(times, p, c) && p >= 1
    ensures g >= 0.0
    ensures exists r | 0 <= r < p :: times[(r, c)] == g
    ensures forall r | 0 <= r < p :: times[(r, c)] <= g
    decreases p
  {
    if p == 1 then times[(0, c)]
    else
      assert AllEntered(times, p - 1, c);
      var g, t := Global(times, p - 1, c), times[(p - 1, c)];
      if g < t then t else g
  }

  ghost predicate Completed(times: map<(int, nat), real>, p: nat, c: nat) {
    forall k: nat | k < c :: AllEntered(times, p, k)
  }

  /** The iteration of reduction `c`, from the results of the reductions before it. */
  ghost function ReductionAt(times: map<(int, nat), real>, p: nat, duration: real, c: nat): int
    requires p >= 1 && Completed(times, p, c)
    decreases c
  {
    if c == 0 then 0
    else
      var last := ReductionAt(times, p, duration, c - 1);
      last + Gap(duration, Global(times, p, c - 1), last)
  }

  // ----- moves -----

  ghost predicate CanMove(s: State, r: int) {
    && 0 <= r < |s.ranks|
    && s.ranks[r].phase != Stopped
    && (s.ranks[r].phase == Waiting ==> AllEntered(s.times, |s.ranks|, s.ranks[r].reductions))
  }

  /** One move of process `r`: an iteration, entering a reduction at local time `t`, or leaving it. */
  ghost function Move(s: State, r: int, t: real, duration: real): State
    requires CanMove(s, r) && t >= 0.0
  {
    var k := s.ranks[r];
    match k.phase
    case Working =>
      if k.ii >= k.nextReduce then
        State(s.ranks[r := k.(phase := Waiting)], s.times[(r, k.reductions) := t])
      else
        s.(ranks := s.ranks[r := k.(ii := k.ii + 1)])
    case Waiting =>
      var global := Global(s.times, |s.ranks|, k.reductions);
      if global >= duration then
        s.(ranks := s.ranks[r := k.(phase := Stopped)])
      else
        s.(ranks := s.ranks[r := Rank(k.ii + 1, k.ii + Gap(duration, global, k.ii), k.reductions + 1, Working)])
    case Stopped => s
  }

  ghost predicate Entered(k: Rank, c: nat) {
    c < k.reductions || (c == k.reductions && k.phase != Working)
  }

  ghost predicate RankOk(s: State, r: int, duration: real)
    requires 0 <= r < |s.ranks|
  {
    var k, p := s.ranks[r], |s.ranks|;
    && (forall c: nat :: (r, c) in s.times <==> Entered(k, c))
    && Completed(s.times, p, k.reductions)
    && (forall c: nat | c < k.reductions :: AllEntered(s.times, p, c) && Global(s.times, p, c) < duration)
    && k.nextReduce == ReductionAt(s.times, p, duration, k.reductions)
    && k.ii <= k.nextReduce
    && (k.phase != Working ==> k.ii == k.nextReduce)
    && (k.phase == Stopped ==> AllEntered(s.times, p, k.reductions) && Global(s.times, p, k.reductions) >= duration)
  }

  ghost predicate Inv(s: State, duration: real) {
    && |s.ranks| >= 1
    && (forall e | e in s.times :: 0 <= e.0 < |s.ranks| && s.times[e] >= 0.0)
    && (forall r | 0 <= r < |s.ranks| :: RankOk(s, r, duration))
  }

  /** Later entries change neither the results nor the iterations of completed reductions. */
  lemma {:induction false} GlobalStable(times: map<(int, nat), real>, times': map<(int, nat), real>, p: nat, c: nat)
    requires AllEntered(times, p, c) && p >= 1
    requires forall e | e in times :: e in times' && times'[e] == times[e]
    ensures AllEntered(times', p, c) && Global(times', p, c) == Global(times, p, c)
    decreases p
  {
    if p > 1 {
      assert AllEntered(times, p - 1, c);
      GlobalStable(times, times', p - 1, c);
    }
  }

  lemma {:induction false} ReductionAtStable(times: map<(int, nat), real>, times': map<(int, nat), real>, p: nat,
                                             duration: real, c: nat)
    requires p >= 1 && Completed(times, p, c)
    requires forall e | e in times :: e in times' && times'[e] == times[e]
    ensures Completed(times', p, c) && ReductionAt(times', p, duration, c) == ReductionAt(times, p, duration, c)
    decreases c
  {
    forall k: nat | k < c
      ensures AllEntered(times', p, k)
    {
      GlobalStable(times, times', p, k);
    }
    if c > 0 {
      ReductionAtStable(times, times', p, duration, c - 1);
      GlobalStable(times, times', p, c - 1);
    }
  }

  /** A process that did not move is as right as before, whatever entries were added for others. */
  lemma OtherRank(s: State, s': State, q: int, duration: real)
    requires 0 <= q < |s.ranks| == |s'.ranks| && RankOk(s, q, duration) && s'.ranks[q] == s.ranks[q]
    requires forall e | e in s.times :: e in s'.times && s'.times[e] == s.times[e]
    requires forall c: nat :: (q, c) in s'.times <==> (q, c) in s.times
    ensures RankOk(s', q, duration)
  {
    hide Gap, Global, ReductionAt;
    var k, p := s.ranks[q], |s.ranks|;
    ReductionAtStable(s.times, s'.times, p, duration, k.reductions);
    forall c: nat | c < k.reductions
      ensures AllEntered(s'.times, p, c) && Global(s'.times, p, c) < duration
    {
      GlobalStable(s.times, s'.times, p, c);
    }
    if k.phase == Stopped {
      GlobalStable(s.times, s'.times, p, k.reductions);
    }
  }

  lemma MovedRank(s: State, r: int, t: real, duration: real)
    requires Inv(s, duration) && CanMove(s, r) && t >= 0.0
    ensures RankOk(Move(s, r, t, duration), r, duration)
  {
    hide Gap, Global;
    var s', k, p := Move(s, r, t, duration), s.ranks[r], |s.ranks|;
    assert RankOk(s, r, duration);
    match k.phase
    case Working =>
      if k.ii >= k.nextReduce {
        ReductionAtStable(s.times, s'.times, p, duration, k.reductions);
        forall c: nat | c < k.reductions
          ensures AllEntered(s'.times, p, c) && Global(s'.times, p, c) < duration
        {
          GlobalStable(s.times, s'.times, p, c);
        }
      }
    case Waiting =>
  }

  lemma MoveInv(s: State, r: int, t: real, duration: real)
    requires Inv(s, duration) && CanMove(s, r) && t >= 0.0
    ensures Inv(Move(s, r, t, duration), duration)
  {
    hide Gap, Global, ReductionAt;
    var s' := Move(s, r, t, duration);
    assert RankOk(s, r, duration);
    forall q | 0 <= q < |s'.ranks|
      ensures RankOk(s', q, duration)
    {
      if q == r {
        MovedRank(s, r, t, duration);
      } else {
        assert RankOk(s, q, duration);
        OtherRank(s, s', q, duration);
      }
    }
  }

  // ----- every run -----

  datatype Event = Event(rank: int, time: real)

  ghost function Start(p: nat): State {
    State(seq(p, _ => Rank(0, 0, 0, Working)), map[])
  }

  ghost function Run(p: nat, duration: real, events: seq<Event>): State
    decreases |events|
  {
    if events == [] then Start(p)
    else
      var s, e := Run(p, duration, events[..|events| - 1]), events[|events| - 1];
      if CanMove(s, e.rank) && e.time >= 0.0 then Move(s, e.rank, e.time, duration) else s
  }

  lemma {:induction false} RunInv(p: nat, duration: real, events: seq<Event>)
    requires p >= 1
    ensures Inv(Run(p, duration, events), duration) && |Run(p, duration, events).ranks| == p
    decreases |events|
  {
    if events == [] {
    } else {
      RunInv(p, duration, events[..|events| - 1]);
      var s, e := Run(p, duration, events[..|events| - 1]), events[|events| - 1];
      if CanMove(s, e.rank) && e.time >= 0.0 {
        MoveInv(s, e.rank, e.time, duration);
      }
    }
  }

  /** Whatever the clocks and the interleaving: processes that completed as many reductions plan the
      next one at the same iteration; one that is in a reduction is at that iteration; two that
      stopped did so at the same iteration; and no process goes past the reduction at which another
      one stopped, nor gets two reductions ahead. */
  lemma Agreement(p: nat, duration: real, events: seq<Event>, r: int, q: int)
    requires 0 <= r < p && 0 <= q < p
    ensures var s := Run(p, duration, events);
      && |s.ranks| == p
      && var k, j := s.ranks[r], s.ranks[q];
      && (k.reductions == j.reductions ==> k.nextReduce == j.nextReduce)
      && (k.reductions == j.reductions && k.phase != Working && j.phase != Working ==> k.ii == j.ii)
      && (k.phase == Stopped ==> j.reductions <= k.reductions)
      && (k.phase == Stopped && j.phase == Stopped ==> k.ii == j.ii && k.reductions == j.reductions)
      && k.reductions <= j.reductions + 1
  {
    hide Run, Gap, Global, ReductionAt;
    RunInv(p, duration, events);
    var s := Run(p, duration, events);
    assert RankOk(s, r, duration) && RankOk(s, q, duration);
    var k, j := s.ranks[r], s.ranks[q];
    if k.reductions > 0 {
      assert AllEntered(s.times, p, k.reductions - 1);
      assert (q, (k.reductions - 1) as nat) in s.times;
    }
  }

  /** Each reduction is planned beyond the iteration of the one before. */
  lemma ReductionsAdvance(times: map<(int, nat), real>, p: nat, duration: real, c: nat)
    requires p >= 1 && Completed(times, p, c + 1)
    ensures ReductionAt(times, p, duration, c) < ReductionAt(times, p, duration, c + 1)
  {
    assert AllEntered(times, p, c);
  }

  /** No process waits for ever in a reduction that another one has left the loop without joining:
      until all have stopped, some process can move. */
  lemma NoDeadlock(p: nat, duration: real, events: seq<Event>, r: int)
    requires 0 <= r < p
    ensures var s := Run(p, duration, events);
      |s.ranks| == p && (s.ranks[r].phase != Stopped ==> exists q :: CanMove(s, q))
  {
    hide Run, Gap, Global, ReductionAt;
    RunInv(p, duration, events);
    var s := Run(p, duration, events);
    var k := s.ranks[r];
    assert RankOk(s, r, duration);
    if k.phase != Stopped && !CanMove(s, r) {
      var q :| 0 <= q < p && !((q, k.reductions) in s.times && s.times[(q, k.reductions)] >= 0.0);
      assert RankOk(s, q, duration);
      assert !Entered(s.ranks[q], k.reductions);
      Agreement(p, duration, events, q, r);
      assert CanMove(s, q);
    }
  }

  // ----- the loop of one process -----

  /** The iterations of the reductions, given their results. */
  function Plan(duration: real, globals: seq<real>, c: nat): int
    requires c <= |globals| && forall k | 0 <= k < |globals| :: globals[k] >= 0.0
    decreases c
  {
    if c == 0 then 0 else Plan(duration, globals, c - 1) + Gap(duration, globals[c - 1], Plan(duration, globals, c - 1))
  }

  /** The plan of one process is the schedule of all, when the results are those of the reductions. */
  lemma {:induction false} PlanIsSchedule(times: map<(int, nat), real>, p: nat, duration: real, globals: seq<real>,
                                          c: nat)
    requires p >= 1 && c <= |globals| && Completed(times, p, |globals|)
    requires forall k: nat | k < |globals| :: AllEntered(times, p, k) && globals[k] == Global(times, p, k)
    ensures (forall k: nat | k < |globals| :: globals[k] >= 0.0) && Completed(times, p, c)
    ensures Plan(duration, globals, c) == ReductionAt(times, p, duration, c)
    decreases c
  {
    hide Gap, Global;
    if c > 0 { PlanIsSchedule(times, p, duration, globals, c - 1); }
  }

  /** The loop as one process runs it, the results of the reductions being what the others make them;
      the last one ends the run. */
  method MainLoop(duration: real, globals: seq<real>) returns (ii: int, reduced: seq<int>)
    requires |globals| >= 1 && forall k | 0 <= k < |globals| :: globals[k] >= 0.0
    requires globals[|globals| - 1] >= duration && forall k | 0 <= k < |globals| - 1 :: globals[k] < duration
    ensures |reduced| == |globals| && ii == reduced[|reduced| - 1]
    ensures forall c | 0 <= c < |reduced| :: reduced[c] == Plan(duration, globals, c)
  {
    hide Gap;
    var nextReduce := 0;
    ii, reduced := 0, [];
    while true
      invariant |reduced| < |globals|
      invariant nextReduce == Plan(duration, globals, |reduced|)
      invariant ii <= nextReduce
      invariant forall c | 0 <= c < |reduced| :: reduced[c] == Plan(duration, globals, c)
      decreases |globals| - |reduced|, nextReduce - ii
    {
      if ii >= nextReduce {
        var global := globals[|reduced|];
        reduced := reduced + [ii];
        if global >= duration {
          break;
        }
        nextReduce := ii + Gap(duration, global, ii);
      }
      ii := ii + 1;
    }
  }
}
