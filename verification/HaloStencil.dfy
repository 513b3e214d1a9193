/** What one iteration of the example solver does to a grid, without saying how: which cells it reads, that it treats
    the two directions of each axis and the two axes alike, and what the stencil of the program keeps. */
module HaloStencil {
  import opened HaloExchange

  // ----- which cells are read -----

  /** Inside, the five arguments of the stencil are the cell and its left, right, upper and lower neighbours. */
  lemma ReadsNeighbours(n: nat, m: nat, g: Grid, y: int, x: int)
    requires 1 <= y <= n && 1 <= x <= m
    ensures Iter(n, m, g, (c, l, r, u, d) => c)(y, x) == g(y, x)
    ensures Iter(n, m, g, (c, l, r, u, d) => l)(y, x) == g(y, x - 1)
    ensures Iter(n, m, g, (c, l, r, u, d) => r)(y, x) == g(y, x + 1)
    ensures Iter(n, m, g, (c, l, r, u, d) => u)(y, x) == g(y - 1, x)
    ensures Iter(n, m, g, (c, l, r, u, d) => d)(y, x) == g(y + 1, x)
  {
  }

  /** Outside, cells stay. */
  lemma KeepsFrame(n: nat, m: nat, g: Grid, f: Stencil, y: int, x: int)
    requires !(1 <= y <= n && 1 <= x <= m)
    ensures Iter(n, m, g, f)(y, x) == g(y, x)
  {
  }

  // ----- symmetry -----

  function UpsideDown(n: nat, g: Grid): Grid {
    (y, x) => g(n + 1 - y, x)
  }

  function Mirrored(m: nat, g: Grid): Grid {
    (y, x) => g(y, m + 1 - x)
  }

  function Transposed(g: Grid): Grid {
    (y, x) => g(x, y)
  }

  lemma UpsideDownIter(n: nat, m: nat, g: Grid, f: Stencil, y: int, x: int)
    ensures Iter(n, m, UpsideDown(n, g), f)(y, x) ==
      UpsideDown(n, Iter(n, m, g, (c, l, r, u, d) => f(c, l, r, d, u)))(y, x)
  {
    assert n + 1 - (y - 1) == n + 1 - y + 1 && n + 1 - (y + 1) == n + 1 - y - 1;
    assert UpsideDown(n, g)(y - 1, x) == g(n + 1 - y + 1, x) && UpsideDown(n, g)(y + 1, x) == g(n + 1 - y - 1, x);
  }

  lemma MirroredIter(n: nat, m: nat, g: Grid, f: Stencil, y: int, x: int)
    ensures Iter(n, m, Mirrored(m, g), f)(y, x) ==
      Mirrored(m, Iter(n, m, g, (c, l, r, u, d) => f(c, r, l, u, d)))(y, x)
  {
    assert Mirrored(m, g)(y, x - 1) == g(y, m + 1 - x + 1) && Mirrored(m, g)(y, x + 1) == g(y, m + 1 - x - 1);
  }

  lemma TransposedIter(n: nat, m: nat, g: Grid, f: Stencil, y: int, x: int)
    ensures Iter(m, n, Transposed(g), f)(y, x) ==
      Transposed(Iter(n, m, g, (c, l, r, u, d) => f(c, u, d, l, r)))(y, x)
  {
  }

  // ----- the stencil of the program -----

  /** Half of the cell and an eighth of each neighbour. */
  const HEAT: Stencil := (c, l, r, u, d) => c * 0.5 + l * 0.125 + r * 0.125 + u * 0.125 + d * 0.125

  /** A temperature that falls evenly in any direction stays. */
  lemma EvenSlopeStays(n: nat, m: nat, g: Grid, a: real, b: real, c: real, y: int, x: int)
    requires g == ((v, u) => a * v as real + b * u as real + c)
    ensures Iter(n, m, g, HEAT)(y, x) == g(y, x)
  {
    if 1 <= y <= n && 1 <= x <= m {
      var v, u := y as real, x as real;
      assert (y - 1) as real == v - 1.0 && (y + 1) as real == v + 1.0;
      assert (x - 1) as real == u - 1.0 && (x + 1) as real == u + 1.0;
      Slope(a, v);
      Slope(b, u);
    }
  }

  lemma Slope(a: real, v: real)
    ensures a * (v - 1.0) == a * v - a && a * (v + 1.0) == a * v + a
  {
  }

  ghost predicate Between(n: nat, m: nat, g: Grid, lo: Cell, hi: Cell) {
    forall y, x | 0 <= y <= n + 1 && 0 <= x <= m + 1 :: lo <= g(y, x) <= hi
  }

  /** Nothing gets colder than the coldest or hotter than the hottest cell. */
  lemma StaysBetween(n: nat, m: nat, g: Grid, lo: Cell, hi: Cell)
    requires Between(n, m, g, lo, hi)
    ensures Between(n, m, Iter(n, m, g, HEAT), lo, hi)
  {
    forall y, x | 0 <= y <= n + 1 && 0 <= x <= m + 1
      ensures lo <= Iter(n, m, g, HEAT)(y, x) <= hi
    {
      assert lo <= g(y, x) <= hi;
      if 1 <= y <= n && 1 <= x <= m {
        assert lo <= g(y, x - 1) <= hi && lo <= g(y, x + 1) <= hi && lo <= g(y - 1, x) <= hi && lo <= g(y + 1, x) <= hi;
      }
    }
  }

  lemma {:induction false} RunBetween(l: Layout, k: nat)
    ensures Between(Height(l), Width(l), SequentialRun(l, HEAT, k), 0.0, HOT)
    decreases k
  {
    hide Between, Iter;
    if k == 0 {
      assert Between(Height(l), Width(l), Init(0), 0.0, HOT) by { InitBetween(Height(l), Width(l)); }
    } else {
      RunBetween(l, k - 1);
      StaysBetween(Height(l), Width(l), SequentialRun(l, HEAT, k - 1), 0.0, HOT);
    }
  }

  lemma InitBetween(n: nat, m: nat)
    ensures Between(n, m, Init(0), 0.0, HOT)
  {
  }

  /** So every cell of every process stays between the cold and the hot border, at all times. */
  lemma ProcessesBetween(l: Layout, k: nat, a: int, b: int, y: int, x: int)
    requires Valid(l) && Placed(l) && Process(l, a, b) && Local(l, y, x) && Tracked(l, a, b, y, x)
    ensures 0.0 <= ParallelRun(l, HEAT, k)(a, b)(y, x) <= 1000000.0
  {
    hide Between, Placed, ParallelRun, SequentialRun, Tracked, Valid, Row, Column, Height, Width;
    ParallelIsSequential(l, HEAT, k);
    RunBetween(l, k);
    AgreesAt(l, ParallelRun(l, HEAT, k), SequentialRun(l, HEAT, k), a, b, y, x);
    Coordinates(l, a, b);
    BetweenAt(Height(l), Width(l), SequentialRun(l, HEAT, k), Row(l, a) + y, Column(l, b) + x);
  }

  lemma BetweenAt(n: nat, m: nat, g: Grid, y: int, x: int)
    requires Between(n, m, g, 0.0, HOT) && 0 <= y <= n + 1 && 0 <= x <= m + 1
    ensures 0.0 <= g(y, x) <= HOT
  {
  }
}
