/** The example solver: a five-point stencil on a grid split over a grid of processes, each with a
    border of ghost cells refreshed by four shifts after every iteration. */
module HaloExchange {

  type Cell = real

  /** Any function of a cell and its left, right, upper and lower neighbours. */
  type Stencil = (Cell, Cell, Cell, Cell, Cell) -> Cell

  /** The value of each cell by row and column. */
  type Grid = (int, int) -> Cell

  /** The local grid of each process by its coordinates. */
  type World = (int, int) -> Grid

  /** `rows` by `cols` processes, each with `n` by `m` cells of its own and a ghost border. `order` gives, for each rank
      in the communicator of the grid, the rank that the process has in the world: MPI may change one for the other. */
  datatype Layout = Layout(rows: int, cols: int, n: nat, m: nat, order: seq<nat>)

  ghost predicate Valid(l: Layout) {
    l.rows >= 1 && l.cols >= 1 && IsReordering(l.order, l.rows * l.cols)
  }

  ghost predicate IsReordering(order: seq<nat>, count: int) {
    && |order| == count
    && (forall i, j | 0 <= i < j < |order| :: order[i] != order[j])
    && (forall r: nat :: r in order <==> r < count)
  }

  ghost predicate Process(l: Layout, a: int, b: int) {
    0 <= a < l.rows && 0 <= b < l.cols
  }

  ghost predicate Local(l: Layout, y: int, x: int) {
    0 <= y <= l.n + 1 && 0 <= x <= l.m + 1
  }

  // ----- the loops of one process -----

  const HOT: Cell := 1000000.0

  /** `init` of a process in column `pcol` of the process grid */
  function Init(pcol: int): Grid {
    (y, x) => if pcol == 0 && x == 0 then HOT else 0.0
  }

  function IterAt(n: nat, m: nat, g: Grid, f: Stencil, y: int, x: int): Cell {
    if 1 <= y <= n && 1 <= x <= m then
      f(g(y, x), g(y, x - 1), g(y, x + 1), g(y - 1, x), g(y + 1, x))
    else
      g(y, x)
  }

  /** `iter` on `n` by `m` cells and their border */
  function Iter(n: nat, m: nat, g: Grid, f: Stencil): Grid {
    (y, x) => IterAt(n, m, g, f, y, x)
  }

  /** The array holds the grid. */
  ghost predicate Holds(dat: array2<Cell>, g: Grid)
    reads dat
  {
    forall y, x | 0 <= y < dat.Length0 && 0 <= x < dat.Length1 :: dat[y, x] == g(y, x)
  }

  method InitArray(pcol: int, dat: array2<Cell>)
    requires dat.Length1 >= 1
    modifies dat
    ensures Holds(dat, Init(pcol))
  {
    for yy := 0 to dat.Length0
      invariant forall y, x | 0 <= y < yy && 0 <= x < dat.Length1 :: dat[y, x] == 0.0
    {
      for xx := 0 to dat.Length1
        invariant forall y, x | 0 <= y < yy && 0 <= x < dat.Length1 :: dat[y, x] == 0.0
        invariant forall x | 0 <= x < xx :: dat[yy, x] == 0.0
      {
        dat[yy, xx] := 0.0;
      }
    }
    if pcol == 0 {
      for yy := 0 to dat.Length0
        invariant forall y, x | 0 <= y < dat.Length0 && 0 <= x < dat.Length1 ::
          dat[y, x] == if y < yy && x == 0 then HOT else 0.0
      {
        dat[yy, 0] := HOT;
      }
    }
  }

  method IterArray(cur: array2<Cell>, next: array2<Cell>, f: Stencil, ghost g: Grid)
    requires cur != next && cur.Length0 == next.Length0 >= 2 && cur.Length1 == next.Length1 >= 2
    requires Holds(cur, g)
    modifies next
    ensures Holds(next, Iter(cur.Length0 - 2, cur.Length1 - 2, g, f))
    ensures forall y, x | 1 <= y < cur.Length0 - 1 && 1 <= x < cur.Length1 - 1 ::
      next[y, x] == f(cur[y, x], cur[y, x - 1], cur[y, x + 1], cur[y - 1, x], cur[y + 1, x])
  {
    CopyRow(cur, next, 0);
    for yy := 1 to cur.Length0 - 1
      invariant forall y, x | 0 <= y < yy && 0 <= x < next.Length1 ::
        next[y, x] == IterAt(next.Length0 - 2, next.Length1 - 2, g, f, y, x)
    {
      IterRow(cur, next, yy, f, g);
    }
    CopyRow(cur, next, cur.Length0 - 1);
  }

  method CopyRow(cur: array2<Cell>, next: array2<Cell>, y: nat)
    requires cur != next && cur.Length0 == next.Length0 && cur.Length1 == next.Length1 && y < cur.Length0
    modifies next
    ensures forall x | 0 <= x < next.Length1 :: next[y, x] == cur[y, x]
    ensures forall v, u | 0 <= v < next.Length0 && 0 <= u < next.Length1 && v != y :: next[v, u] == old(next[v, u])
  {
    for xx := 0 to cur.Length1
      invariant forall x | 0 <= x < xx :: next[y, x] == cur[y, x]
      invariant forall v, u | 0 <= v < next.Length0 && 0 <= u < next.Length1 && v != y :: next[v, u] == old(next[v, u])
    {
      next[y, xx] := cur[y, xx];
    }
  }

  /** An inner row: the two ends are kept, the stencil applies in between. */
  method IterRow(cur: array2<Cell>, next: array2<Cell>, y: nat, f: Stencil, ghost g: Grid)
    requires cur != next && cur.Length0 == next.Length0 && cur.Length1 == next.Length1 >= 2
    requires 1 <= y < cur.Length0 - 1 && Holds(cur, g)
    modifies next
    ensures forall x | 0 <= x < next.Length1 :: next[y, x] == IterAt(next.Length0 - 2, next.Length1 - 2, g, f, y, x)
    ensures forall v, u | 0 <= v < next.Length0 && 0 <= u < next.Length1 && v != y :: next[v, u] == old(next[v, u])
  {
    next[y, 0] := cur[y, 0];
    for xx := 1 to cur.Length1 - 1
      invariant forall x | 0 <= x < xx :: next[y, x] == IterAt(next.Length0 - 2, next.Length1 - 2, g, f, y, x)
      invariant forall v, u | 0 <= v < next.Length0 && 0 <= u < next.Length1 && v != y :: next[v, u] == old(next[v, u])
    {
      next[y, xx] := f(cur[y, xx], cur[y, xx - 1], cur[y, xx + 1], cur[y - 1, xx], cur[y + 1, xx]);
    }
    next[y, cur.Length1 - 1] := cur[y, cur.Length1 - 1];
  }

  // ----- exchange -----

  /** The four `MPI_Sendrecv` of `exchange`, in order. */
  datatype Direction = Down | Up | Right | Left

  datatype Peer = ProcNull | Peer(a: int, b: int)

  /** `MPI_Cart_shift` on a non-periodic grid: whom a process sends to... */
  function Dest(l: Layout, d: Direction, a: int, b: int): Peer {
    match d
    case Down => if a + 1 < l.rows then Peer(a + 1, b) else ProcNull
    case Up => if a > 0 then Peer(a - 1, b) else ProcNull
    case Right => if b + 1 < l.cols then Peer(a, b + 1) else ProcNull
    case Left => if b > 0 then Peer(a, b - 1) else ProcNull
  }

  /** ... and whom it receives from. */
  function Source(l: Layout, d: Direction, a: int, b: int): Peer {
    match d
    case Down => if a > 0 then Peer(a - 1, b) else ProcNull
    case Up => if a + 1 < l.rows then Peer(a + 1, b) else ProcNull
    case Right => if b > 0 then Peer(a, b - 1) else ProcNull
    case Left => if b + 1 < l.cols then Peer(a, b + 1) else ProcNull
  }

  /** Each receive is matched by the send of the process it names, and conversely: no message is
      lost and no process waits for one that is not sent. */
  lemma ShiftMatches(l: Layout, d: Direction, a: int, b: int, c: int, e: int)
    requires Process(l, a, b) && Process(l, c, e)
    ensures Source(l, d, a, b) == Peer(c, e) <==> Dest(l, d, c, e) == Peer(a, b)
  {
  }

  /** The ghost cells that the receive of direction `d` overwrites. */
  predicate Receives(l: Layout, d: Direction, y: int, x: int) {
    match d
    case Down => y == 0 && 1 <= x <= l.m
    case Up => y == l.n + 1 && 1 <= x <= l.m
    case Right => x == 0 && 1 <= y <= l.n
    case Left => x == l.m + 1 && 1 <= y <= l.n
  }

  /** The cell of the sender that ends up in the received cell. */
  function Sent(l: Layout, d: Direction, g: Grid, y: int, x: int): Cell {
    match d
    case Down => g(l.n, x)
    case Up => g(1, x)
    case Right => g(y, l.m)
    case Left => g(y, 1)
  }

  function SendrecvAt(l: Layout, d: Direction, w: World, a: int, b: int, y: int, x: int): Cell {
    match Source(l, d, a, b)
    case ProcNull => w(a, b)(y, x)
    case Peer(c, e) => if Receives(l, d, y, x) then Sent(l, d, w(c, e), y, x) else w(a, b)(y, x)
  }

  /** All processes run one `MPI_Sendrecv`. */
  function Sendrecv(l: Layout, d: Direction, w: World): World {
    (a, b) => (y, x) => SendrecvAt(l, d, w, a, b, y, x)
  }

  function Exchange(l: Layout, w: World): World {
    Sendrecv(l, Left, Sendrecv(l, Right, Sendrecv(l, Up, Sendrecv(l, Down, w))))
  }

  /** The rank in the communicator of the grid, row by row. */
  function RankOf(l: Layout, a: int, b: int): int {
    a * l.cols + b
  }

  /** The column of a rank, by `MPI_Cart_coords`. */
  function ColumnOf(cols: int, rank: nat): nat
    decreases rank
  {
    if rank < cols || cols <= 0 then rank else ColumnOf(cols, rank - cols)
  }

  /** The column a process takes itself to be in. It looks up its rank in the world, although its place among the others
      is that of its rank in the communicator of the grid. */
  function StartColumn(l: Layout, a: int, b: int): int {
    var rank := RankOf(l, a, b);
    if 0 <= rank < |l.order| then ColumnOf(l.cols, l.order[rank]) else b
  }

  function InitAll(l: Layout): World {
    (a, b) => Init(StartColumn(l, a, b))
  }

  function IterAll(l: Layout, w: World, f: Stencil): World {
    (a, b) => Iter(l.n, l.m, w(a, b), f)
  }

  /** The world after `k` rounds of `iter` and `exchange`. */
  function ParallelRun(l: Layout, f: Stencil, k: nat): World {
    if k == 0 then InitAll(l) else Exchange(l, IterAll(l, ParallelRun(l, f, k - 1), f))
  }

  /** The same program on one process that owns the whole grid. */
  function SequentialRun(l: Layout, f: Stencil, k: nat): Grid {
    if k == 0 then Init(0) else Iter(Height(l), Width(l), SequentialRun(l, f, k - 1), f)
  }

  // ----- coordinates -----

  function Row(l: Layout, a: int): int {
    a * l.n
  }

  function Column(l: Layout, b: int): int {
    b * l.m
  }

  function Height(l: Layout): nat {
    if l.rows >= 0 then l.rows * l.n else 0
  }

  function Width(l: Layout): nat {
    if l.cols >= 0 then l.cols * l.m else 0
  }

  lemma Coordinates(l: Layout, a: int, b: int)
    requires Valid(l) && Process(l, a, b)
    ensures 0 <= Row(l, a) && Row(l, a) + l.n <= Height(l)
    ensures 0 <= Column(l, b) && Column(l, b) + l.m <= Width(l)
    ensures Row(l, a) == Row(l, a - 1) + l.n && Row(l, a + 1) == Row(l, a) + l.n
    ensures Column(l, b) == Column(l, b - 1) + l.m && Column(l, b + 1) == Column(l, b) + l.m
    ensures l.n == 0 ==> Row(l, a) == 0 && Height(l) == 0
    ensures Row(l, 0) == 0 && Row(l, l.rows - 1) + l.n == Height(l)
    ensures Column(l, 0) == 0 && Column(l, l.cols - 1) + l.m == Width(l)
  {
    Blocks(l.rows, a, l.n);
    Blocks(l.cols, b, l.m);
  }

  /** Block `k` of `p` blocks of `n` cells. */
  lemma Blocks(p: int, k: int, n: nat)
    requires 0 <= k < p
    ensures 0 <= k * n && k * n + n <= p * n
    ensures k * n == (k - 1) * n + n && (k + 1) * n == k * n + n && (p - 1) * n + n == p * n
  {
    assert (k + 1) * n <= p * n;
  }

  // ----- agreement of a parallel and a sequential state -----

  predicate Corner(l: Layout, y: int, x: int) {
    (y == 0 || y == l.n + 1) && (x == 0 || x == l.m + 1)
  }

  /** On the fixed border of the whole grid. */
  predicate Border(l: Layout, y: int, x: int) {
    y == 0 || y == Height(l) + 1 || x == 0 || x == Width(l) + 1
  }

  /** A corner ghost inside the whole grid is never exchanged and never read; every other local
      cell stands for a cell of the whole grid. */
  predicate Tracked(l: Layout, a: int, b: int, y: int, x: int) {
    Corner(l, y, x) ==> Border(l, Row(l, a) + y, Column(l, b) + x)
  }

  ghost predicate CellAgrees(l: Layout, w: World, g: Grid, a: int, b: int, y: int, x: int) {
    Process(l, a, b) && Local(l, y, x) && Tracked(l, a, b, y, x) ==> w(a, b)(y, x) == g(Row(l, a) + y, Column(l, b) + x)
  }

  ghost predicate Agrees(l: Layout, w: World, g: Grid) {
    forall a, b, y, x :: CellAgrees(l, w, g, a, b, y, x)
  }

  /** What a cell holds after the four shifts: on the frame, except its corners, the nearest cell of the neighbour on
      that side, if there is one; anywhere else what it held. */
  function Exchanged(l: Layout, w: World, a: int, b: int, y: int, x: int): Cell {
    if y == 0 && 1 <= x <= l.m && a > 0 then w(a - 1, b)(l.n, x)
    else if y == l.n + 1 && 1 <= x <= l.m && a + 1 < l.rows then w(a + 1, b)(1, x)
    else if x == 0 && 1 <= y <= l.n && b > 0 then w(a, b - 1)(y, l.m)
    else if x == l.m + 1 && 1 <= y <= l.n && b + 1 < l.cols then w(a, b + 1)(y, 1)
    else w(a, b)(y, x)
  }

  /** The four shifts do not disturb each other. */
  lemma ExchangeCell(l: Layout, w: World, a: int, b: int, y: int, x: int)
    ensures Exchange(l, w)(a, b)(y, x) == Exchanged(l, w, a, b, y, x)
  {
    var w1 := Sendrecv(l, Down, w);
    var w2 := Sendrecv(l, Up, w1);
    var w3 := Sendrecv(l, Right, w2);
    assert Exchange(l, w)(a, b)(y, x) == SendrecvAt(l, Left, w3, a, b, y, x);
    RightCell(l, w, a, b, y, x);
    RightCell(l, w, a, b + 1, y, 1);
    UpCell(l, w, a, b, y, x);
  }

  lemma UpCell(l: Layout, w: World, a: int, b: int, y: int, x: int)
    ensures Sendrecv(l, Up, Sendrecv(l, Down, w))(a, b)(y, x) ==
      if Receives(l, Down, y, x) && a > 0 then w(a - 1, b)(l.n, x)
      else if Receives(l, Up, y, x) && a + 1 < l.rows then w(a + 1, b)(1, x)
      else w(a, b)(y, x)
  {
    var w1 := Sendrecv(l, Down, w);
    assert w1(a, b)(y, x) == SendrecvAt(l, Down, w, a, b, y, x);
    assert w1(a + 1, b)(1, x) == SendrecvAt(l, Down, w, a + 1, b, 1, x);
    assert Sendrecv(l, Up, w1)(a, b)(y, x) == SendrecvAt(l, Up, w1, a, b, y, x);
  }

  lemma RightCell(l: Layout, w: World, a: int, b: int, y: int, x: int)
    ensures var w2 := Sendrecv(l, Up, Sendrecv(l, Down, w));
      Sendrecv(l, Right, w2)(a, b)(y, x) ==
        if Receives(l, Right, y, x) && b > 0 then w(a, b - 1)(y, l.m) else w2(a, b)(y, x)
    ensures Receives(l, Left, y, x) || Receives(l, Right, y, x) || 1 <= y <= l.n ==>
      Sendrecv(l, Up, Sendrecv(l, Down, w))(a, b)(y, x) == w(a, b)(y, x)
  {
    var w2 := Sendrecv(l, Up, Sendrecv(l, Down, w));
    UpCell(l, w, a, b, y, x);
    UpCell(l, w, a, b - 1, y, l.m);
    assert Sendrecv(l, Right, w2)(a, b)(y, x) == SendrecvAt(l, Right, w2, a, b, y, x);
  }

  /** One round on one cell: an own cell is computed from agreeing neighbours, a ghost is received
      from the process that owns it, and a border cell stays. */
  lemma RoundCell(l: Layout, w: World, g: Grid, f: Stencil, a: int, b: int, y: int, x: int)
    requires Valid(l) && (l.m >= 1 || l.cols == 1) && Agrees(l, w, g)
    requires Process(l, a, b) && Local(l, y, x) && Tracked(l, a, b, y, x)
    ensures Exchanged(l, IterAll(l, w, f), a, b, y, x)
         == Iter(Height(l), Width(l), g, f)(Row(l, a) + y, Column(l, b) + x)
  {
    hide Row, Column, Height, Width, Agrees, IterAll, Iter;
    Coordinates(l, a, b);
    if Receives(l, Down, y, x) && a > 0 {
      IterCell(l, w, g, f, a - 1, b, l.n, x);
    } else if Receives(l, Up, y, x) && a + 1 < l.rows {
      IterCell(l, w, g, f, a + 1, b, 1, x);
    } else if Receives(l, Right, y, x) && b > 0 {
      IterCell(l, w, g, f, a, b - 1, y, l.m);
    } else if Receives(l, Left, y, x) && b + 1 < l.cols {
      IterCell(l, w, g, f, a, b + 1, y, 1);
    } else {
      IterCell(l, w, g, f, a, b, y, x);
    }
  }

  /** After `iter` alone, own cells and border cells agree with the next sequential state. */
  lemma IterCell(l: Layout, w: World, g: Grid, f: Stencil, a: int, b: int, y: int, x: int)
    requires Valid(l) && Agrees(l, w, g)
    requires Process(l, a, b) && Local(l, y, x) && Tracked(l, a, b, y, x)
    requires (1 <= y <= l.n && 1 <= x <= l.m) || Border(l, Row(l, a) + y, Column(l, b) + x)
    ensures IterAll(l, w, f)(a, b)(y, x) == Iter(Height(l), Width(l), g, f)(Row(l, a) + y, Column(l, b) + x)
  {
    hide Row, Column, Height, Width, Agrees;
    Coordinates(l, a, b);
    AgreesAt(l, w, g, a, b, y, x);
    assert IterAll(l, w, f)(a, b)(y, x) == IterAt(l.n, l.m, w(a, b), f, y, x);
    if 1 <= y <= l.n && 1 <= x <= l.m {
      AgreesAt(l, w, g, a, b, y, x - 1);
      AgreesAt(l, w, g, a, b, y, x + 1);
      AgreesAt(l, w, g, a, b, y - 1, x);
      AgreesAt(l, w, g, a, b, y + 1, x);
    }
  }

  lemma RoundAgrees(l: Layout, w: World, g: Grid, f: Stencil)
    requires Valid(l) && (l.m >= 1 || l.cols == 1) && Agrees(l, w, g)
    ensures Agrees(l, Exchange(l, IterAll(l, w, f)), Iter(Height(l), Width(l), g, f))
  {
    hide Agrees, Exchange, Exchanged, IterAll, Iter, Row, Column, Height, Width, Tracked;
    var w', g' := Exchange(l, IterAll(l, w, f)), Iter(Height(l), Width(l), g, f);
    forall a, b, y, x
      ensures CellAgrees(l, w', g', a, b, y, x)
    {
      if Process(l, a, b) && Local(l, y, x) && Tracked(l, a, b, y, x) {
        RoundCell(l, w, g, f, a, b, y, x);
        ExchangeCell(l, IterAll(l, w, f), a, b, y, x);
      }
    }
    AgreesIntro(l, w', g');
  }

  lemma AgreesAt(l: Layout, w: World, g: Grid, a: int, b: int, y: int, x: int)
    requires Agrees(l, w, g) && Process(l, a, b) && Local(l, y, x) && Tracked(l, a, b, y, x)
    ensures w(a, b)(y, x) == g(Row(l, a) + y, Column(l, b) + x)
  {
    assert CellAgrees(l, w, g, a, b, y, x);
  }

  lemma AgreesIntro(l: Layout, w: World, g: Grid)
    requires forall a, b, y, x :: CellAgrees(l, w, g, a, b, y, x)
    ensures Agrees(l, w, g)
  {
  }

  /** A process takes itself to be in the first column exactly when its cells start at the border of the whole grid. */
  ghost predicate Placed(l: Layout) {
    forall a, b :: WellPlaced(l, a, b)
  }

  ghost predicate WellPlaced(l: Layout, a: int, b: int) {
    Process(l, a, b) ==> (StartColumn(l, a, b) == 0 <==> Column(l, b) == 0)
  }

  lemma InitAgrees(l: Layout)
    requires Valid(l) && Placed(l)
    ensures Agrees(l, InitAll(l), Init(0))
  {
    hide Row, Column, Height, Width, StartColumn;
    forall a, b, y, x
      ensures CellAgrees(l, InitAll(l), Init(0), a, b, y, x)
    {
      if Process(l, a, b) {
        Coordinates(l, a, b);
        assert WellPlaced(l, a, b);
      }
    }
  }

  /** Agreement of the first cells shows where a process takes itself to be. */
  lemma StartsPlaced(l: Layout, a: int, b: int)
    requires Valid(l) && Agrees(l, InitAll(l), Init(0))
    ensures WellPlaced(l, a, b)
  {
    hide Row, Column, Height, Width, StartColumn, Agrees;
    if Process(l, a, b) {
      Coordinates(l, a, b);
      var y := if l.n == 0 || Column(l, b) == 0 then 0 else 1;
      AgreesAt(l, InitAll(l), Init(0), a, b, y, 0);
    }
  }

  lemma PlaceOfRank(l: Layout, c: nat) returns (a: int, b: int)
    requires Valid(l) && c < l.rows * l.cols
    ensures Process(l, a, b) && RankOf(l, a, b) == c
  {
    a, b := c / l.cols, c % l.cols;
    assert c == a * l.cols + b;
    assert a >= l.rows ==> a * l.cols >= l.rows * l.cols;
  }

  /** In several columns that own no column of cells, some process takes itself to be in another one than the first. */
  lemma NoneOwned(l: Layout)
    requires Valid(l) && l.m == 0 && l.cols > 1
    ensures !Placed(l)
  {
    assert 1 < l.rows * l.cols by { assert l.rows * l.cols >= l.cols; }
    assert 1 in l.order;
    var c :| 0 <= c < |l.order| && l.order[c] == 1;
    var a, b := PlaceOfRank(l, c);
    assert !WellPlaced(l, a, b);
  }

  lemma PlacedOwns(l: Layout)
    requires Valid(l) && Placed(l)
    ensures l.m >= 1 || l.cols == 1
  {
    hide Placed, Valid;
    if l.m == 0 && l.cols > 1 { NoneOwned(l); }
    assert l.cols >= 1 by { SomeColumn(l); }
  }

  lemma SomeColumn(l: Layout)
    requires Valid(l)
    ensures l.cols >= 1
  {
  }

  lemma {:induction false} ColumnInRow(cols: int, a: nat, b: nat)
    requires b < cols
    ensures a * cols >= 0 && ColumnOf(cols, a * cols + b) == b
    decreases a
  {
    if a > 0 {
      assert a * cols == (a - 1) * cols + cols;
      ColumnInRow(cols, a - 1, b);
    } else {
      assert a * cols == 0;
    }
  }

  /** Without reordering, they are placed exactly when they have a column of their own or there is one column of
      processes. */
  lemma PlacedInOrderIff(l: Layout)
    requires Valid(l) && forall c | 0 <= c < |l.order| :: l.order[c] == c
    ensures Placed(l) <==> l.m >= 1 || l.cols == 1
  {
    hide IsReordering;
    if l.m >= 1 || l.cols == 1 {
      forall a, b
        ensures WellPlaced(l, a, b)
      {
        if Process(l, a, b) {
          RankInside(l, a, b);
          ColumnInRow(l.cols, a, b);
          ColumnZeroIff(l, b);
        }
      }
    } else {
      NoneOwned(l);
    }
  }

  lemma RankInside(l: Layout, a: int, b: int)
    requires Valid(l) && Process(l, a, b)
    ensures 0 <= RankOf(l, a, b) < |l.order|
  {
    assert (a + 1) * l.cols <= l.rows * l.cols;
    assert (a + 1) * l.cols == a * l.cols + l.cols;
    assert a * l.cols >= 0;
  }

  lemma ColumnZeroIff(l: Layout, b: int)
    requires 0 <= b < l.cols && (l.m >= 1 || l.cols == 1)
    ensures Column(l, b) == 0 <==> b == 0
  {
    assert b >= 1 ==> b * l.m >= l.m;
  }

  ghost predicate AgreesAfter(l: Layout, f: Stencil, k: nat) {
    Agrees(l, ParallelRun(l, f, k), SequentialRun(l, f, k))
  }

  /** After any number of iterations, for any stencil, every process holds exactly its cells of the
      sequential run, every ghost that is not an inner corner included. */
  lemma {:induction false} ParallelIsSequential(l: Layout, f: Stencil, k: nat)
    requires Valid(l) && Placed(l)
    ensures AgreesAfter(l, f, k)
    decreases k
  {
    hide Agrees, Exchange, IterAll, Iter, Placed;
    if k == 0 {
      InitAgrees(l);
    } else {
      ParallelIsSequential(l, f, k - 1);
      PlacedOwns(l);
      RoundAgrees(l, ParallelRun(l, f, k - 1), SequentialRun(l, f, k - 1), f);
    }
  }

  /** Whatever ranks MPI exchanged, agreement at all times is exactly that every process is placed. */
  lemma ParallelIsSequentialIff(l: Layout, f: Stencil)
    requires Valid(l)
    ensures (forall k: nat :: AgreesAfter(l, f, k)) <==> Placed(l)
  {
    hide Agrees, WellPlaced, Exchange, IterAll, Iter;
    if Placed(l) {
      forall k: nat
        ensures AgreesAfter(l, f, k)
      {
        ParallelIsSequential(l, f, k);
      }
    }
    if forall k: nat :: AgreesAfter(l, f, k) {
      assert AgreesAfter(l, f, 0);
      forall a, b
        ensures WellPlaced(l, a, b)
      {
        StartsPlaced(l, a, b);
      }
    }
  }

  lemma TwoRanks(l: Layout)
    requires l.rows == 1 && l.cols == 2 && (l.order == [0, 1] || l.order == [1, 0])
    ensures Valid(l) && StartColumn(l, 0, 0) == l.order[0] && StartColumn(l, 0, 1) == l.order[1]
  {
    assert l.rows * l.cols == 2;
    assert RankOf(l, 0, 0) == 0 && RankOf(l, 0, 1) == 1;
  }

  /** A process at the hot border that takes itself to be elsewhere starts cold. */
  lemma ColdStart(l: Layout, f: Stencil, a: int, b: int)
    requires Process(l, a, b) && l.n >= 1 && Column(l, b) == 0 && StartColumn(l, a, b) != 0
    ensures !AgreesAfter(l, f, 0)
    ensures SequentialRun(l, f, 0)(Row(l, a) + 1, Column(l, b)) == 1000000.0 && ParallelRun(l, f, 0)(a, b)(1, 0) == 0.0
  {
    hide Row, Column, StartColumn, Height, Width;
    assert !CellAgrees(l, InitAll(l), Init(0), a, b, 1, 0);
  }

  /** Two processes side by side that own one row and no column: the hot border of the grid is the left ghost column of
      both, but the second starts cold there. */
  lemma ColdSecondColumn(l: Layout, f: Stencil)
    requires l == Layout(1, 2, 1, 0, [0, 1])
    ensures Valid(l) && !AgreesAfter(l, f, 0)
    ensures SequentialRun(l, f, 0)(Row(l, 0) + 1, Column(l, 1)) == 1000000.0 && ParallelRun(l, f, 0)(0, 1)(1, 0) == 0.0
  {
    hide Valid, StartColumn, AgreesAfter, SequentialRun, ParallelRun;
    TwoRanks(l);
    assert Column(l, 1) == 0;
    ColdStart(l, f, 0, 1);
  }

  /** Two processes side by side with a cell each, whose ranks MPI has exchanged: the left one starts cold at the hot
      border. */
  lemma SwappedRanks(l: Layout, f: Stencil)
    requires l == Layout(1, 2, 1, 1, [1, 0])
    ensures Valid(l) && !AgreesAfter(l, f, 0)
    ensures SequentialRun(l, f, 0)(Row(l, 0) + 1, Column(l, 0)) == 1000000.0 && ParallelRun(l, f, 0)(0, 0)(1, 0) == 0.0
  {
    hide Valid, StartColumn, AgreesAfter, SequentialRun, ParallelRun;
    TwoRanks(l);
    assert Column(l, 0) == 0;
    ColdStart(l, f, 0, 0);
  }

  /** The border of the whole grid never changes. */
  lemma {:induction false} BorderIsConstant(l: Layout, f: Stencil, k: nat, y: int, x: int)
    requires Border(l, y, x)
    ensures SequentialRun(l, f, k)(y, x) == Init(0)(y, x)
    decreases k
  {
    if k > 0 { BorderIsConstant(l, f, k - 1, y, x); }
  }

  /** The main loop of all processes in step: iterate, exchange, swap. */
  method Simulate(l: Layout, f: Stencil, iterations: nat) returns (cur: World)
    requires Valid(l) && Placed(l)
    ensures Agrees(l, cur, SequentialRun(l, f, iterations))
  {
    hide Agrees, Exchange, IterAll, Iter, Sendrecv, Placed;
    PlacedOwns(l);
    cur := InitAll(l);
    InitAgrees(l);
    var next: World := InitAll(l);
    for ii := 0 to iterations
      invariant Agrees(l, cur, SequentialRun(l, f, ii))
    {
      RoundAgrees(l, cur, SequentialRun(l, f, ii), f);
      next := IterAll(l, cur, f);
      next := Exchange(l, next);
      cur, next := next, cur;
    }
  }
}
