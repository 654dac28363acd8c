/** The halo exchange example: a square grid of PEs, each with an inner square of cells and
    a halo one cell wide, and one tile put per neighbour. */
module Halo {
  import opened Arith
  import opened CopyOps
  import opened MachineInts
  import opened Tile
  import opened TileTheorems

  datatype Dir = North | South | East | West

  /** Neighbour of a PE in a `g` by `g` grid, or -1 at the border. */
  function Neighbour(g: nat, pe: nat, d: Dir): int
    requires g > 0
  {
    var row, col := pe / g, pe % g;
    match d
    case North => if row > 0 then (row - 1) * g + col else -1
    case South => if row < g - 1 then (row + 1) * g + col else -1
    case West => if col > 0 then row * g + (col - 1) else -1
    case East => if col < g - 1 then row * g + (col + 1) else -1
  }

  function Opposite(d: Dir): Dir {
    match d
    case North => South
    case South => North
    case East => West
    case West => East
  }

  /** Size of a float. */
  const FLOAT: nat := 4

  /** Number of a cell in a domain whose inner size is `n`, row by row. */
  function CellAt(n: nat, row: nat, col: nat): nat { row * (n + 2) + col }

  /** The same as the kernel computes it: the product is an `int`, the column is added to a
      pointer. */
  function KernelCell(n: nat, row: nat, col: nat): int { IntCast(row * (n + 2)) + col }

  /** A put of a row (north, south) or a column between cells `src` and `dst` of two domains,
      in bytes from a domain's base. */
  function LineView(n: nat, d: Dir, dst: int, src: int): View {
    var box := if d == North || d == South then Box(0, 0, 1, n) else Box(0, 0, n, 1);
    MakeView(dst * FLOAT, src * FLOAT, Strides(n + 2, 1), Strides(n + 2, 1), box, 2, FLOAT, true)
  }

  /** The put that the kernel makes in one direction. */
  function HaloView(n: nat, d: Dir): View {
    var total := n + 2;
    match d
    case North => LineView(n, d, KernelCell(n, total - 1, 1), KernelCell(n, 1, 1))
    case South => LineView(n, d, KernelCell(n, 0, 1), KernelCell(n, total - 2, 1))
    case East => LineView(n, d, KernelCell(n, 1, 0), KernelCell(n, 1, total - 2))
    case West => LineView(n, d, KernelCell(n, 1, total - 1), KernelCell(n, 1, 1))
  }

  /** A byte of some PE's domain. */
  datatype Place = Place(pe: nat, offset: int)

  /** The bytes that PE `p` copies to its neighbour in direction `d`. */
  ghost predicate Sends(g: nat, n: nat, count: nat, p: nat, d: Dir, op: Op<Place>)
    requires g > 0 && count > 0
  {
    && p < g * g && op.src.pe == p && op.dst.pe == Neighbour(g, p, d)
    && WorkersMove(HaloView(n, d), Wg, count, Op(op.dst.offset, op.src.offset))
  }

  /** Everything that all PEs copy. */
  ghost function HaloOps(g: nat, n: nat, count: nat): iset<Op<Place>>
    requires g > 0 && count > 0
  {
    iset op | SomeoneSends(g, n, count, op)
  }

  ghost predicate SomeoneSends(g: nat, n: nat, count: nat, op: Op<Place>)
    requires g > 0 && count > 0
  {
    exists p: nat, d: Dir :: Sends(g, n, count, p, d, op)
  }

  // The grid.

  /** Neighbours are neighbours of each other, in opposite directions. */
  lemma Reciprocal(g: nat, pe: nat, d: Dir)
    requires pe < g * g && g > 0 && Neighbour(g, pe, d) >= 0
    ensures var q := Neighbour(g, pe, d); q < g * g && Neighbour(g, q, Opposite(d)) == pe
  {
    var row, col := Locate(pe, g, g);
    match d {
      case North => Step(g, row - 1, col);
      case South => Step(g, row + 1, col);
      case East => Step(g, row, col + 1);
      case West => Step(g, row, col - 1);
    }
  }

  lemma Step(g: nat, row: nat, col: nat)
    requires row < g && col < g
    ensures var q := row * g + col; q < g * g && q / g == row && q % g == col
  {
    PositionBound(row, col, g, g);
    DivMod(row, col, g);
  }

  /** The PE in row `r` and column `c` has the one above as its northern neighbour, the one
      below as its southern, and so on, where the grid has one. */
  lemma NeighbourAt(g: nat, r: nat, c: nat)
    requires r < g && c < g
    ensures Neighbour(g, r * g + c, North) == if r > 0 then (r - 1) * g + c else -1
    ensures Neighbour(g, r * g + c, South) == if r + 1 < g then (r + 1) * g + c else -1
    ensures Neighbour(g, r * g + c, West) == if c > 0 then r * g + c - 1 else -1
    ensures Neighbour(g, r * g + c, East) == if c + 1 < g then r * g + c + 1 else -1
  {
    Step(g, r, c);
  }

  // The cells.

  /** The `k`-th cell that a put in direction `d` writes, and the one it reads. */
  function Target(n: nat, d: Dir, k: nat): (nat, nat) {
    match d
    case North => (n + 1, k)
    case South => (0, k)
    case East => (k, 0)
    case West => (k, n + 1)
  }

  function Origin(n: nat, d: Dir, k: nat): (nat, nat) {
    match d
    case North => (1, k)
    case South => (n, k)
    case East => (k, n)
    case West => (k, 1)
  }

  function Offset(n: nat, cell: (nat, nat), b: nat): nat { CellAt(n, cell.0, cell.1) * FLOAT + b }

  lemma LineShape(n: nat, d: Dir, dst: int, src: int, count: nat)
    requires n < SIZE_MOD
    ensures var v := LineView(n, d, dst, src);
            && v.ndim == 2 && v.es == FLOAT && v.dst == dst * FLOAT && v.src == src * FLOAT && Fits(v, Wg, count)
            && v.ss0 == v.ds0 == n + 2 && v.ss1 == v.ds1 == 1
            && v.ext0 == (if d == North || d == South then 1 else n)
            && v.ext1 == (if d == North || d == South then n else 1)
  {
  }

  lemma HaloShape(n: nat, d: Dir, count: nat)
    requires n < SIZE_MOD
    ensures var v := HaloView(n, d);
            && v.ndim == 2 && v.es == FLOAT && Fits(v, Wg, count)
            && v.ss0 == v.ds0 == n + 2 && v.ss1 == v.ds1 == 1
            && v.ext0 == (if d == North || d == South then 1 else n)
            && v.ext1 == (if d == North || d == South then n else 1)
  {
    var total := n + 2;
    match d
    case North => LineShape(n, d, KernelCell(n, total - 1, 1), KernelCell(n, 1, 1), count);
    case South => LineShape(n, d, KernelCell(n, 0, 1), KernelCell(n, total - 2, 1), count);
    case East => LineShape(n, d, KernelCell(n, 1, 0), KernelCell(n, 1, total - 2), count);
    case West => LineShape(n, d, KernelCell(n, 1, total - 1), KernelCell(n, 1, 1), count);
  }

  /** The largest product of the kernel, the start of the last row, is an `int`. */
  predicate HaloFits(n: nat) { (n + 1) * (n + 2) < INT_LIMIT }

  lemma KernelCellIs(n: nat, row: nat, col: nat)
    requires HaloFits(n) && row <= n + 1
    ensures KernelCell(n, row, col) == CellAt(n, row, col)
  {
    MulMonotone(row, n + 1, n + 2);
  }

  lemma HaloBase(n: nat, d: Dir)
    requires HaloFits(n)
    ensures n < INT_LIMIT
    ensures var v := HaloView(n, d);
            v.dst == Offset(n, Target(n, d, 1), 0) && v.src == Offset(n, Origin(n, d, 1), 0)
  {
    MulMonotone(1, n + 1, n + 2);
    var to, from := Target(n, d, 1), Origin(n, d, 1);
    KernelCellIs(n, to.0, to.1);
    KernelCellIs(n, from.0, from.1);
  }

  /** Element of the tile that holds cell `k`. */
  function Coord(d: Dir, k: nat): (nat, nat)
    requires k >= 1
  {
    if d == North || d == South then (0, k - 1) else (k - 1, 0)
  }

  lemma CellStep(n: nat, cell: (nat, nat), i: nat, j: nat)
    ensures Offset(n, (cell.0 + i, cell.1 + j), 0) == Offset(n, cell, 0) + (i * (n + 2) + j * 1) * FLOAT
  {
    assert (cell.0 + i) * (n + 2) == cell.0 * (n + 2) + i * (n + 2);
  }

  lemma HaloElement(n: nat, d: Dir, k: nat)
    requires HaloFits(n) && 1 <= k <= n
    ensures Element(HaloView(n, d), Coord(d, k).0, Coord(d, k).1)
         == Seg(Offset(n, Target(n, d, k), 0), Offset(n, Origin(n, d, k), 0), FLOAT)
  {
    HaloBase(n, d);
    HaloShape(n, d, 1);
    var (i, j) := Coord(d, k);
    CellStep(n, Target(n, d, 1), i, j);
    CellStep(n, Origin(n, d, 1), i, j);
  }

  ghost predicate Carries(n: nat, d: Dir, k: nat, b: nat, op: Op<int>) {
    && 1 <= k <= n && b < FLOAT
    && op == Op(Offset(n, Target(n, d, k), b), Offset(n, Origin(n, d, k), b))
  }

  /** The cells that a put should carry: the boundary row or column. */
  ghost predicate Carried(n: nat, d: Dir, op: Op<int>) { exists k: nat, b: nat :: Carries(n, d, k, b, op) }

  lemma CellBytes(n: nat, d: Dir, k: nat, op: Op<int>)
    requires 1 <= k <= n
    ensures Moves(Seg(Offset(n, Target(n, d, k), 0), Offset(n, Origin(n, d, k), 0), FLOAT), op)
       <==> exists b: nat :: Carries(n, d, k, b, op)
  {
    if Moves(Seg(Offset(n, Target(n, d, k), 0), Offset(n, Origin(n, d, k), 0), FLOAT), op) {
      assert Carries(n, d, k, op.dst - Offset(n, Target(n, d, k), 0), op);
    }
  }

  lemma TileCarries(n: nat, d: Dir, i: nat, j: nat, op: Op<int>) returns (k: nat, b: nat)
    requires HaloFits(n)
    requires var v := HaloView(n, d); i < Rows(v) && j < Cols(v) && Moves(Element(v, i, j), op)
    ensures Carries(n, d, k, b, op)
  {
    HaloBase(n, d);
    HaloShape(n, d, 1);
    k := i + j + 1;
    assert Coord(d, k) == (i, j);
    HaloElement(n, d, k);
    CellBytes(n, d, k, op);
    b :| Carries(n, d, k, b, op);
  }

  lemma CarriedByTile(n: nat, d: Dir, k: nat, b: nat, op: Op<int>)
    requires HaloFits(n) && Carries(n, d, k, b, op)
    ensures TileMoves(HaloView(n, d), op)
  {
    HaloBase(n, d);
    HaloShape(n, d, 1);
    HaloElement(n, d, k);
    CellBytes(n, d, k, op);
    assert Moves(Element(HaloView(n, d), Coord(d, k).0, Coord(d, k).1), op);
  }

  /** A put carries the boundary row or column, cell by cell and byte by byte. */
  lemma PutCarries(n: nat, d: Dir, count: nat, op: Op<int>)
    requires 0 < count < INT_LIMIT && HaloFits(n)
    ensures WorkersMove(HaloView(n, d), Wg, count, op) <==> Carried(n, d, op)
  {
    var v := HaloView(n, d);
    HaloBase(n, d);
    HaloShape(n, d, count);
    WorkersCopyTile(v, Wg, count, op);
    if i: nat, j: nat :| i < Rows(v) && j < Cols(v) && Moves(Element(v, i, j), op) {
      var k, b := TileCarries(n, d, i, j, op);
    }
    if k: nat, b: nat :| Carries(n, d, k, b, op) {
      CarriedByTile(n, d, k, b, op);
    }
  }

  /** An offset names one cell and one byte. */
  lemma SameOffset(n: nat, a: (nat, nat), x: nat, b: (nat, nat), y: nat)
    requires a.1 < n + 2 && b.1 < n + 2 && x < FLOAT && y < FLOAT && Offset(n, a, x) == Offset(n, b, y)
    ensures a == b && x == y
  {
    PositionUnique(CellAt(n, a.0, a.1), x, CellAt(n, b.0, b.1), y, FLOAT);
    PositionUnique(a.0, a.1, b.0, b.1, n + 2);
  }

  /** Writes go to halos, reads come from inner cells, and a halo cell tells the put. */
  lemma TargetsApart(n: nat, d: Dir, k: nat, e: Dir, l: nat)
    requires 1 <= k <= n && 1 <= l <= n
    ensures Target(n, d, k) != Origin(n, e, l)
    ensures Target(n, d, k) == Target(n, e, l) ==> d == e && k == l
  {
  }

  /** What a PE sends, as a copy of one byte of one cell. */
  lemma SentCell(g: nat, n: nat, count: nat, p: nat, d: Dir, op: Op<Place>) returns (k: nat, b: nat)
    requires g > 0 && 0 < count < INT_LIMIT && HaloFits(n) && Sends(g, n, count, p, d, op)
    ensures Carries(n, d, k, b, Op(op.dst.offset, op.src.offset))
  {
    var byte: Op<int> := Op(op.dst.offset, op.src.offset);
    PutCarries(n, d, count, byte);
    k, b :| Carries(n, d, k, b, byte);
  }

  /** No written byte is read. */
  lemma NeverRead(g: nat, n: nat, count: nat, p: nat, d: Dir, a: Op<Place>, q: nat, e: Dir, b: Op<Place>)
    requires g > 0 && 0 < count < INT_LIMIT && HaloFits(n)
    requires Sends(g, n, count, p, d, a) && Sends(g, n, count, q, e, b)
    ensures a.dst != b.src
  {
    var k, s := SentCell(g, n, count, p, d, a);
    var l, t := SentCell(g, n, count, q, e, b);
    TargetsApart(n, d, k, e, l);
    if a.dst.offset == b.src.offset {
      SameOffset(n, Target(n, d, k), s, Origin(n, e, l), t);
    }
  }

  /** A byte that some PE writes is written by one PE, in one direction, from one place. */
  lemma OneWriter(g: nat, n: nat, count: nat, p: nat, d: Dir, a: Op<Place>, q: nat, e: Dir, b: Op<Place>)
    requires g > 0 && 0 < count < INT_LIMIT && HaloFits(n)
    requires Sends(g, n, count, p, d, a) && Sends(g, n, count, q, e, b) && a.dst == b.dst
    ensures p == q && d == e && a == b
  {
    var k, s := SentCell(g, n, count, p, d, a);
    var l, t := SentCell(g, n, count, q, e, b);
    TargetsApart(n, d, k, e, l);
    SameOffset(n, Target(n, d, k), s, Target(n, e, l), t);
    Reciprocal(g, p, d);
    Reciprocal(g, q, e);
  }

  /** No two puts write the same byte, and none writes a byte that another reads. */
  lemma RaceFree(g: nat, n: nat, count: nat)
    requires g > 0 && 0 < count < INT_LIMIT && HaloFits(n)
    ensures Independent(HaloOps(g, n, count))
  {
    var all := HaloOps(g, n, count);
    forall a, b | a in all && b in all ensures a.dst != b.src && (a.dst == b.dst ==> a.src == b.src) {
      var p: nat, d: Dir :| Sends(g, n, count, p, d, a);
      var q: nat, e: Dir :| Sends(g, n, count, q, e, b);
      NeverRead(g, n, count, p, d, a, q, e, b);
      if a.dst == b.dst {
        OneWriter(g, n, count, p, d, a, q, e, b);
      }
    }
  }

  // What the exchange leaves in memory.

  /** Where the byte at `(row, col)` of a PE comes from. */
  function Source(g: nat, n: nat, pe: nat, row: nat, col: nat, b: nat): Place
    requires g > 0
  {
    if row == 0 && 1 <= col <= n && Neighbour(g, pe, North) >= 0 then
      Place(Neighbour(g, pe, North), Offset(n, (n, col), b))
    else if row == n + 1 && 1 <= col <= n && Neighbour(g, pe, South) >= 0 then
      Place(Neighbour(g, pe, South), Offset(n, (1, col), b))
    else if col == 0 && 1 <= row <= n && Neighbour(g, pe, West) >= 0 then
      Place(Neighbour(g, pe, West), Offset(n, (row, n), b))
    else if col == n + 1 && 1 <= row <= n && Neighbour(g, pe, East) >= 0 then
      Place(Neighbour(g, pe, East), Offset(n, (row, 1), b))
    else Place(pe, Offset(n, (row, col), b))
  }

  lemma Arrives(g: nat, n: nat, count: nat, pe: nat, d: Dir, k: nat, b: nat)
    requires g > 0 && 0 < count < INT_LIMIT && HaloFits(n) && pe < g * g && Neighbour(g, pe, d) >= 0
    requires 1 <= k <= n && b < FLOAT
    ensures var from := Opposite(d);
            Op(Place(pe, Offset(n, Target(n, from, k), b)),
               Place(Neighbour(g, pe, d), Offset(n, Origin(n, from, k), b))) in HaloOps(g, n, count)
  {
    var from, q := Opposite(d), Neighbour(g, pe, d);
    Reciprocal(g, pe, d);
    var byte: Op<int> := Op(Offset(n, Target(n, from, k), b), Offset(n, Origin(n, from, k), b));
    assert Carries(n, from, k, b, byte);
    PutCarries(n, from, count, byte);
    assert Sends(g, n, count, q, from, Op(Place(pe, byte.dst), Place(q, byte.src)));
  }

  /** A byte that comes from elsewhere is one of the copies. */
  lemma Received(g: nat, n: nat, count: nat, pe: nat, row: nat, col: nat, b: nat)
    requires g > 0 && 0 < count < INT_LIMIT && HaloFits(n) && pe < g * g && row < n + 2 && col < n + 2 && b < FLOAT
    requires Source(g, n, pe, row, col, b) != Place(pe, Offset(n, (row, col), b))
    ensures Op(Place(pe, Offset(n, (row, col), b)), Source(g, n, pe, row, col, b)) in HaloOps(g, n, count)
  {
    if row == 0 && 1 <= col <= n && Neighbour(g, pe, North) >= 0 {
      Arrives(g, n, count, pe, North, col, b);
    } else if row == n + 1 && 1 <= col <= n && Neighbour(g, pe, South) >= 0 {
      Arrives(g, n, count, pe, South, col, b);
    } else if col == 0 && 1 <= row <= n && Neighbour(g, pe, West) >= 0 {
      Arrives(g, n, count, pe, West, row, b);
    } else {
      Arrives(g, n, count, pe, East, row, b);
    }
  }

  /** A byte that some copy writes comes from elsewhere. */
  lemma Written(g: nat, n: nat, count: nat, pe: nat, row: nat, col: nat, b: nat, op: Op<Place>)
    requires g > 0 && 0 < count < INT_LIMIT && HaloFits(n) && pe < g * g && row < n + 2 && col < n + 2 && b < FLOAT
    requires op in HaloOps(g, n, count) && op.dst == Place(pe, Offset(n, (row, col), b))
    ensures op.src == Source(g, n, pe, row, col, b)
  {
    var p: nat, d: Dir :| Sends(g, n, count, p, d, op);
    var byte: Op<int> := Op(op.dst.offset, op.src.offset);
    PutCarries(n, d, count, byte);
    var k: nat, t: nat :| Carries(n, d, k, t, byte);
    SameOffset(n, Target(n, d, k), t, (row, col), b);
    Reciprocal(g, p, d);
  }

  lemma CellInside(n: nat, cell: (nat, nat), b: nat)
    requires cell.0 < n + 2 && cell.1 < n + 2 && b < FLOAT
    ensures Offset(n, cell, b) < CellAt(n, n + 2, 0) * FLOAT
  {
    PositionBound(cell.0, cell.1, n + 2, n + 2);
  }

  lemma Inside(g: nat, n: nat, count: nat, op: Op<Place>)
    requires g > 0 && 0 < count < INT_LIMIT && HaloFits(n) && op in HaloOps(g, n, count)
    ensures op.src.pe < g * g && op.dst.pe < g * g
    ensures 0 <= op.src.offset < CellAt(n, n + 2, 0) * FLOAT && 0 <= op.dst.offset < CellAt(n, n + 2, 0) * FLOAT
  {
    var p: nat, d: Dir :| Sends(g, n, count, p, d, op);
    var byte: Op<int> := Op(op.dst.offset, op.src.offset);
    PutCarries(n, d, count, byte);
    var k: nat, t: nat :| Carries(n, d, k, t, byte);
    Reciprocal(g, p, d);
    CellInside(n, Target(n, d, k), t);
    CellInside(n, Origin(n, d, k), t);
  }

  ghost predicate HoldsDomains<V>(mem: map<Place, V>, g: nat, n: nat) {
    forall p: nat, o: nat :: p < g * g && o < CellAt(n, n + 2, 0) * FLOAT ==> Place(p, o) in mem
  }

  lemma AllInside<V>(g: nat, n: nat, count: nat, mem: map<Place, V>)
    requires g > 0 && 0 < count < INT_LIMIT && HaloFits(n) && HoldsDomains(mem, g, n)
    ensures forall op :: op in HaloOps(g, n, count) ==> op.src in mem && op.dst in mem
  {
    forall op | op in HaloOps(g, n, count) ensures op.src in mem && op.dst in mem {
      Inside(g, n, count, op);
      assert Place(op.src.pe, op.src.offset) in mem && Place(op.dst.pe, op.dst.offset) in mem;
    }
  }

  /** A byte that comes from nowhere else is written by nobody. */
  lemma Unwritten(g: nat, n: nat, count: nat, pe: nat, row: nat, col: nat, b: nat)
    requires g > 0 && 0 < count < INT_LIMIT && HaloFits(n) && pe < g * g && row < n + 2 && col < n + 2 && b < FLOAT
    requires Source(g, n, pe, row, col, b) == Place(pe, Offset(n, (row, col), b))
    ensures forall op :: op in HaloOps(g, n, count) ==> op.dst != Place(pe, Offset(n, (row, col), b))
  {
    RaceFree(g, n, count);
    forall op | op in HaloOps(g, n, count) ensures op.dst != Place(pe, Offset(n, (row, col), b)) {
      if op.dst == Place(pe, Offset(n, (row, col), b)) {
        Written(g, n, count, pe, row, col, b, op);
      }
    }
  }

  lemma ExchangedAt<V>(g: nat, n: nat, count: nat, mem: map<Place, V>, schedule: seq<Op<Place>>,
                       pe: nat, row: nat, col: nat, b: nat)
    requires g > 0 && 0 < count < INT_LIMIT && HaloFits(n) && SetOf(schedule) == HaloOps(g, n, count)
    requires HoldsDomains(mem, g, n) && pe < g * g && row < n + 2 && col < n + 2 && b < FLOAT
    ensures var here, source := Place(pe, Offset(n, (row, col), b)), Source(g, n, pe, row, col, b);
            && source in mem && here in Run(mem, schedule)
            && Run(mem, schedule)[here] == mem[source]
  {
    var all := HaloOps(g, n, count);
    RaceFree(g, n, count);
    AllInside(g, n, count, mem);
    assert forall op :: op in schedule ==> op in SetOf(schedule);
    AnyOrder(mem, schedule, all);
    CellInside(n, (row, col), b);
    if Source(g, n, pe, row, col, b) != Place(pe, Offset(n, (row, col), b)) {
      Received(g, n, count, pe, row, col, b);
    } else {
      Unwritten(g, n, count, pe, row, col, b);
    }
  }

  /** Byte `b` of the float in cell `(row, col)` of the PE in row `r` and column `c` of the
      grid. */
  function Byte(g: nat, n: nat, r: nat, c: nat, row: nat, col: nat, b: nat): Place {
    Place(r * g + c, (row * (n + 2) + col) * 4 + b)
  }

  /** The byte that belongs there after the exchange: in the upper halo row the last inner
      row of the PE above, in the lower one the first inner row of the PE below, in the
      left halo column the last inner column of the PE to the left, in the right one the
      first inner column of the PE to the right; otherwise its own. */
  function Facing(g: nat, n: nat, r: nat, c: nat, row: nat, col: nat, b: nat): Place {
    if row == 0 && 1 <= col <= n && r > 0 then Byte(g, n, r - 1, c, n, col, b)
    else if row == n + 1 && 1 <= col <= n && r + 1 < g then Byte(g, n, r + 1, c, 1, col, b)
    else if col == 0 && 1 <= row <= n && c > 0 then Byte(g, n, r, c - 1, row, n, b)
    else if col == n + 1 && 1 <= row <= n && c + 1 < g then Byte(g, n, r, c + 1, row, 1, b)
    else Byte(g, n, r, c, row, col, b)
  }

  lemma FacingIsSource(g: nat, n: nat, r: nat, c: nat, row: nat, col: nat, b: nat)
    requires r < g && c < g
    ensures Facing(g, n, r, c, row, col, b) == Source(g, n, r * g + c, row, col, b)
  {
    NeighbourAt(g, r, c);
  }

  /** However the puts of all PEs interleave, afterwards every edge halo cell of every PE
      holds the facing boundary cell of the PE next to it in the grid, and inner cells,
      corners and the halos on the border of the grid are as before. */
  lemma HaloExchanged<V>(g: nat, n: nat, count: nat, mem: map<Place, V>, schedule: seq<Op<Place>>,
                         r: nat, c: nat, row: nat, col: nat, b: nat)
    requires 0 < count < INT_LIMIT && HaloFits(n) && r < g && c < g && SetOf(schedule) == HaloOps(g, n, count)
    requires HoldsDomains(mem, g, n) && row < n + 2 && col < n + 2 && b < 4
    ensures var here, source := Byte(g, n, r, c, row, col, b), Facing(g, n, r, c, row, col, b);
            && source in mem && here in Run(mem, schedule)
            && Run(mem, schedule)[here] == mem[source]
  {
    Step(g, r, c);
    FacingIsSource(g, n, r, c, row, col, b);
    ExchangedAt(g, n, count, mem, schedule, r * g + c, row, col, b);
  }

  // The bound on the inner size.

  /** Where the put to the north goes, for every inner size. */
  lemma NorthGoes(n: nat, count: nat, op: Op<int>)
    requires 0 < count < INT_LIMIT && n + 2 < INT_LIMIT && WorkersMove(HaloView(n, North), Wg, count, op)
    ensures 0 <= op.dst - KernelCell(n, n + 1, 1) * FLOAT < n * FLOAT
  {
    var v := HaloView(n, North);
    HaloShape(n, North, count);
    WorkersCopyTile(v, Wg, count, op);
    var i: nat, j: nat :| i < Rows(v) && j < Cols(v) && Moves(Element(v, i, j), op);
  }

  /** A product that does not fit ends up at least 2^32 cells away. */
  lemma FarAway(x: nat)
    requires x >= INT_LIMIT
    ensures IntCast(x) <= x - INT_MOD
  {
  }

  lemma NorthMisses(n: nat, count: nat)
    requires 0 < count < INT_LIMIT && 1 <= n && n + 2 < INT_LIMIT && !HaloFits(n)
    ensures var op := Op(Offset(n, Target(n, North, 1), 0), Offset(n, Origin(n, North, 1), 0));
            Carried(n, North, op) && !WorkersMove(HaloView(n, North), Wg, count, op)
  {
    var op: Op<int> := Op(Offset(n, Target(n, North, 1), 0), Offset(n, Origin(n, North, 1), 0));
    assert Carries(n, North, 1, 0, op);
    FarAway((n + 1) * (n + 2));
    if WorkersMove(HaloView(n, North), Wg, count, op) {
      NorthGoes(n, count, op);
    }
  }

  /** The put to the north carries what it should if and only if the product fits. */
  lemma NorthIff(n: nat, count: nat)
    requires 0 < count < INT_LIMIT && 1 <= n && n + 2 < INT_LIMIT
    ensures (forall op :: WorkersMove(HaloView(n, North), Wg, count, op) <==> Carried(n, North, op)) <==> HaloFits(n)
  {
    if HaloFits(n) {
      forall op ensures WorkersMove(HaloView(n, North), Wg, count, op) <==> Carried(n, North, op) {
        PutCarries(n, North, count, op);
      }
    } else {
      NorthMisses(n, count);
    }
  }

  /** 46339 is the last inner size that fits; for 46340 the put goes below the domain. */
  lemma LastInnerSize()
    ensures HaloFits(46339) && !HaloFits(46340) && HaloView(46340, North).dst < 0
  {
  }
}
