/** Every layout and every scope copy the same tile, in any order of the workers' bytes. */
module TileTheorems {
  import opened Arith
  import opened CopyOps
  import opened MachineInts
  import opened Tile
  import opened TileWave

  // A loop that starts at the worker's number and steps by the number of workers.

  lemma {:induction false} ShareHas(v: View, n: int, w: nat, count: nat, m: nat)
    requires count > 0 && w + m * count < n
    ensures Piece(v, w + m * count) in Share(v, n, w, count)
    decreases m
  {
    if m > 0 {
      assert m * count == count + (m - 1) * count;
      ShareHas(v, n, w + count, count, m - 1);
    }
  }

  lemma {:induction false} ShareOnly(v: View, n: int, w: nat, count: nat, s: Seg) returns (k: nat)
    requires count > 0 && s in Share(v, n, w, count)
    ensures k < n && s == Piece(v, k)
    decreases n - w
  {
    if s == Piece(v, w) {
      k := w;
    } else {
      k := ShareOnly(v, n, w + count, count, s);
    }
  }

  lemma ShareOf(v: View, n: int, count: nat, k: nat, op: Op<int>) returns (w: nat)
    requires count > 0 && k < n && Moves(Piece(v, k), op)
    ensures w < count && ShareMoves(v, n, w, count, op)
  {
    w := k % count;
    PositionSplit(k, count);
    ShareHas(v, n, w, count, k / count);
  }

  lemma PieceOf(v: View, n: int, w: nat, count: nat, op: Op<int>) returns (k: nat)
    requires count > 0 && ShareMoves(v, n, w, count, op)
    ensures k < n && Moves(Piece(v, k), op)
  {
    var s :| s in Share(v, n, w, count) && Moves(s, op);
    k := ShareOnly(v, n, w, count, s);
  }

  /** Together the workers take every piece. */
  lemma SharesCover(v: View, n: int, count: nat, op: Op<int>)
    requires count > 0
    ensures (exists w: nat :: w < count && ShareMoves(v, n, w, count, op))
       <==> (exists k: nat :: k < n && Moves(Piece(v, k), op))
  {
    if k: nat :| k < n && Moves(Piece(v, k), op) {
      var w := ShareOf(v, n, count, k, op);
    }
    if w: nat :| w < count && ShareMoves(v, n, w, count, op) {
      var k := PieceOf(v, n, w, count, op);
    }
  }

  // Rows, columns and whole tiles as elements.

  lemma Distribute(base: int, a: nat, b: nat, es: nat)
    ensures base + (a + b) * es == base + a * es + b * es
  {
  }

  lemma RowUnit(v: View, i: nat, j: nat)
    requires v.ss1 == 1 && v.ds1 == 1
    ensures Element(v, i, j) == Unit(Step(v.dst, i, v.ds0, v.es), Step(v.src, i, v.ss0, v.es), v.es, j)
  {
    Distribute(v.dst, i * v.ds0, j, v.es);
    Distribute(v.src, i * v.ss0, j, v.es);
  }

  lemma ColUnit(v: View, i: nat, j: nat)
    requires v.ss0 == 1 && v.ds0 == 1
    ensures Element(v, i, j) == Unit(Step(v.dst, j, v.ds1, v.es), Step(v.src, j, v.ss1, v.es), v.es, i)
  {
    Distribute(v.dst, j * v.ds1, i, v.es);
    Distribute(v.src, j * v.ss1, i, v.es);
  }

  /** A row of a row-contiguous tile is its elements. */
  lemma RowIs(v: View, i: nat, op: Op<int>)
    requires v.ndim == 2 && Classify(v) == RowContig
    ensures Moves(Piece(v, i), op) <==> (exists j: nat :: j < v.ext1 && Moves(Element(v, i, j), op))
  {
    var d, s := Step(v.dst, i, v.ds0, v.es), Step(v.src, i, v.ss0, v.es);
    if Moves(Piece(v, i), op) {
      var j := RunHas(d, s, v.ext1, v.es, op);
      RowUnit(v, i, j);
    }
    if j: nat :| j < v.ext1 && Moves(Element(v, i, j), op) {
      RowUnit(v, i, j);
      RunOnly(d, s, v.ext1, v.es, j, op);
    }
  }

  /** A column of a column-contiguous tile is its elements. */
  lemma ColIs(v: View, j: nat, op: Op<int>)
    requires v.ndim == 2 && Classify(v) == ColContig
    ensures Moves(Piece(v, j), op) <==> (exists i: nat :: i < v.ext0 && Moves(Element(v, i, j), op))
  {
    var d, s := Step(v.dst, j, v.ds1, v.es), Step(v.src, j, v.ss1, v.es);
    if Moves(Piece(v, j), op) {
      var i := RunHas(d, s, v.ext0, v.es, op);
      ColUnit(v, i, j);
    }
    if i: nat :| i < v.ext0 && Moves(Element(v, i, j), op) {
      ColUnit(v, i, j);
      RunOnly(d, s, v.ext0, v.es, i, op);
    }
  }

  /** Row and column of the `k`-th element in row-major order. */
  lemma Locate(k: nat, ext0: nat, ext1: nat) returns (i: nat, j: nat)
    requires k < ext0 * ext1
    ensures ext1 > 0 && i == k / ext1 && j == k % ext1 && i < ext0 && j < ext1 && i * ext1 + j == k
  {
    assert ext1 > 0 by {
      assert ext0 * 0 == 0;
    }
    i, j := k / ext1, k % ext1;
    PositionSplit(k, ext1);
    assert i < ext0 by {
      if i >= ext0 {
        MulMonotone(ext0, i, ext1);
      }
    }
  }

  lemma PackedElement(v: View, i: nat, j: nat)
    requires v.ndim == 2 && Classify(v) == Contiguous
    ensures Element(v, i, j) == Unit(v.dst, v.src, v.es, i * v.ext1 + j)
  {
  }

  /** A packed tile is one run. */
  lemma PackedHas(v: View, op: Op<int>) returns (i: nat, j: nat)
    requires v.ndim == 2 && Classify(v) == Contiguous && Moves(Seg(v.dst, v.src, Bytes(v)), op)
    ensures i < v.ext0 && j < v.ext1 && Moves(Element(v, i, j), op)
  {
    var k := RunHas(v.dst, v.src, v.ext0 * v.ext1, v.es, op);
    i, j := Locate(k, v.ext0, v.ext1);
    PackedElement(v, i, j);
  }

  lemma PackedOnly(v: View, i: nat, j: nat, op: Op<int>)
    requires v.ndim == 2 && Classify(v) == Contiguous && i < v.ext0 && j < v.ext1 && Moves(Element(v, i, j), op)
    ensures Moves(Seg(v.dst, v.src, Bytes(v)), op)
  {
    PositionBound(i, j, v.ext0, v.ext1);
    PackedElement(v, i, j);
    RunOnly(v.dst, v.src, v.ext0 * v.ext1, v.es, i * v.ext1 + j, op);
  }

  lemma PackedIs(v: View, op: Op<int>)
    requires v.ndim == 2 && Classify(v) == Contiguous
    ensures Moves(Seg(v.dst, v.src, Bytes(v)), op) <==> TileMoves(v, op)
  {
    if Moves(Seg(v.dst, v.src, Bytes(v)), op) {
      var i, j := PackedHas(v, op);
    }
    if i: nat, j: nat :| i < v.ext0 && j < v.ext1 && Moves(Element(v, i, j), op) {
      PackedOnly(v, i, j, op);
    }
  }

  lemma PackedLineIs(v: View, op: Op<int>)
    requires v.ndim == 1 && Classify(v) == Contiguous
    ensures Moves(Seg(v.dst, v.src, Bytes(v)), op) <==> TileMoves(v, op)
  {
    assert forall i: nat :: Element(v, i, 0) == Unit(v.dst, v.src, v.es, i);
    if Moves(Seg(v.dst, v.src, Bytes(v)), op) {
      var k := RunHas(v.dst, v.src, v.ext0, v.es, op);
      assert Moves(Element(v, k, 0), op);
    }
    if i: nat, j: nat :| i < v.ext0 && j < 1 && Moves(Element(v, i, j), op) {
      RunOnly(v.dst, v.src, v.ext0, v.es, i, op);
    }
  }

  /** The element-wise loop visits the elements whose number its `int` bound admits. */
  lemma StridedIs(v: View, n: int, op: Op<int>)
    requires v.ndim == 2 && Classify(v) == Strided && n <= v.ext0 * v.ext1
    ensures (exists k: nat :: k < n && Moves(Piece(v, k), op))
       <==> (exists i: nat, j: nat ::
               i < v.ext0 && j < v.ext1 && i * v.ext1 + j < n && Moves(Element(v, i, j), op))
  {
    if k: nat :| k < n && Moves(Piece(v, k), op) {
      var i, j := Locate(k, v.ext0, v.ext1);
      assert Moves(Element(v, i, j), op);
    }
    if i: nat, j: nat :| i < v.ext0 && j < v.ext1 && i * v.ext1 + j < n && Moves(Element(v, i, j), op) {
      DivMod(i, j, v.ext1);
      assert Moves(Piece(v, i * v.ext1 + j), op);
    }
  }

  /** The tile fits the `int` arithmetic of the code that copies it: bytes of a wave copy,
      elements of the strided loop, and either counter one step past the end. */
  predicate Fits(v: View, scope: Scope, count: nat) {
    && (Packed(v) && scope == Wave ==> Bytes(v) < INT_LIMIT && Bytes(v) / 16 + count <= INT_LIMIT)
    && (v.ndim == 2 && Classify(v) == Strided ==> v.ext0 * v.ext1 + count <= INT_LIMIT)
  }

  lemma RowsAre(v: View, op: Op<int>)
    requires v.ndim == 2 && Classify(v) == RowContig
    ensures (exists k: nat :: k < v.ext0 && Moves(Piece(v, k), op)) <==> TileMoves(v, op)
  {
    if k: nat :| k < v.ext0 && Moves(Piece(v, k), op) {
      RowIs(v, k, op);
    }
    if i: nat, j: nat :| i < v.ext0 && j < v.ext1 && Moves(Element(v, i, j), op) {
      RowIs(v, i, op);
    }
  }

  lemma ColsAre(v: View, op: Op<int>)
    requires v.ndim == 2 && Classify(v) == ColContig
    ensures (exists k: nat :: k < v.ext1 && Moves(Piece(v, k), op)) <==> TileMoves(v, op)
  {
    if k: nat :| k < v.ext1 && Moves(Piece(v, k), op) {
      ColIs(v, k, op);
    }
    if i: nat, j: nat :| i < v.ext0 && j < v.ext1 && Moves(Element(v, i, j), op) {
      ColIs(v, j, op);
    }
  }

  lemma ElementsAre(v: View, op: Op<int>)
    requires v.ndim == 2 && Classify(v) == Strided
    ensures (exists k: nat :: k < v.ext0 * v.ext1 && Moves(Piece(v, k), op)) <==> TileMoves(v, op)
  {
    StridedIs(v, v.ext0 * v.ext1, op);
    if i: nat, j: nat :| i < v.ext0 && j < v.ext1 && Moves(Element(v, i, j), op) {
      PositionBound(i, j, v.ext0, v.ext1);
    }
  }

  lemma LineIs(v: View, op: Op<int>)
    requires v.ndim == 1
    ensures (exists k: nat :: k < v.ext0 && Moves(Piece(v, k), op)) <==> TileMoves(v, op)
  {
    assert forall i: nat :: Piece(v, i) == Element(v, i, 0);
    if k: nat :| k < v.ext0 && Moves(Piece(v, k), op) {
      assert Moves(Element(v, k, 0), op);
    }
    if i: nat, j: nat :| i < v.ext0 && j < 1 && Moves(Element(v, i, j), op) {
      assert Moves(Piece(v, i), op);
    }
  }

  lemma PiecesAre(v: View, op: Op<int>)
    requires !Packed(v) && (v.ndim == 2 && Classify(v) == Strided ==> v.ext0 * v.ext1 < INT_LIMIT)
    ensures (exists k: nat :: k < PieceCount(v) && Moves(Piece(v, k), op)) <==> TileMoves(v, op)
  {
    if v.ndim == 1 {
      LineIs(v, op);
    } else if v.ndim == 2 {
      match Classify(v)
      case RowContig => RowsAre(v, op);
      case ColContig => ColsAre(v, op);
      case Strided => ElementsAre(v, op);
    }
  }

  /** All workers of any scope together copy exactly the tile, whatever its layout. */
  lemma WorkersCopyTile(v: View, scope: Scope, count: nat, op: Op<int>)
    requires 0 < count < INT_LIMIT && Fits(v, scope, count)
    ensures WorkersMove(v, scope, count, op) <==> TileMoves(v, op)
  {
    if Packed(v) {
      ContiguousCovers(v, scope, count, op);
      if v.ndim == 2 {
        PackedIs(v, op);
      } else {
        PackedLineIs(v, op);
      }
    } else {
      PiecesCover(v, scope, count, op);
      PiecesAre(v, op);
    }
  }

  lemma PiecesCover(v: View, scope: Scope, count: nat, op: Op<int>)
    requires count > 0 && !Packed(v)
    ensures WorkersMove(v, scope, count, op) <==> (exists k: nat :: k < PieceCount(v) && Moves(Piece(v, k), op))
  {
    var n := PieceCount(v);
    SharesCover(v, n, count, op);
    if w: nat :| w < count && ShareMoves(v, n, w, count, op) {
      assert WorkerMoves(v, scope, w, count, op);
    }
    if w: nat :| w < count && WorkerMoves(v, scope, w, count, op) {
      assert ShareMoves(v, n, w, count, op);
    }
  }

  lemma ContiguousCovers(v: View, scope: Scope, count: nat, op: Op<int>)
    requires count > 0 && Packed(v) && (scope == Wave ==> Bytes(v) < INT_LIMIT)
    ensures WorkersMove(v, scope, count, op) <==> Moves(Seg(v.dst, v.src, Bytes(v)), op)
  {
    var whole := Seg(v.dst, v.src, Bytes(v));
    if scope == Wave {
      if Moves(whole, op) {
        var lane := WaveHas(v.dst, v.src, Bytes(v), count, op);
        assert WorkerMoves(v, scope, lane, count, op);
      }
      if w: nat :| w < count && WorkerMoves(v, scope, w, count, op) {
        WaveOnly(v.dst, v.src, Bytes(v), w, count, op);
      }
    } else if Moves(whole, op) {
      assert whole in WorkerSegs(v, scope, 0, count);
      assert WorkerMoves(v, scope, 0, count, op);
    }
  }

  /** Place of an element in the destination, in elements. */
  function Index(v: View, i: nat, j: nat): nat { i * v.ds0 + j * v.ds1 }

  /** Distinct elements of the tile have distinct places in the destination. */
  ghost predicate DstInjective(v: View) {
    forall i: nat, j: nat, k: nat, l: nat {:trigger Index(v, i, j), Index(v, k, l)} ::
      i < Rows(v) && j < Cols(v) && k < Rows(v) && l < Cols(v) && Index(v, i, j) == Index(v, k, l)
      ==> i == k && j == l
  }

  /** No byte of the tile is both read and written. */
  ghost predicate Apart(v: View) {
    forall a, b :: TileMoves(v, a) && TileMoves(v, b) ==> a.dst != b.src
  }

  lemma SameByte(base: int, x: nat, y: nat, es: nat, d: int)
    requires base + x * es <= d < base + x * es + es && base + y * es <= d < base + y * es + es
    ensures x == y
  {
    PositionUnique(x, d - base - x * es, y, d - base - y * es, es);
  }

  /** With an injective destination, two copies to one byte are one copy. */
  lemma SameElement(v: View, a: Op<int>, b: Op<int>)
    requires DstInjective(v) && TileMoves(v, a) && TileMoves(v, b) && a.dst == b.dst
    ensures a == b
  {
    var i: nat, j: nat :| i < Rows(v) && j < Cols(v) && Moves(Element(v, i, j), a);
    var k: nat, l: nat :| k < Rows(v) && l < Cols(v) && Moves(Element(v, k, l), b);
    var x, y := Index(v, i, j), Index(v, k, l);
    SameByte(v.dst, x, y, v.es, a.dst);
  }

  lemma TileIndependent(v: View)
    requires DstInjective(v) && Apart(v)
    ensures Independent(TileOps(v))
  {
    forall a, b | a in TileOps(v) && b in TileOps(v) && a.dst == b.dst ensures a.src == b.src {
      SameElement(v, a, b);
    }
  }

  /** `schedule` holds the bytes that all workers copy, in some order. */
  ghost predicate Schedules<V>(mem: map<int, V>, v: View, scope: Scope, count: nat, schedule: seq<Op<int>>) {
    && 0 < count < INT_LIMIT && SetOf(schedule) == WorkerOps(v, scope, count)
    && (forall op :: TileMoves(v, op) ==> op.src in mem && op.dst in mem)
  }

  ghost predicate Orderly(v: View, scope: Scope, count: nat) {
    Fits(v, scope, count) && DstInjective(v) && Apart(v)
  }

  /** In whatever order the bytes of all workers reach memory, it ends up with the
      element-wise copy made and no other byte changed. */
  lemma AnySchedule<V>(mem: map<int, V>, v: View, scope: Scope, count: nat, schedule: seq<Op<int>>)
    requires Schedules(mem, v, scope, count, schedule) && Orderly(v, scope, count)
    ensures Copied(mem, TileOps(v), Run(mem, schedule))
  {
    forall op ensures WorkersMove(v, scope, count, op) <==> TileMoves(v, op) {
      WorkersCopyTile(v, scope, count, op);
    }
    assert SetOf(schedule) == TileOps(v);
    TileIndependent(v);
    assert forall op :: op in schedule ==> op in SetOf(schedule);
    AnyOrder(mem, schedule, TileOps(v));
  }

  lemma ElementCopied<V>(before: map<int, V>, v: View, after: map<int, V>, i: nat, j: nat, b: nat)
    requires Copied(before, TileOps(v), after) && i < Rows(v) && j < Cols(v) && b < v.es
    requires forall op :: TileMoves(v, op) ==> op.src in before && op.dst in before
    ensures Element(v, i, j).dst + b in after && Element(v, i, j).src + b in before
    ensures after[Element(v, i, j).dst + b] == before[Element(v, i, j).src + b]
  {
    var op: Op<int> := Op(Element(v, i, j).dst + b, Element(v, i, j).src + b);
    assert Moves(Element(v, i, j), op);
    assert op in TileOps(v);
  }

  lemma Shift(base: int, a: nat, b: nat, i: nat, j: nat, s0: nat, s1: nat, es: nat)
    ensures base + (a * s0 + b * s1) * es + (i * s0 + j * s1) * es == base + ((a + i) * s0 + (b + j) * s1) * es
  {
    assert (a + i) * s0 == a * s0 + i * s0;
    assert (b + j) * s1 == b * s1 + j * s1;
    Distribute(base, a * s0 + b * s1, i * s0 + j * s1, es);
  }

  /** In a box that is not empty, tile element `(i, j)` is array element
      `start + (i, j)` on the side that `start_coord` applies to (the destination of a put,
      the source of a get) and element `(i, j)` on the other side. */
  lemma BoxElement(dst: int, src: int, ds: Strides, ss: Strides, box: Box, es: nat, put: bool, i: nat, j: nat)
    requires box.start0 <= box.bound0 < SIZE_MOD && box.start1 <= box.bound1 < SIZE_MOD
    ensures var v := MakeView(dst, src, ds, ss, box, 2, es, put);
            var r, c := box.start0 + i, box.start1 + j;
            && Rows(v) == box.bound0 - box.start0 && Cols(v) == box.bound1 - box.start1
            && Element(v, i, j).dst == dst + (if put then r * ds.s0 + c * ds.s1 else i * ds.s0 + j * ds.s1) * es
            && Element(v, i, j).src == src + (if put then i * ss.s0 + j * ss.s1 else r * ss.s0 + c * ss.s1) * es
  {
    Shift(dst, box.start0, box.start1, i, j, ds.s0, ds.s1, es);
    Shift(src, box.start0, box.start1, i, j, ss.s0, ss.s1, es);
  }

  /** The same in one dimension. */
  lemma LineElement(dst: int, src: int, ds: Strides, ss: Strides, box: Box, es: nat, put: bool, i: nat)
    requires box.start0 <= box.bound0 < SIZE_MOD
    ensures var v := MakeView(dst, src, ds, ss, box, 1, es, put);
            var r := box.start0 + i;
            && Rows(v) == box.bound0 - box.start0 && Cols(v) == 1
            && Element(v, i, 0).dst == dst + (if put then r else i) * ds.s0 * es
            && Element(v, i, 0).src == src + (if put then i else r) * ss.s0 * es
  {
    Shift(dst, box.start0, 0, i, 0, ds.s0, 0, es);
    Shift(src, box.start0, 0, i, 0, ss.s0, 0, es);
  }

  /** A put of a local tile into a box of a remote array, and a get of that box back. */
  datatype Trip = Trip(local: int, localStrides: Strides, remote: int, remoteStrides: Strides, back: int,
                       backStrides: Strides, box: Box, ndim: int, es: nat)

  function PutView(t: Trip): View {
    MakeView(t.remote, t.local, t.remoteStrides, t.localStrides, t.box, t.ndim, t.es, true)
  }

  function GetView(t: Trip): View {
    MakeView(t.back, t.remote, t.backStrides, t.remoteStrides, t.box, t.ndim, t.es, false)
  }

  /** View `g` reads where view `p` writes. */
  predicate ReadsBack(p: View, g: View) {
    && g.ndim == p.ndim && g.ext0 == p.ext0 && g.ext1 == p.ext1 && g.es == p.es
    && g.src == p.dst && g.ss0 == p.ds0 && g.ss1 == p.ds1
  }

  /** Put and get apply `start_coord` to the same, remote side. */
  lemma SameRemote(t: Trip)
    ensures ReadsBack(PutView(t), GetView(t))
  {
  }

  /** Putting a tile and getting it back gives the tile again, whatever the strides,
      layouts, scopes and schedules of the two calls. */
  lemma PutThenGet<V>(mem: map<int, V>, p: View, putScope: Scope, putCount: nat, puts: seq<Op<int>>,
                      g: View, getScope: Scope, getCount: nat, gets: seq<Op<int>>, i: nat, j: nat, b: nat)
    requires Schedules(mem, p, putScope, putCount, puts) && Orderly(p, putScope, putCount)
    requires Schedules(mem, g, getScope, getCount, gets) && Orderly(g, getScope, getCount)
    requires ReadsBack(p, g) && i < Rows(p) && j < Cols(p) && b < p.es
    ensures var after := Run<int, V>(Run(mem, puts), gets);
            && Element(g, i, j).dst + b in after && Element(p, i, j).src + b in mem
            && after[Element(g, i, j).dst + b] == mem[Element(p, i, j).src + b]
  {
    var between := Run<int, V>(mem, puts);
    AnySchedule(mem, p, putScope, putCount, puts);
    AnySchedule(between, g, getScope, getCount, gets);
    ElementCopied(mem, p, between, i, j, b);
    ElementCopied(between, g, Run(between, gets), i, j, b);
  }

  // The `int` element count.

  /** An element whose number the truncated bound leaves out is not copied. */
  lemma LeftOut(v: View, scope: Scope, count: nat, k: nat) returns (op: Op<int>)
    requires count > 0 && v.ndim == 2 && Classify(v) == Strided && v.es > 0 && DstInjective(v)
    requires PieceCount(v) <= k < v.ext0 * v.ext1
    ensures TileMoves(v, op) && !WorkersMove(v, scope, count, op)
  {
    var i, j := Locate(k, v.ext0, v.ext1);
    op := Op(Element(v, i, j).dst, Element(v, i, j).src);
    assert Moves(Element(v, i, j), op);
    var n := PieceCount(v);
    PiecesCover(v, scope, count, op);
    StridedIs(v, n, op);
    forall x: nat, y: nat | x < v.ext0 && y < v.ext1 && Moves(Element(v, x, y), op)
      ensures x == i && y == j
    {
      SameByte(v.dst, Index(v, i, j), Index(v, x, y), v.es, op.dst);
    }
  }

  /** The last byte of a packed tile, which a wave copy of 2^31 bytes or more leaves out. */
  lemma LastByteLeftOut(v: View, count: nat) returns (op: Op<int>)
    requires count > 0 && Packed(v) && Bytes(v) >= INT_LIMIT && WaveInts(Plan(Bytes(v)), count)
    ensures TileMoves(v, op) && !WorkersMove(v, Wave, count, op)
  {
    op := Op(v.dst + Bytes(v) - 1, v.src + Bytes(v) - 1);
    if v.ndim == 2 {
      PackedIs(v, op);
    } else {
      PackedLineIs(v, op);
    }
    forall w: nat | w < count ensures !WorkerMoves(v, Wave, w, count, op) {
      WaveFails(v.dst, v.src, Bytes(v), w, count);
    }
  }

  lemma FitsMeansDefined(v: View, scope: Scope, count: nat)
    requires 0 < count < INT_LIMIT && Fits(v, scope, count)
    ensures Defined(v, scope, count)
  {
    if Packed(v) && scope == Wave {
      WaveFits(Bytes(v), count);
    }
  }

  /** A wave copy of 2^31 bytes or more overflows or leaves a byte out. */
  lemma WaveUnfit(v: View, count: nat)
    requires 0 < count < INT_LIMIT && Packed(v) && !Fits(v, Wave, count) && Defined(v, Wave, count)
    ensures exists op :: TileMoves(v, op) && !WorkersMove(v, Wave, count, op)
  {
    if Bytes(v) < INT_LIMIT {
      WaveFits(Bytes(v), count);
    } else {
      var op := LastByteLeftOut(v, count);
    }
  }

  /** A strided loop over too many elements overflows or leaves an element out. */
  lemma StridedUnfit(v: View, scope: Scope, count: nat)
    requires 0 < count < INT_LIMIT && v.ndim == 2 && Classify(v) == Strided && v.es > 0 && DstInjective(v)
    requires !Fits(v, scope, count) && Defined(v, scope, count)
    ensures exists op :: TileMoves(v, op) && !WorkersMove(v, scope, count, op)
  {
    var n := PieceCount(v);
    var op := LeftOut(v, scope, count, if n < 0 then 0 else n);
  }

  /** No `int` overflows and exactly the tile is copied, if and only if the tile fits. */
  lemma WholeTileIff(v: View, scope: Scope, count: nat)
    requires 0 < count < INT_LIMIT && v.es > 0 && DstInjective(v)
    ensures Defined(v, scope, count) && (forall op :: TileMoves(v, op) <==> WorkersMove(v, scope, count, op))
       <==> Fits(v, scope, count)
  {
    if Fits(v, scope, count) {
      FitsMeansDefined(v, scope, count);
      forall op ensures TileMoves(v, op) <==> WorkersMove(v, scope, count, op) {
        WorkersCopyTile(v, scope, count, op);
      }
    } else if Defined(v, scope, count) {
      if Packed(v) {
        WaveUnfit(v, count);
      } else {
        StridedUnfit(v, scope, count);
      }
    }
  }

  /** 65536 rows of 32768 elements, every second element: not one is copied. */
  lemma NothingCopied(scope: Scope, count: nat, op: Op<int>)
    requires count > 0
    ensures var v := View(0, 0x1_0000_0000_0000, 0x1_0000, 0x8000, 0x1_0000, 2, 0x1_0000, 2, 4, 2);
            Defined(v, scope, count) && !WorkersMove(v, scope, count, op)
  {
    var v := View(0, 0x1_0000_0000_0000, 0x1_0000, 0x8000, 0x1_0000, 2, 0x1_0000, 2, 4, 2);
    assert PieceCount(v) == -0x8000_0000;
    PiecesCover(v, scope, count, op);
  }

  /** A packed tile of 2^36 bytes, such as 2^20 rows of 2^16: a wave copies nothing of it. */
  lemma WaveCopiesNothing(v: View, count: nat, op: Op<int>)
    requires 0 < count < INT_LIMIT && Packed(v) && Bytes(v) == BIG
    ensures Defined(v, Wave, count) && !WorkersMove(v, Wave, count, op)
  {
    BigIdle(v.dst, v.src, Bytes(v), 0, count, op);
    forall w: nat ensures !WorkerMoves(v, Wave, w, count, op) {
      IdleWorker(v, w, count, op);
    }
  }

  lemma IdleWorker(v: View, w: nat, count: nat, op: Op<int>)
    requires 0 < count && Packed(v) && Bytes(v) == BIG
    ensures !WorkerMoves(v, Wave, w, count, op)
  {
    BigIdle(v.dst, v.src, Bytes(v), w, count, op);
  }

  lemma SuchATile()
    ensures var v := View(0, 0x100_0000_0000, 0x10_0000, 0x1_0000, 0x1_0000, 1, 0x1_0000, 1, 1, 2);
            Packed(v) && Bytes(v) == BIG
  {
  }

  /** A line of 2^36 - 8 bytes: a wave writes 8 bytes before the destination. */
  lemma WaveWritesOutside(v: View, count: nat)
    requires 0 < count < INT_LIMIT && v.ndim == 1 && Packed(v) && Bytes(v) == BIG - 8
    ensures var op := Op(v.dst - 16, v.src - 16);
            Defined(v, Wave, count) && WorkersMove(v, Wave, count, op) && !TileMoves(v, op)
  {
    var op: Op<int> := Op(v.dst - 16, v.src - 16);
    WaveStrays(v.dst, v.src, Bytes(v), count);
    assert WorkerMoves(v, Wave, 0, count, op);
    PackedLineIs(v, op);
  }
}
