/** Two-dimensional tiles between strided memories: layouts, workers, and the bytes each
    worker moves. Addresses do not wrap. Conversions to `int` do; sums and products of `int`
    values that do not fit are undefined, which `Defined` rules out. */
module Tile {
  import opened CopyOps
  import opened MachineInts

  datatype Layout = Contiguous | RowContig | ColContig | Strided
  datatype Scope = Lane | Wave | Wg

  datatype View = View(src: int, dst: int, ext0: nat, ext1: nat, ss0: nat, ss1: nat,
                       ds0: nat, ds1: nat, es: nat, ndim: int)

  function Classify2d(ss0: nat, ss1: nat, ds0: nat, ds1: nat, ext1: nat): Layout {
    var rowContig := ss1 == 1 && ds1 == 1;
    var colContig := ss0 == 1 && ds0 == 1;
    if rowContig && ss0 == ext1 && ds0 == ext1 then Contiguous
    else if rowContig then RowContig
    else if colContig then ColContig
    else Strided
  }

  function Classify(v: View): Layout {
    if v.ndim == 2 then Classify2d(v.ss0, v.ss1, v.ds0, v.ds1, v.ext1)
    else if v.ndim == 1 && v.ss0 == 1 && v.ds0 == 1 then Contiguous
    else Strided
  }

  /** A rectangle of a strided array: `start` to `boundary`, one or two coordinates. */
  datatype Box = Box(start0: nat, start1: nat, bound0: nat, bound1: nat)

  datatype Strides = Strides(s0: nat, s1: nat)

  function MakeView(dst: int, src: int, dstStrides: Strides, srcStrides: Strides, box: Box, ndim: int, es: nat,
                    startAtDst: bool): View
  {
    var two := ndim == 2;
    var start1 := if two then box.start1 else 0;
    var ds := if two then dstStrides else dstStrides.(s1 := 0);
    var ss := if two then srcStrides else srcStrides.(s1 := 0);
    if ndim == 1 || two then
      View(if startAtDst then src else src + (box.start0 * ss.s0 + start1 * ss.s1) * es,
           if startAtDst then dst + (box.start0 * ds.s0 + start1 * ds.s1) * es else dst,
           SizeSub(box.bound0, box.start0), if two then SizeSub(box.bound1, box.start1) else 0,
           ss.s0, ss.s1, ds.s0, ds.s1, es, ndim)
    else View(src, dst, 0, 0, 0, 0, 0, 0, es, ndim)
  }

  /** A run of bytes to move. */
  datatype Seg = Seg(dst: int, src: int, len: nat)

  predicate Moves(s: Seg, op: Op<int>) {
    s.dst <= op.dst < s.dst + s.len && op.src == s.src + (op.dst - s.dst)
  }

  predicate MovesAny(segs: seq<Seg>, op: Op<int>) {
    exists s :: s in segs && Moves(s, op)
  }

  ghost function OpsOf(segs: seq<Seg>): iset<Op<int>> { iset op | MovesAny(segs, op) }

  // What the tile means, element by element.

  function Rows(v: View): nat { if v.ndim == 1 || v.ndim == 2 then v.ext0 else 0 }

  function Cols(v: View): nat { if v.ndim == 2 then v.ext1 else 1 }

  function Element(v: View, i: nat, j: nat): Seg {
    Seg(v.dst + (i * v.ds0 + j * v.ds1) * v.es, v.src + (i * v.ss0 + j * v.ss1) * v.es, v.es)
  }

  ghost predicate TileMoves(v: View, op: Op<int>) {
    exists i: nat, j: nat :: i < Rows(v) && j < Cols(v) && Moves(Element(v, i, j), op)
  }

  /** The element-wise copy `dst[i*ds0 + j*ds1] = src[i*ss0 + j*ss1]`, byte by byte. */
  ghost function TileOps(v: View): iset<Op<int>> { iset op | TileMoves(v, op) }

  // What the workers do.

  /** How many pieces the loop over pieces counts up to. The strided loop counts in `int`. */
  function PieceCount(v: View): int {
    if v.ndim == 1 then v.ext0
    else if v.ndim == 2 then
      match Classify(v)
      case Contiguous => 0
      case RowContig => v.ext0
      case ColContig => v.ext1
      case Strided => IntCast(v.ext0 * v.ext1)
    else 0
  }

  function Step(base: int, k: nat, stride: nat, es: nat): int { base + k * stride * es }

  /** The `k`-th piece: a row, a column or an element. */
  function Piece(v: View, k: nat): Seg {
    if v.ndim == 1 then Seg(Step(v.dst, k, v.ds0, v.es), Step(v.src, k, v.ss0, v.es), v.es)
    else
      match Classify(v)
      case RowContig => Seg(Step(v.dst, k, v.ds0, v.es), Step(v.src, k, v.ss0, v.es), v.ext1 * v.es)
      case ColContig => Seg(Step(v.dst, k, v.ds1, v.es), Step(v.src, k, v.ss1, v.es), v.ext0 * v.es)
      case _ => if v.ext1 == 0 then Seg(v.dst, v.src, 0) else Element(v, k / v.ext1, k % v.ext1)
  }

  /** The pieces of the worker that starts at `k` and steps by `count`. */
  function Share(v: View, n: int, k: nat, count: nat): seq<Seg>
    requires count > 0
    decreases n - k
  {
    if k < n then [Piece(v, k)] + Share(v, n, k + count, count) else []
  }

  predicate ShareMoves(v: View, n: int, w: nat, count: nat, op: Op<int>)
    requires count > 0
  {
    MovesAny(Share(v, n, w, count), op)
  }

  function Bytes(v: View): nat {
    if v.ndim == 2 then v.ext0 * v.ext1 * v.es else v.ext0 * v.es
  }

  /** The `k`-th of consecutive pieces of `es` bytes. */
  function Unit(dst: int, src: int, es: nat, k: nat): Seg { Seg(dst + k * es, src + k * es, es) }

  /** One lane's part of one round of `memcpy_wave`: chunks of `j` bytes. */
  function Chunks(dst: int, src: int, j: nat, chunks: int, k: nat, count: nat): seq<Seg>
    requires count > 0
    decreases chunks - k
  {
    if k < chunks then [Unit(dst, src, j, k)] + Chunks(dst, src, j, chunks, k + count, count)
    else []
  }

  /** What `memcpy_wave` keeps between rounds: `size`, a `size_t`, and how far its pointers
      have moved. */
  datatype WaveState = WaveState(size: nat, at: int)

  /** A round: `cpy_size` chunks of `j` bytes, `moved` bytes in all, from `at` on. */
  datatype Round = Round(j: nat, chunks: int, moved: int, at: int)

  /** A round of chunks of `j` bytes. `cpy_size` is an `int`. */
  function RoundOf(s: WaveState, j: nat): Round
    requires j > 0
  {
    var chunks := IntCast(s.size / j);
    Round(j, chunks, chunks * j, s.at)
  }

  function Advance(s: WaveState, r: Round): WaveState {
    WaveState((s.size - r.moved) % SIZE_MOD, s.at + r.moved)
  }

  /** The five rounds, which are the same in every lane. */
  function Plan(size: nat): seq<Round> {
    var s := WaveState(size, 0);
    var r := RoundOf(s, 16);
    var s1 := Advance(s, r);
    var r1 := RoundOf(s1, 8);
    var s2 := Advance(s1, r1);
    var r2 := RoundOf(s2, 4);
    var s3 := Advance(s2, r2);
    var r3 := RoundOf(s3, 2);
    [r, r1, r2, r3, RoundOf(Advance(s3, r3), 1)]
  }

  /** One lane's chunks of a round. */
  function RoundSegs(dst: int, src: int, r: Round, lane: nat, lanes: nat): seq<Seg>
    requires lanes > 0
  {
    Chunks(dst + r.at, src + r.at, r.j, r.chunks, lane, lanes)
  }

  /** One lane's part of `memcpy_wave`, round after round. */
  function WaveSegs(dst: int, src: int, plan: seq<Round>, lane: nat, lanes: nat): seq<Seg>
    requires lanes > 0
    decreases |plan|
  {
    if plan == [] then []
    else RoundSegs(dst, src, plan[0], lane, lanes) + WaveSegs(dst, src, plan[1..], lane, lanes)
  }

  /** No `int` of a round overflows: neither its bytes nor, in any lane, the counter that
      steps past the last chunk. */
  predicate RoundInts(r: Round, lanes: nat) {
    IsInt(r.moved) && (r.chunks > 0 ==> r.chunks + lanes <= INT_LIMIT)
  }

  predicate WaveInts(plan: seq<Round>, lanes: nat) { forall r :: r in plan ==> RoundInts(r, lanes) }

  /** The layouts that are copied as one run. */
  predicate Packed(v: View) { (v.ndim == 1 || v.ndim == 2) && Classify(v) == Contiguous }

  /** All that worker `w` of `count` moves. */
  function WorkerSegs(v: View, scope: Scope, w: nat, count: nat): seq<Seg>
    requires count > 0
  {
    if Packed(v) then
      if scope == Wave then WaveSegs(v.dst, v.src, Plan(Bytes(v)), w, count)
      else if w == 0 then [Seg(v.dst, v.src, Bytes(v))]
      else []
    else Share(v, PieceCount(v), w, count)
  }

  predicate WorkerMoves(v: View, scope: Scope, w: nat, count: nat, op: Op<int>)
    requires count > 0
  {
    MovesAny(WorkerSegs(v, scope, w, count), op)
  }

  ghost predicate WorkersMove(v: View, scope: Scope, count: nat, op: Op<int>)
    requires count > 0
  {
    exists w: nat :: w < count && WorkerMoves(v, scope, w, count, op)
  }

  ghost function WorkerOps(v: View, scope: Scope, count: nat): iset<Op<int>>
    requires count > 0
  {
    iset op | WorkersMove(v, scope, count, op)
  }

  /** No `int` overflows in any worker, so that what they do is defined. */
  predicate Defined(v: View, scope: Scope, count: nat) {
    if Packed(v) then scope == Wave ==> WaveInts(Plan(Bytes(v)), count)
    else v.ndim == 2 && Classify(v) == Strided && PieceCount(v) > 0 ==> PieceCount(v) + count <= INT_LIMIT
  }
}
