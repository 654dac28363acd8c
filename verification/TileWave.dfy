/** `memcpy_wave`: runs of bytes cut into chunks that the lanes of a wave share. */
module TileWave {
  import opened Arith
  import opened CopyOps
  import opened MachineInts
  import opened Tile

  // Runs of bytes cut into pieces of equal size.

  /** A run of `n` elements is its elements. */
  lemma RunHas(dst: int, src: int, n: nat, es: nat, op: Op<int>) returns (k: nat)
    requires Moves(Seg(dst, src, n * es), op)
    ensures k < n && Moves(Unit(dst, src, es, k), op)
  {
    var d := op.dst - dst;
    assert es > 0 by {
      assert n * 0 == 0;
    }
    k := d / es;
    PositionSplit(d, es);
    assert k < n by {
      if k >= n {
        MulMonotone(n, k, es);
      }
    }
  }

  lemma RunOnly(dst: int, src: int, n: nat, es: nat, k: nat, op: Op<int>)
    requires k < n && Moves(Unit(dst, src, es, k), op)
    ensures Moves(Seg(dst, src, n * es), op)
  {
    RowsApart(k, n, es);
  }

  // `memcpy_wave`.

  lemma {:induction false} ChunksHave(dst: int, src: int, j: nat, chunks: nat, w: nat, count: nat, m: nat)
    requires count > 0 && w + m * count < chunks
    ensures Unit(dst, src, j, w + m * count) in Chunks(dst, src, j, chunks, w, count)
    decreases m
  {
    if m > 0 {
      assert m * count == count + (m - 1) * count;
      ChunksHave(dst, src, j, chunks, w + count, count, m - 1);
    }
  }

  lemma {:induction false} ChunksOnly(dst: int, src: int, j: nat, chunks: nat, w: nat, count: nat, s: Seg)
    returns (k: nat)
    requires count > 0 && s in Chunks(dst, src, j, chunks, w, count)
    ensures k < chunks && s == Unit(dst, src, j, k)
    decreases chunks - w
  {
    if s == Unit(dst, src, j, w) {
      k := w;
    } else {
      k := ChunksOnly(dst, src, j, chunks, w + count, count, s);
    }
  }

  /** Every byte of the whole chunks of one round belongs to a chunk of some lane. */
  lemma RoundHas(dst: int, src: int, j: nat, chunks: nat, lanes: nat, op: Op<int>) returns (lane: nat)
    requires lanes > 0 && Moves(Seg(dst, src, chunks * j), op)
    ensures lane < lanes && MovesAny(Chunks(dst, src, j, chunks, lane, lanes), op)
  {
    var k := RunHas(dst, src, chunks, j, op);
    lane := k % lanes;
    PositionSplit(k, lanes);
    ChunksHave(dst, src, j, chunks, lane, lanes, k / lanes);
  }

  lemma RoundOnly(dst: int, src: int, j: nat, chunks: nat, lane: nat, lanes: nat, op: Op<int>)
    requires lanes > 0 && MovesAny(Chunks(dst, src, j, chunks, lane, lanes), op)
    ensures Moves(Seg(dst, src, chunks * j), op)
  {
    var s :| s in Chunks(dst, src, j, chunks, lane, lanes) && Moves(s, op);
    var k := ChunksOnly(dst, src, j, chunks, lane, lanes, s);
    RunOnly(dst, src, chunks, j, k, op);
  }

  /** What a lane moves, it moves in some round. */
  lemma {:induction false} InSomeRound(dst: int, src: int, plan: seq<Round>, lane: nat, lanes: nat, op: Op<int>)
    requires lanes > 0
    ensures MovesAny(WaveSegs(dst, src, plan, lane, lanes), op)
       <==> exists r :: r in plan && MovesAny(RoundSegs(dst, src, r, lane, lanes), op)
    decreases |plan|
  {
    if plan != [] {
      InSomeRound(dst, src, plan[1..], lane, lanes, op);
      assert plan == [plan[0]] + plan[1..];
      MovesConcat(RoundSegs(dst, src, plan[0], lane, lanes), WaveSegs(dst, src, plan[1..], lane, lanes), op);
    }
  }

  lemma MovesConcat(a: seq<Seg>, b: seq<Seg>, op: Op<int>)
    ensures MovesAny(a + b, op) <==> MovesAny(a, op) || MovesAny(b, op)
  {
    if s :| s in a && Moves(s, op) {
      assert s in a + b;
    }
    if s :| s in b && Moves(s, op) {
      assert s in a + b;
    }
  }

  predicate RoundOk(r: Round) { r.moved == r.chunks * r.j }

  /** A byte moved in a round lies between its start and its end. */
  lemma RoundBounds(dst: int, src: int, r: Round, lane: nat, lanes: nat, op: Op<int>)
    requires lanes > 0 && RoundOk(r) && MovesAny(RoundSegs(dst, src, r, lane, lanes), op)
    ensures 0 <= op.dst - dst - r.at < r.moved && op.src - src == op.dst - dst
  {
    SomeChunks(dst + r.at, src + r.at, r.j, r.chunks, lane, lanes, op);
    RoundOnly(dst + r.at, src + r.at, r.j, r.chunks, lane, lanes, op);
  }

  lemma SomeChunks(dst: int, src: int, j: nat, chunks: int, lane: nat, lanes: nat, op: Op<int>)
    requires lanes > 0 && MovesAny(Chunks(dst, src, j, chunks, lane, lanes), op)
    ensures chunks > 0
  {
  }

  lemma PlanRounds(size: nat)
    ensures |Plan(size)| == 5 && forall r :: r in Plan(size) ==> RoundOk(r)
  {
  }

  /** Bytes of a chunk in round `e`. */
  function Chunk(e: nat): (j: nat)
    ensures j > 0
  {
    if e == 0 then 16 else if e == 1 then 8 else if e == 2 then 4 else if e == 3 then 2 else 1
  }

  /** What the loop holds before round `e`. */
  function StateAt(size: nat, e: nat): WaveState {
    if e == 0 then WaveState(size, 0)
    else Advance(StateAt(size, e - 1), RoundOf(StateAt(size, e - 1), Chunk(e - 1)))
  }

  /** The rounds of the loop, one by one. */
  ghost predicate IsPlan(size: nat, plan: seq<Round>) {
    |plan| == 5 && forall e: nat :: e < 5 ==> plan[e] == RoundOf(StateAt(size, e), Chunk(e))
  }

  lemma PlanIsPlan(size: nat)
    ensures IsPlan(size, Plan(size))
  {
    var s1 := StateAt(size, 1);
    assert StateAt(size, 2) == Advance(s1, RoundOf(s1, 8));
    var s2 := StateAt(size, 2);
    assert StateAt(size, 3) == Advance(s2, RoundOf(s2, 4));
    var s3 := StateAt(size, 3);
    assert StateAt(size, 4) == Advance(s3, RoundOf(s3, 2));
  }

  // Below 2^31 bytes.

  /** Nothing is narrowed: a round takes all whole chunks. */
  lemma RoundExact(s: WaveState, j: nat)
    requires s.size < INT_LIMIT && j in {1, 2, 4, 8, 16}
    ensures RoundOf(s, j) == Round(j, s.size / j, s.size - s.size % j, s.at)
    ensures Advance(s, RoundOf(s, j)) == WaveState(s.size % j, s.at + (s.size - s.size % j))
  {
  }

  /** The rounds of a small size, written out. */
  function SmallPlan(size: nat): seq<Round> {
    [Round(16, size / 16, size - size % 16, 0), Round(8, size % 16 / 8, size % 16 - size % 8, size - size % 16),
     Round(4, size % 8 / 4, size % 8 - size % 4, size - size % 8),
     Round(2, size % 4 / 2, size % 4 - size % 2, size - size % 4), Round(1, size % 2, size % 2, size - size % 2)]
  }

  lemma Nested(size: nat)
    ensures size % 16 % 8 == size % 8 && size % 8 % 4 == size % 4 && size % 4 % 2 == size % 2
  {
    DivMod(2 * (size / 16) + size % 16 / 8, size % 16 % 8, 8);
    DivMod(2 * (size / 8) + size % 8 / 4, size % 8 % 4, 4);
    DivMod(2 * (size / 4) + size % 4 / 2, size % 4 % 2, 2);
  }

  lemma TwoRounds(size: nat, s: WaveState)
    requires size < INT_LIMIT && s == WaveState(size, 0)
    ensures var s1 := Advance(s, RoundOf(s, 16));
            var s2 := Advance(s1, RoundOf(s1, 8));
            && RoundOf(s, 16) == SmallPlan(size)[0] && RoundOf(s1, 8) == SmallPlan(size)[1]
            && s2 == WaveState(size % 8, size - size % 8)
  {
    RoundExact(s, 16);
    RoundExact(WaveState(size % 16, size - size % 16), 8);
    Nested(size);
  }

  lemma ThirdRound(size: nat, s: WaveState)
    requires size < INT_LIMIT && s == WaveState(size % 8, size - size % 8)
    ensures RoundOf(s, 4) == SmallPlan(size)[2] && Advance(s, RoundOf(s, 4)) == WaveState(size % 4, size - size % 4)
  {
    RoundExact(s, 4);
    Nested(size);
  }

  lemma LastRounds(size: nat, s: WaveState)
    requires size < INT_LIMIT && s == WaveState(size % 4, size - size % 4)
    ensures RoundOf(s, 2) == SmallPlan(size)[3] && RoundOf(Advance(s, RoundOf(s, 2)), 1) == SmallPlan(size)[4]
  {
    RoundExact(s, 2);
    Nested(size);
    RoundExact(WaveState(size % 2, size - size % 2), 1);
  }

  lemma PlanIs(size: nat)
    requires size < INT_LIMIT
    ensures Plan(size) == SmallPlan(size)
  {
    TwoRounds(size, WaveState(size, 0));
    ThirdRound(size, WaveState(size % 8, size - size % 8));
    LastRounds(size, WaveState(size % 4, size - size % 4));
  }

  /** The rounds cover every byte. */
  lemma RoundHolding(size: nat, x: nat) returns (r: Round)
    requires x < size < INT_LIMIT
    ensures r in Plan(size) && RoundOk(r) && r.chunks >= 0 && r.at <= x < r.at + r.moved
  {
    PlanIs(size);
    PlanRounds(size);
    var e := if x < size - size % 16 then 0 else if x < size - size % 8 then 1 else if x < size - size % 4 then 2
             else if x < size - size % 2 then 3 else 4;
    r := SmallPlan(size)[e];
  }

  /** And they stay inside. */
  lemma RoundsInside(size: nat, r: Round)
    requires size < INT_LIMIT && r in Plan(size)
    ensures RoundOk(r) && 0 <= r.at && r.at + r.moved <= size
  {
    PlanIs(size);
    PlanRounds(size);
    Nested(size);
  }

  /** Below 2^31 bytes the lanes of a wave together copy every byte: the chunks of 16, 8, 4,
      2 and 1. */
  lemma WaveHas(dst: int, src: int, size: nat, lanes: nat, op: Op<int>) returns (lane: nat)
    requires lanes > 0 && size < INT_LIMIT && Moves(Seg(dst, src, size), op)
    ensures lane < lanes && MovesAny(WaveSegs(dst, src, Plan(size), lane, lanes), op)
  {
    var r := RoundHolding(size, op.dst - dst);
    lane := LaneOf(dst, src, Plan(size), r, lanes, op);
  }

  lemma LaneOf(dst: int, src: int, plan: seq<Round>, r: Round, lanes: nat, op: Op<int>) returns (lane: nat)
    requires lanes > 0 && r in plan && RoundOk(r) && r.chunks >= 0
    requires r.at <= op.dst - dst == op.src - src < r.at + r.moved
    ensures lane < lanes && MovesAny(WaveSegs(dst, src, plan, lane, lanes), op)
  {
    lane := RoundHas(dst + r.at, src + r.at, r.j, r.chunks, lanes, op);
    InSomeRound(dst, src, plan, lane, lanes, op);
  }

  /** And no lane copies anything else. */
  lemma WaveOnly(dst: int, src: int, size: nat, lane: nat, lanes: nat, op: Op<int>)
    requires lanes > 0 && size < INT_LIMIT && MovesAny(WaveSegs(dst, src, Plan(size), lane, lanes), op)
    ensures Moves(Seg(dst, src, size), op)
  {
    InSomeRound(dst, src, Plan(size), lane, lanes, op);
    var r :| r in Plan(size) && MovesAny(RoundSegs(dst, src, r, lane, lanes), op);
    RoundsInside(size, r);
    RoundBounds(dst, src, r, lane, lanes, op);
  }

  /** No `int` overflows if and only if the lanes leave room for the counter. */
  lemma WaveFits(size: nat, lanes: nat)
    requires size < INT_LIMIT && 0 < lanes < INT_LIMIT
    ensures WaveInts(Plan(size), lanes) <==> size / 16 + lanes <= INT_LIMIT
  {
    PlanIs(size);
    SmallInts(size, SmallPlan(size), lanes);
  }

  lemma SmallInts(size: nat, plan: seq<Round>, lanes: nat)
    requires size < INT_LIMIT && 0 < lanes < INT_LIMIT && plan == SmallPlan(size)
    ensures WaveInts(plan, lanes) <==> size / 16 + lanes <= INT_LIMIT
  {
    assert RoundInts(plan[0], lanes) <==> size / 16 + lanes <= INT_LIMIT;
    assert WaveInts(plan, lanes) ==> plan[0] in plan && RoundInts(plan[0], lanes);
    assert RoundInts(plan[1], lanes) && RoundInts(plan[2], lanes);
    assert RoundInts(plan[3], lanes) && RoundInts(plan[4], lanes);
  }

  // From 2^31 bytes on.

  /** Each round starts where the one before it ended. */
  ghost predicate Chained(plan: seq<Round>) {
    && |plan| == 5 && plan[0].at == 0 && (forall r :: r in plan ==> RoundOk(r))
    && forall e :: 1 <= e < 5 ==> plan[e].at == plan[e - 1].at + plan[e - 1].moved
  }

  lemma PlanChained(size: nat)
    ensures Chained(Plan(size)) && Plan(size)[0].chunks == IntCast(size / 16) && Plan(size)[0].j == 16
  {
  }

  /** Where nothing overflows, a wave gets at most 2^31 bytes further in each round. */
  lemma {:induction false} RoundReach(plan: seq<Round>, e: nat, lanes: nat)
    requires Chained(plan) && WaveInts(plan, lanes) && e < 5
    ensures plan[e].at <= e * INT_LIMIT
  {
    if e > 0 {
      RoundReach(plan, e - 1, lanes);
      assert RoundInts(plan[e - 1], lanes);
    }
  }

  lemma WaveReach(dst: int, src: int, plan: seq<Round>, lane: nat, lanes: nat, op: Op<int>)
    requires lanes > 0 && Chained(plan) && WaveInts(plan, lanes)
    requires MovesAny(WaveSegs(dst, src, plan, lane, lanes), op)
    ensures op.dst < dst + 5 * INT_LIMIT
  {
    InSomeRound(dst, src, plan, lane, lanes, op);
    var r :| r in plan && MovesAny(RoundSegs(dst, src, r, lane, lanes), op);
    var e: nat :| e < |plan| && plan[e] == r;
    RoundReach(plan, e, lanes);
    assert RoundInts(r, lanes);
    RoundBounds(dst, src, r, lane, lanes, op);
  }

  /** The first round overflows, or its chunk count is narrowed. */
  lemma NarrowedOrOver(size: nat, chunks: int)
    requires size >= INT_LIMIT && chunks == IntCast(size / 16) && IsInt(chunks * 16)
    ensures size >= 16 * INT_LIMIT
  {
  }

  /** From 2^31 bytes on, a wave overflows an `int` or leaves the last byte out. */
  lemma WaveFails(dst: int, src: int, size: nat, lane: nat, lanes: nat)
    requires lanes > 0 && size >= INT_LIMIT && WaveInts(Plan(size), lanes)
    ensures !MovesAny(WaveSegs(dst, src, Plan(size), lane, lanes), Op(dst + size - 1, src + size - 1))
  {
    var plan := Plan(size);
    PlanChained(size);
    assert RoundOk(plan[0]) && RoundInts(plan[0], lanes);
    NarrowedOrOver(size, plan[0].chunks);
    if MovesAny(WaveSegs(dst, src, plan, lane, lanes), Op(dst + size - 1, src + size - 1)) {
      WaveReach(dst, src, plan, lane, lanes, Op(dst + size - 1, src + size - 1));
    }
  }

  // Two sizes.

  const BIG: nat := 0x10_0000_0000

  /** For 2^36 bytes every chunk count narrows to 0. */
  lemma BigRound(s: WaveState, j: nat)
    requires s.size == BIG && j in {1, 2, 4, 8, 16}
    ensures RoundOf(s, j) == Round(j, 0, 0, s.at) && Advance(s, RoundOf(s, j)) == s
  {
  }

  lemma BigPlan(size: nat)
    requires size == BIG
    ensures forall r :: r in Plan(size) ==> r.chunks == 0 && r.moved == 0
  {
    var s := WaveState(size, 0);
    BigRound(s, 16);
    BigRound(s, 8);
    BigRound(s, 4);
    BigRound(s, 2);
    BigRound(s, 1);
  }

  lemma BigIdle(dst: int, src: int, size: nat, lane: nat, lanes: nat, op: Op<int>)
    requires lanes > 0 && size == BIG
    ensures !MovesAny(WaveSegs(dst, src, Plan(size), lane, lanes), op) && WaveInts(Plan(size), lanes)
  {
    BigPlan(size);
    Idle(dst, src, Plan(size), lane, lanes, op);
  }

  lemma Idle(dst: int, src: int, plan: seq<Round>, lane: nat, lanes: nat, op: Op<int>)
    requires lanes > 0 && forall r :: r in plan ==> r.chunks == 0 && r.moved == 0
    ensures !MovesAny(WaveSegs(dst, src, plan, lane, lanes), op) && WaveInts(plan, lanes)
  {
    InSomeRound(dst, src, plan, lane, lanes, op);
  }

  /** Eight bytes less: the first count narrows to -1, which moves both pointers back. */
  lemma StrayPlan(size: nat)
    requires size == BIG - 8
    ensures Plan(size)
         == [Round(16, -1, -16, 0), Round(8, 1, 8, -16), Round(4, 0, 0, -8), Round(2, 0, 0, -8), Round(1, 0, 0, -8)]
  {
    var s, s1, s2 := WaveState(size, 0), WaveState(BIG + 8, -16), WaveState(BIG, -8);
    assert RoundOf(s, 16) == Round(16, -1, -16, 0) && Advance(s, RoundOf(s, 16)) == s1;
    assert RoundOf(s1, 8) == Round(8, 1, 8, -16) && Advance(s1, RoundOf(s1, 8)) == s2;
    BigRound(s2, 4);
    BigRound(s2, 2);
    BigRound(s2, 1);
  }

  /** Lane 0 then copies 8 bytes from before the source to before the destination. */
  lemma WaveStrays(dst: int, src: int, size: nat, lanes: nat)
    requires 0 < lanes < INT_LIMIT && size == BIG - 8
    ensures MovesAny(WaveSegs(dst, src, Plan(size), 0, lanes), Op(dst - 16, src - 16))
    ensures WaveInts(Plan(size), lanes)
  {
    StrayPlan(size);
    var r := Round(8, 1, 8, -16);
    assert r == Plan(size)[1];
    Stray(dst, src, Plan(size), r, lanes);
  }

  lemma Stray(dst: int, src: int, plan: seq<Round>, r: Round, lanes: nat)
    requires lanes > 0 && r in plan && r == Round(8, 1, 8, -16)
    ensures MovesAny(WaveSegs(dst, src, plan, 0, lanes), Op(dst - 16, src - 16))
  {
    var op: Op<int> := Op(dst - 16, src - 16);
    assert Unit(dst - 16, src - 16, 8, 0) in RoundSegs(dst, src, r, 0, lanes);
    assert Moves(Unit(dst - 16, src - 16, 8, 0), op);
    InSomeRound(dst, src, plan, 0, lanes, op);
  }
}
