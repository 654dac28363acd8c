/** What one worker does to memory: `memcpy_lane`, `memcpy_wave` and the loops of
    `tile_memcpy_rma`, on an array of bytes. */
module TileMemcpy {
  import opened CopyOps
  import opened MachineInts
  import opened Tile
  import opened TileWave

  type Byte = b: int | 0 <= b < 256

  ghost function Cells(mem: seq<Byte>): map<int, Byte> { map a | 0 <= a < |mem| :: mem[a] }

  ghost predicate Safe(all: iset<Op<int>>, length: nat) {
    Independent(all) && forall op :: op in all ==> 0 <= op.src < length && 0 <= op.dst < length
  }

  /** The bytes of `s` are copied and nothing else changes. */
  ghost predicate SegCopied(before: seq<Byte>, s: Seg, after: seq<Byte>) {
    && |after| == |before|
    && (s.len > 0 ==> 0 <= s.dst && s.dst + s.len <= |before| && 0 <= s.src && s.src + s.len <= |before|)
    && (forall a {:trigger after[a]} :: s.dst <= a < s.dst + s.len ==> after[a] == before[s.src + (a - s.dst)])
    && (forall a {:trigger after[a]} :: 0 <= a < |before| && !(s.dst <= a < s.dst + s.len) ==> after[a] == before[a])
  }

  lemma InOps(s: Seg, b: nat)
    requires b < s.len
    ensures Op(s.dst + b, s.src + b) in OpsOf([s])
  {
    var op: Op<int> := Op(s.dst + b, s.src + b);
    assert s in [s] && Moves(s, op);
  }

  lemma Untouched(s: Seg, l: int)
    requires forall op :: op in OpsOf([s]) ==> op.dst != l
    ensures !(s.dst <= l < s.dst + s.len)
  {
    if s.dst <= l < s.dst + s.len {
      InOps(s, l - s.dst);
    }
  }

  lemma SegCopies(before: seq<Byte>, s: Seg, after: seq<Byte>)
    requires SegCopied(before, s, after)
    ensures Copied(Cells(before), OpsOf([s]), Cells(after))
  {
    forall l | l in Cells(before) && (forall op :: op in OpsOf([s]) ==> op.dst != l)
      ensures Cells(after)[l] == Cells(before)[l]
    {
      Untouched(s, l);
    }
  }

  lemma OpsOfConcat(a: seq<Seg>, b: seq<Seg>)
    ensures OpsOf(a + b) == OpsOf(a) + OpsOf(b)
  {
    forall op ensures op in OpsOf(a + b) <==> op in OpsOf(a) + OpsOf(b) {
      if s :| s in a + b && Moves(s, op) {
        assert s in a || s in b;
      }
      if s :| s in a && Moves(s, op) {
        assert s in a + b;
      }
      if s :| s in b && Moves(s, op) {
        assert s in a + b;
      }
    }
  }

  lemma Distinct(s: Seg, all: iset<Op<int>>, x: nat, y: nat)
    requires Independent(all) && OpsOf([s]) <= all && x < s.len && y < s.len
    ensures s.dst + x != s.src + y
  {
    InOps(s, x);
    InOps(s, y);
  }

  /** A segment of a safe set lies in memory and does not overlap its source. */
  lemma SegInside(s: Seg, all: iset<Op<int>>, length: nat)
    requires Safe(all, length) && OpsOf([s]) <= all && s.len > 0
    ensures 0 <= s.dst && s.dst + s.len <= length && 0 <= s.src && s.src + s.len <= length
    ensures s.dst + s.len <= s.src || s.src + s.len <= s.dst
  {
    InOps(s, 0);
    InOps(s, s.len - 1);
    if s.src <= s.dst < s.src + s.len {
      Distinct(s, all, 0, s.dst - s.src);
    } else if s.dst <= s.src < s.dst + s.len {
      Distinct(s, all, s.src - s.dst, 0);
    }
  }

  /** `put_asm` and `get_asm`: one access of `n` bytes. */
  method CopyChunk(mem: array<Byte>, dst: nat, src: nat, n: nat)
    requires dst + n <= mem.Length && src + n <= mem.Length
    modifies mem
    ensures SegCopied(old(mem[..]), Seg(dst, src, n), mem[..])
  {
    forall b | 0 <= b < n {
      mem[dst + b] := mem[src + b];
    }
  }

  lemma SegExtend(before: seq<Byte>, dst: nat, src: nat, n: nat, between: seq<Byte>, m: nat, after: seq<Byte>)
    requires SegCopied(before, Seg(dst, src, n), between) && SegCopied(between, Seg(dst + n, src + n, m), after)
    requires dst + n + m <= |before| && src + n + m <= |before|
    requires dst + n + m <= src || src + n + m <= dst
    ensures SegCopied(before, Seg(dst, src, n + m), after)
  {
    forall a | dst <= a < dst + n + m ensures after[a] == before[src + (a - dst)] {
      assert between[src + (a - dst)] == before[src + (a - dst)];
    }
  }

  /** One step of `memcpy_lane`: the next `i` bytes after the first `n`. */
  method LaneStep(mem: array<Byte>, ghost before: seq<Byte>, dst: nat, src: nat, n: nat, i: nat)
    requires dst + n + i <= mem.Length == |before| && src + n + i <= mem.Length
    requires dst + n + i <= src || src + n + i <= dst
    requires SegCopied(before, Seg(dst, src, n), mem[..])
    modifies mem
    ensures SegCopied(before, Seg(dst, src, n + i), mem[..])
  {
    ghost var between := mem[..];
    CopyChunk(mem, dst + n, src + n, i);
    SegExtend(before, dst, src, n, between, i, mem[..]);
  }

  /** The inner loop of `memcpy_lane`: as many chunks of `i` bytes as fit. */
  method LaneChunks(mem: array<Byte>, ghost before: seq<Byte>, dst: int, src: int, size: nat, from: nat, i: nat)
    returns (done: nat)
    requires mem.Length == |before| && from <= size && i > 0
    requires size > 0 ==> 0 <= dst && dst + size <= mem.Length && 0 <= src && src + size <= mem.Length
    requires size > 0 ==> dst + size <= src || src + size <= dst
    requires SegCopied(before, Seg(dst, src, from), mem[..])
    modifies mem
    ensures size - i < done <= size && SegCopied(before, Seg(dst, src, done), mem[..])
  {
    done := from;
    while size - done >= i
      invariant done <= size && SegCopied(before, Seg(dst, src, done), mem[..])
    {
      LaneStep(mem, before, dst, src, done, i);
      done := done + i;
    }
  }

  /** `memcpy_lane`: chunks of 16, 8, 4, 2 and 1 bytes. */
  method MemcpyLane(mem: array<Byte>, dst: int, src: int, size: nat)
    requires size > 0 ==> 0 <= dst && dst + size <= mem.Length && 0 <= src && src + size <= mem.Length
    requires size > 0 ==> dst + size <= src || src + size <= dst
    modifies mem
    ensures SegCopied(old(mem[..]), Seg(dst, src, size), mem[..])
  {
    ghost var before := mem[..];
    var done, i := 0, 16;
    while i >= 1
      invariant 0 <= done <= size && i >= 0 && (i == 0 ==> done == size)
      invariant SegCopied(before, Seg(dst, src, done), mem[..])
      decreases i
    {
      done := LaneChunks(mem, before, dst, src, size, done, i);
      i := i / 2;
    }
  }

  /** `now` has the copies of `done` made; those of `later` complete `whole`. */
  ghost predicate Underway(before: seq<Byte>, whole: seq<Seg>, done: seq<Seg>, later: seq<Seg>, now: seq<Byte>) {
    |now| == |before| && done + later == whole && Copied(Cells(before), OpsOf(done), Cells(now))
  }

  lemma Begin(mem: seq<Byte>, whole: seq<Seg>)
    ensures Underway(mem, whole, [], whole, mem)
  {
  }

  lemma Middle(a: seq<Seg>, b: seq<Seg>, c: seq<Seg>)
    ensures OpsOf(a) <= OpsOf(a + (b + c)) && OpsOf(b) <= OpsOf(a + (b + c)) && (a + b) + c == a + (b + c)
  {
    OpsOfConcat(a, b + c);
    OpsOfConcat(b, c);
  }

  /** One more `memcpy_lane`. */
  method CopyNext(mem: array<Byte>, ghost before: seq<Byte>, ghost whole: seq<Seg>, ghost done: seq<Seg>, s: Seg,
                  ghost later: seq<Seg>)
    requires Safe(OpsOf(whole), mem.Length) && Underway(before, whole, done, [s] + later, mem[..])
    modifies mem
    ensures Underway(before, whole, done + [s], later, mem[..])
  {
    Middle(done, [s], later);
    if s.len > 0 {
      SegInside(s, OpsOf(whole), mem.Length);
    }
    ghost var between := mem[..];
    MemcpyLane(mem, s.dst, s.src, s.len);
    OneMore(before, whole, done, s, between, mem[..]);
  }

  lemma OneMore(before: seq<Byte>, whole: seq<Seg>, done: seq<Seg>, s: Seg, between: seq<Byte>, now: seq<Byte>)
    requires Safe(OpsOf(whole), |before|) && OpsOf(done) <= OpsOf(whole) && OpsOf([s]) <= OpsOf(whole)
    requires |between| == |before| && Copied(Cells(before), OpsOf(done), Cells(between)) && SegCopied(between, s, now)
    ensures Copied(Cells(before), OpsOf(done + [s]), Cells(now))
  {
    SegCopies(between, s, now);
    OpsOfConcat(done, [s]);
    CopiedThen(Cells(before), OpsOf(done), Cells(between), OpsOf([s]), Cells(now), OpsOf(whole));
  }

  /** The row, column and element loops: piece `w`, then every `count`-th one. */
  method CopyPieces(mem: array<Byte>, v: View, w: nat, count: nat)
    requires count > 0 && Safe(OpsOf(Share(v, PieceCount(v), w, count)), mem.Length)
    requires v.ndim == 2 && Classify(v) == Strided && PieceCount(v) > 0 ==> PieceCount(v) + count <= INT_LIMIT
    modifies mem
    ensures Copied(Cells(old(mem[..])), OpsOf(Share(v, PieceCount(v), w, count)), Cells(mem[..]))
  {
    ghost var before, done: seq<Seg> := mem[..], [];
    var n := PieceCount(v);
    ghost var whole := Share(v, n, w, count);
    Begin(before, whole);
    var k := w;
    while k < n
      invariant Underway(before, whole, done, Share(v, n, k, count), mem[..])
    {
      assert v.ndim == 2 && Classify(v) == Strided ==> IsInt(k + count);
      CopyNext(mem, before, whole, done, Piece(v, k), Share(v, n, k + count, count));
      done := done + [Piece(v, k)];
      k := k + count;
    }
    assert done + [] == done;
  }

  /** One round of `memcpy_wave` in one lane. */
  method CopyChunks(mem: array<Byte>, ghost before: seq<Byte>, ghost whole: seq<Seg>, ghost done: seq<Seg>,
                    ghost later: seq<Seg>, dst: int, src: int, j: nat, chunks: int, lane: nat, lanes: nat)
    requires lanes > 0 && Safe(OpsOf(whole), mem.Length) && (chunks > 0 ==> chunks + lanes <= INT_LIMIT)
    requires Underway(before, whole, done, Chunks(dst, src, j, chunks, lane, lanes) + later, mem[..])
    modifies mem
    ensures Underway(before, whole, done + Chunks(dst, src, j, chunks, lane, lanes), later, mem[..])
  {
    ghost var made := done;
    var k := lane;
    while k < chunks
      invariant Underway(before, whole, made, Chunks(dst, src, j, chunks, k, lanes) + later, mem[..])
      invariant made + Chunks(dst, src, j, chunks, k, lanes) == done + Chunks(dst, src, j, chunks, lane, lanes)
    {
      ghost var rest := Chunks(dst, src, j, chunks, k + lanes, lanes);
      Regroup(made, Unit(dst, src, j, k), rest, later);
      CopyNext(mem, before, whole, made, Unit(dst, src, j, k), rest + later);
      made := made + [Unit(dst, src, j, k)];
      assert IsInt(k + lanes);
      k := k + lanes;
    }
    assert made + [] == made && [] + later == later;
  }

  lemma Regroup(made: seq<Seg>, s: Seg, rest: seq<Seg>, later: seq<Seg>)
    ensures ([s] + rest) + later == [s] + (rest + later) && made + ([s] + rest) == (made + [s]) + rest
  {
  }

  method WaveRound(mem: array<Byte>, ghost before: seq<Byte>, ghost whole: seq<Seg>, ghost done: seq<Seg>,
                   ghost later: seq<Seg>, dst: int, src: int, r: Round, lane: nat, lanes: nat)
    requires lanes > 0 && Safe(OpsOf(whole), mem.Length) && RoundInts(r, lanes)
    requires Underway(before, whole, done, RoundSegs(dst, src, r, lane, lanes) + later, mem[..])
    modifies mem
    ensures Underway(before, whole, done + RoundSegs(dst, src, r, lane, lanes), later, mem[..])
  {
    CopyChunks(mem, before, whole, done, later, dst + r.at, src + r.at, r.j, r.chunks, lane, lanes);
  }

  /** The loop of `memcpy_wave` in one lane, which goes through the rounds of `plan`. */
  method WaveRounds(mem: array<Byte>, dst: int, src: int, size: nat, ghost plan: seq<Round>, lane: nat, lanes: nat)
    requires lanes > 0 && IsPlan(size, plan) && WaveInts(plan, lanes)
    requires Safe(OpsOf(WaveSegs(dst, src, plan, lane, lanes)), mem.Length)
    modifies mem
    ensures Copied(Cells(old(mem[..])), OpsOf(WaveSegs(dst, src, plan, lane, lanes)), Cells(mem[..]))
  {
    ghost var before, done: seq<Seg>, e := mem[..], [], 0;
    ghost var whole := WaveSegs(dst, src, plan, lane, lanes);
    Begin(before, whole);
    assert plan[0..] == plan;
    var st, j := WaveState(size, 0), 16;
    while j >= 1
      invariant AtRound(size, e, st, j)
      invariant Underway(before, whole, done, WaveSegs(dst, src, plan[e..], lane, lanes), mem[..])
      decreases j
    {
      var r := RoundOf(st, j);
      NextRound(size, plan, e, st, j, lanes);
      WaveRound(mem, before, whole, done, WaveSegs(dst, src, plan[e + 1..], lane, lanes), dst, src, r, lane, lanes);
      done := done + RoundSegs(dst, src, r, lane, lanes);
      st := Advance(st, r);
      j, e := j / 2, e + 1;
    }
    assert plan[e..] == [] && done + [] == done;
  }

  /** The loop is about to start round `e`, or done. */
  ghost predicate AtRound(size: nat, e: nat, st: WaveState, j: int) {
    e <= 5 && j == (if e == 5 then 0 else Chunk(e)) && st == StateAt(size, e)
  }

  lemma NextRound(size: nat, plan: seq<Round>, e: nat, st: WaveState, j: int, lanes: nat)
    requires IsPlan(size, plan) && WaveInts(plan, lanes) && AtRound(size, e, st, j) && j >= 1
    ensures e < 5 && RoundOf(st, j) == plan[e] && RoundInts(plan[e], lanes)
    ensures plan[e..] == [plan[e]] + plan[e + 1..] && plan[e..][1..] == plan[e + 1..]
    ensures AtRound(size, e + 1, Advance(st, plan[e]), j / 2)
  {
  }

  /** `memcpy_wave` in one lane. */
  method MemcpyWave(mem: array<Byte>, dst: int, src: int, size: nat, lane: nat, lanes: nat)
    requires lanes > 0 && WaveInts(Plan(size), lanes)
    requires Safe(OpsOf(WaveSegs(dst, src, Plan(size), lane, lanes)), mem.Length)
    modifies mem
    ensures Copied(Cells(old(mem[..])), OpsOf(WaveSegs(dst, src, Plan(size), lane, lanes)), Cells(mem[..]))
  {
    PlanIsPlan(size);
    WaveRounds(mem, dst, src, size, Plan(size), lane, lanes);
  }

  /** `tile_memcpy_rma` in one worker: exactly the bytes of that worker are copied. */
  method TileMemcpyRma(mem: array<Byte>, v: View, scope: Scope, w: nat, count: nat)
    requires w < count && Safe(OpsOf(WorkerSegs(v, scope, w, count)), mem.Length)
    requires Defined(v, scope, count)
    modifies mem
    ensures Copied(Cells(old(mem[..])), OpsOf(WorkerSegs(v, scope, w, count)), Cells(mem[..]))
  {
    if Packed(v) {
      if scope == Wave {
        MemcpyWave(mem, v.dst, v.src, Bytes(v), w, count);
      } else {
        Begin(mem[..], WorkerSegs(v, scope, w, count));
        if w == 0 {
          var whole := Seg(v.dst, v.src, Bytes(v));
          CopyNext(mem, mem[..], [whole], [], whole, []);
          assert [] + [whole] == [whole];
        }
      }
    } else {
      CopyPieces(mem, v, w, count);
    }
  }
}
