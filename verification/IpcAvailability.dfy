/** Which PEs are reachable by IPC: the host scans a list of ranks, the device uses the
    pattern detected in it. Both must give the same answer for every target. */
module IpcAvailability {
  import opened Arith
  import opened MachineInts
  import opened Options

  /** Ranks are PE numbers, and their count fits an `int`. */
  predicate Ranks(ranks: seq<int>) {
    |ranks| < INT_LIMIT && forall i :: 0 <= i < |ranks| ==> 0 <= ranks[i] < INT_LIMIT
  }

  /** First position of a target, from position `k` on. */
  function Find(ranks: seq<int>, target: int, k: nat): (r: Option<nat>)
    requires k <= |ranks|
    ensures r.None? <==> forall i :: k <= i < |ranks| ==> ranks[i] != target
    ensures r.Some? ==> k <= r.value < |ranks| && ranks[r.value] == target
    ensures r.Some? ==> forall i :: k <= i < r.value ==> ranks[i] != target
    decreases |ranks| - k
  {
    if k == |ranks| then None else if ranks[k] == target then Some(k) else Find(ranks, target, k + 1)
  }

  /** Position `i` of the arithmetic progression that the detection looks for. */
  function Term(first: int, stride: int, i: int): int { first + stride * i }

  predicate Progression(ranks: seq<int>, first: int, stride: int) {
    forall i :: 0 <= i < |ranks| ==> ranks[i] == Term(first, stride, i)
  }

  /** Result of the detection; stride 0 means that there is no pattern. */
  ghost predicate Detected(ranks: seq<int>, first: int, stride: int) {
    && (|ranks| > 0 ==> first == ranks[0])
    && (stride != 0 ==> 0 < stride < INT_LIMIT && |ranks| > 0 && Progression(ranks, first, stride))
    && (|ranks| == 1 ==> stride == 1)
    && (|ranks| > 1 && stride == 0 ==> forall s :: s > 0 ==> !Progression(ranks, first, s))
  }

  /** Division that truncates toward zero. */
  function TruncDiv(a: int, b: int): int
    requires b > 0
  {
    if a >= 0 then a / b else -((-a) / b)
  }

  function Unsigned(x: int): nat { x % INT_MOD }

  /** `isIpcAvailable_strided`. */
  function Strided(offset: nat, stride: int, shmSize: nat): Option<nat>
    requires stride > 0
  {
    var idx := TruncDiv(IntCast(offset), stride);
    if Unsigned(idx) < shmSize && offset == Unsigned(idx * stride) then Some(Unsigned(idx)) else None
  }

  /** The branch for consecutive PEs. */
  function Consecutive(offset: nat, shmSize: nat): Option<nat> {
    if offset < shmSize then Some(offset) else None
  }

  /** The answer of the device where there is a pattern. */
  function Pattern(offset: nat, stride: int, shmSize: nat): Option<nat>
    requires stride > 0
  {
    if stride == 1 then Consecutive(offset, shmSize) else Strided(offset, stride, shmSize)
  }

  // A progression of ranks.

  lemma TermGrows(first: int, stride: int, i: nat, j: nat)
    requires stride > 0 && i < j
    ensures Term(first, stride, i) + stride <= Term(first, stride, j)
  {
    RowsApart(i, j, stride);
  }

  /** In a progression a target has at most one position. */
  lemma FindTerm(ranks: seq<int>, first: int, stride: int, i: nat)
    requires stride > 0 && Progression(ranks, first, stride) && i < |ranks|
    ensures Find(ranks, Term(first, stride, i), 0) == Some(i)
  {
    var r := Find(ranks, Term(first, stride, i), 0);
    assert ranks[i] == Term(first, stride, i);
    if r.value < i {
      TermGrows(first, stride, r.value, i);
    }
  }

  lemma FindNot(ranks: seq<int>, first: int, stride: int, target: int)
    requires Progression(ranks, first, stride)
    requires forall i: nat :: i < |ranks| ==> target != Term(first, stride, i)
    ensures Find(ranks, target, 0) == None
  {
  }

  /** Targets before the first rank wrap to offsets past the last one. */
  lemma Wrapped(first: int, last: int, target: int)
    requires 0 <= first <= last < INT_LIMIT && IsInt(target)
    ensures var offset := Unsigned(target - first);
            if target >= first then offset == target - first < INT_LIMIT && IntCast(offset) == target - first
            else offset > last - first && (IntCast(offset) < 0 || IntCast(offset) == offset)
  {
  }

  lemma LastTerm(ranks: seq<int>, first: int, stride: int)
    requires Ranks(ranks) && |ranks| > 0 && stride > 0 && Progression(ranks, first, stride)
    ensures 0 <= first <= Term(first, stride, |ranks| - 1) < INT_LIMIT && ranks[0] == first
  {
    assert ranks[0] == Term(first, stride, 0);
    assert ranks[|ranks| - 1] == Term(first, stride, |ranks| - 1);
    MulMonotone(0, |ranks| - 1, stride);
  }

  lemma ConsecutiveAgrees(ranks: seq<int>, first: int, target: int)
    requires Ranks(ranks) && |ranks| > 0 && Progression(ranks, first, 1) && IsInt(target)
    ensures Consecutive(Unsigned(target - first), |ranks|) == Find(ranks, target, 0)
  {
    LastTerm(ranks, first, 1);
    Wrapped(first, first + |ranks| - 1, target);
    if first <= target < first + |ranks| {
      FindTerm(ranks, first, 1, target - first);
    } else {
      FindNot(ranks, first, 1, target);
    }
  }

  /** A target at or after the first rank. */
  lemma StridedAbove(ranks: seq<int>, first: int, stride: int, target: int)
    requires Ranks(ranks) && |ranks| > 0 && stride > 0 && Progression(ranks, first, stride)
    requires first <= target < INT_LIMIT && ranks[0] == first
    ensures Strided(Unsigned(target - first), stride, |ranks|) == Find(ranks, target, 0)
  {
    var d := target - first;
    StridedIs(d, stride, |ranks|);
    if d / stride < |ranks| && d % stride == 0 {
      PositionSplit(d, stride);
      assert target == Term(first, stride, d / stride);
      FindTerm(ranks, first, stride, d / stride);
    } else {
      forall i: nat | i < |ranks| ensures target != Term(first, stride, i) {
        TermDivides(first, stride, i);
      }
      FindNot(ranks, first, stride, target);
    }
  }

  lemma TermDivides(first: int, stride: nat, i: nat)
    requires stride > 0
    ensures var d := Term(first, stride, i) - first; d / stride == i && d % stride == 0
  {
    assert Term(first, stride, i) - first == i * stride + 0;
    DivMod(i, 0, stride);
  }

  /** Without wrapping, the check is divisibility and a bound. */
  lemma StridedIs(d: nat, stride: int, shmSize: nat)
    requires stride > 0 && d < INT_LIMIT && shmSize < INT_LIMIT
    ensures Unsigned(d) == d
    ensures Strided(d, stride, shmSize) == if d / stride < shmSize && d % stride == 0 then Some(d / stride) else None
  {
    QuotientBounds(d, stride);
    ExactProduct(d, d / stride, stride);
  }

  lemma QuotientBounds(d: nat, stride: nat)
    requires stride > 0
    ensures 0 <= d / stride <= d / stride * stride == d - d % stride <= d
  {
    PositionSplit(d, stride);
    MulMonotone(1, stride, d / stride);
  }

  /** Nothing wraps for numbers up to `d`. */
  lemma ExactProduct(d: nat, idx: nat, stride: nat)
    requires d < INT_LIMIT && idx <= idx * stride <= d
    ensures Unsigned(d) == d && IntCast(d) == d && Unsigned(idx) == idx && Unsigned(idx * stride) == idx * stride
  {
  }

  lemma NegativeIndex(d: int, stride: int, shmSize: nat)
    requires IsInt(d) && d < 0 && stride > 0 && shmSize < INT_LIMIT
    ensures var idx := TruncDiv(d, stride); idx == 0 || Unsigned(idx) >= shmSize
  {
    PositionSplit(-d, stride);
    MulMonotone(1, stride, (-d) / stride);
  }

  /** An offset that is negative as an `int` is rejected. */
  lemma StridedNegative(offset: nat, stride: int, shmSize: nat)
    requires stride > 0 && shmSize < INT_LIMIT && IntCast(offset) < 0
    ensures Strided(offset, stride, shmSize) == None
  {
    NegativeIndex(IntCast(offset), stride, shmSize);
    assert 0 * stride == 0;
  }

  /** An offset past the last rank is rejected. */
  lemma StridedFar(offset: nat, stride: int, shmSize: nat)
    requires stride > 0 && 0 < shmSize < INT_LIMIT && stride * (shmSize - 1) < offset < INT_LIMIT
    ensures Strided(offset, stride, shmSize) == None
  {
    StridedIs(offset, stride, shmSize);
    FarIndex(offset, stride, shmSize);
  }

  lemma FarIndex(d: nat, stride: nat, shmSize: nat)
    requires stride > 0 && shmSize > 0 && stride * (shmSize - 1) < d
    ensures d / stride >= shmSize || d % stride != 0
  {
    PositionSplit(d, stride);
    if d / stride < shmSize {
      MulMonotone(d / stride, shmSize - 1, stride);
    }
  }

  lemma NoneBelow(ranks: seq<int>, first: int, stride: int, target: int)
    requires stride > 0 && Progression(ranks, first, stride) && target < first
    ensures Find(ranks, target, 0) == None
  {
    forall i: nat | i < |ranks| ensures target != Term(first, stride, i) {
      MulMonotone(0, i, stride);
    }
    FindNot(ranks, first, stride, target);
  }

  /** A target before the first rank, whose offset wraps. */
  lemma StridedBelow(ranks: seq<int>, first: int, stride: int, target: int)
    requires Ranks(ranks) && |ranks| > 0 && stride > 0 && Progression(ranks, first, stride)
    requires target < first && IsInt(target)
    ensures Strided(Unsigned(target - first), stride, |ranks|) == None == Find(ranks, target, 0)
  {
    LastTerm(ranks, first, stride);
    Wrapped(first, Term(first, stride, |ranks| - 1), target);
    NoneBelow(ranks, first, stride, target);
    var offset := Unsigned(target - first);
    if IntCast(offset) < 0 {
      StridedNegative(offset, stride, |ranks|);
    } else {
      StridedFar(offset, stride, |ranks|);
    }
  }

  lemma StridedAgrees(ranks: seq<int>, first: int, stride: int, target: int)
    requires Ranks(ranks) && |ranks| > 0 && stride > 0 && Progression(ranks, first, stride) && IsInt(target)
    ensures Strided(Unsigned(target - first), stride, |ranks|) == Find(ranks, target, 0)
  {
    LastTerm(ranks, first, stride);
    if target >= first {
      StridedAbove(ranks, first, stride, target);
    } else {
      StridedBelow(ranks, first, stride, target);
    }
  }

  /** The device's arithmetic finds what a scan of the list finds, for every target. */
  lemma PatternAgrees(ranks: seq<int>, first: int, stride: int, target: int)
    requires Ranks(ranks) && Detected(ranks, first, stride) && stride > 0 && IsInt(target)
    ensures Pattern(Unsigned(target - first), stride, |ranks|) == Find(ranks, target, 0)
  {
    if stride == 1 {
      ConsecutiveAgrees(ranks, first, target);
    } else {
      StridedAgrees(ranks, first, stride, target);
    }
  }

  /** A progression of two or more ranks has the difference of the first two as its stride. */
  lemma OneStride(ranks: seq<int>, first: int, s: int)
    requires |ranks| > 1 && first == ranks[0] && Progression(ranks, first, s)
    ensures s == ranks[1] - ranks[0]
  {
    assert ranks[1] == Term(first, s, 1);
  }

  /** The `int` comparison of the detection loop decides the next term, wrapping or not. */
  lemma NextTerm(ranks: seq<int>, first: int, stride: int, i: nat)
    requires Ranks(ranks) && i < |ranks| && 0 < stride < INT_LIMIT && first == ranks[0]
    requires forall j :: 0 <= j < i ==> ranks[j] == Term(first, stride, j)
    ensures ranks[i] == IntCast(Term(first, stride, i)) <==> ranks[i] == Term(first, stride, i)
  {
    if i > 0 {
      assert ranks[i - 1] == Term(first, stride, i - 1);
      assert Term(first, stride, i) == Term(first, stride, i - 1) + stride;
    }
  }

  class IpcImpl {
    var pes: Option<seq<int>>
    var firstPe: int
    var stride: int

    ghost predicate Ready()
      reads this
    {
      pes.Some? ==> Ranks(pes.value) && Detected(pes.value, firstPe, stride)
    }

    constructor ()
      ensures Ready() && pes == None
    {
      pes, firstPe, stride := None, 0, 0;
    }

    method IpcDetectPattern(ranks: seq<int>)
      requires Ranks(ranks)
      modifies this`firstPe, this`stride
      ensures Detected(ranks, firstPe, stride)
    {
      stride := 0;
      if |ranks| == 0 {
        return;
      }
      firstPe := ranks[0];
      var step := if |ranks| > 1 then ranks[1] - ranks[0] else 1;
      forall s | |ranks| > 1 && Progression(ranks, firstPe, s) ensures s == step {
        OneStride(ranks, firstPe, s);
      }
      if step <= 0 {
        return;
      }
      for i := 0 to |ranks|
        invariant forall j :: 0 <= j < i ==> ranks[j] == Term(firstPe, step, j)
        invariant firstPe == ranks[0] && stride == 0
      {
        NextTerm(ranks, firstPe, step, i);
        if ranks[i] != IntCast(firstPe + step * i) {
          return;
        }
      }
      stride := step;
    }

    /** Takes over the list of ranks of the node. */
    method IpcHostInit(ranks: seq<int>)
      requires Ranks(ranks)
      modifies this
      ensures Ready() && pes == Some(ranks)
    {
      pes := Some(ranks);
      IpcDetectPattern(ranks);
    }

    /** The scan of the host, and of the device when there is no pattern. */
    method Scan(target: int) returns (found: Option<nat>)
      requires pes.Some?
      ensures found == Find(pes.value, target, 0)
    {
      for i := 0 to |pes.value|
        invariant Find(pes.value, target, 0) == Find(pes.value, target, i)
      {
        if pes.value[i] == target {
          return Some(i);
        }
      }
      found := None;
    }

    method HostIsIpcAvailable(target: int) returns (found: Option<nat>)
      ensures found == Answer(target)
    {
      if pes.None? {
        return None;
      }
      found := Scan(target);
    }

    /** Position of the target among the ranks of the node. */
    function Answer(target: int): Option<nat>
      reads this
    {
      if pes.None? then None else Find(pes.value, target, 0)
    }

    /** The branch for strided PEs. */
    method IsIpcAvailableStrided(target: int) returns (found: Option<nat>)
      requires Ready() && IsInt(target) && pes.Some? && |pes.value| > 0 && stride > 1
      ensures found == Answer(target)
    {
      found := Strided(Unsigned(target - firstPe), stride, |pes.value|);
      StridedAgrees(pes.value, firstPe, stride, target);
    }

    /** `found` is the verdict and, where it is positive, the index written. */
    method DeviceIsIpcAvailable(target: int) returns (found: Option<nat>)
      requires Ready() && IsInt(target)
      ensures found == Answer(target)
    {
      var shmSize := if pes.Some? then |pes.value| else 0;
      if shmSize == 0 {
        return None;
      }
      if stride == 1 {
        ConsecutiveAgrees(pes.value, firstPe, target);
        return Consecutive(Unsigned(target - firstPe), shmSize);
      }
      if stride > 1 {
        found := IsIpcAvailableStrided(target);
        return;
      }
      found := Scan(target);
    }
  }
}
