/** Registration of local user buffers: `Backend::buffer_register` and
    `Backend::buffer_unregister` over one ordered map of regions. */
module UserBuffers {
  import opened Options
  import opened Intervals

  /** The one region that holds `target`, if there is one. */
  ghost predicate Holds(m: Regions, s: Addr, target: nat) {
    s in m && s <= target < s + m[s]
  }

  /** `prev(upper_bound(target))` is the only candidate, whatever else is registered. */
  lemma OnlyPredecessorCanHold(m: Regions, target: Addr, it: Option<Addr>, p: Option<Addr>, s: Addr)
    requires Separated(m) && IsLowerBound(m, target + 1, it) && IsBefore(m, it, p)
    requires Holds(m, s, target)
    ensures p == Some(s)
  {
    assert p.Some? && s <= p.value;
    assert p.value != s ==> Disjoint(s, m[s], p.value, m[p.value]);
  }

  datatype Op = Reg(addr: Addr, length: nat) | Unreg(addr: Addr) | UnregAll

  /** What one call does to the set of regions, said without iterators. */
  ghost predicate Step(m: Regions, op: Op, ok: bool, m': Regions) {
    match op
    case Reg(a, n) =>
      && (ok <==> a != 0 && n != 0 && a + n < WORD && !Overlaps(m, a, n))
      && m' == if ok then m[a := n] else m
    case Unreg(a) =>
      && (ok <==> a != 0 && exists s: Addr :: Holds(m, s, a))
      && (if ok then exists s: Addr :: Holds(m, s, a) && m' == m - {s} else m' == m)
    case UnregAll => m' == map[]
  }

  class UserBuffers {
    var regions: Regions

    ghost predicate Valid()
      reads this
    {
      Separated(regions)
    }

    constructor ()
      ensures Valid() && regions == map[]
    {
      regions := map[];
    }

    method BufferRegister(addr: Addr, length: nat) returns (ok: bool)
      requires Valid() && length < WORD
      modifies this
      ensures Valid()
      ensures ok <==> addr != 0 && length != 0 && addr + length < WORD && !Overlaps(old(regions), addr, length)
      ensures regions == if ok then old(regions)[addr := length] else old(regions)
      ensures Step(old(regions), Reg(addr, length), ok, regions)
    {
      if addr == 0 {
        return false;
      }
      if length == 0 {
        return false;
      }
      if addr > UINTPTR_MAX - length {
        return false;
      }
      var end := addr + length;
      var it := LowerBound(regions, addr);
      var prev := Before(regions, it);
      NeighboursDecide(regions, addr, length, it, prev);
      TwoNeighboursSuffice(regions, addr, length);
      if it.Some? && it.value < end {
        return false;
      }
      if prev.Some? {
        var prevEnd := prev.value + regions[prev.value];
        if prevEnd > addr {
          return false;
        }
      }
      AddSeparated(regions, addr, length);
      regions := regions[addr := length];
      return true;
    }

    method BufferUnregister(addr: Addr) returns (ok: bool)
      requires Valid()
      modifies this
      ensures Valid()
      ensures ok <==> addr != 0 && exists s: Addr :: Holds(old(regions), s, addr)
      ensures forall s: Addr :: ok && Holds(old(regions), s, addr) ==> regions == old(regions) - {s}
      ensures !ok ==> regions == old(regions)
      ensures Step(old(regions), Unreg(addr), ok, regions)
    {
      if addr == 0 {
        return false;
      }
      var it := LowerBound(regions, addr + 1);
      var prev := Before(regions, it);
      forall s: Addr | Holds(regions, s, addr) ensures prev == Some(s) {
        OnlyPredecessorCanHold(regions, addr, it, prev, s);
      }
      if prev.Some? {
        var start := prev.value;
        var end := start + regions[start];
        if addr < end {
          assert Holds(regions, start, addr);
          regions := regions - {start};
          return true;
        }
      }
      return false;
    }

    method BufferUnregisterAll()
      modifies this
      ensures Valid() && regions == map[] && Step(old(regions), UnregAll, true, regions)
    {
      regions := map[];
    }
  }

  // ------------------------------------------------------------------------- whole runs

  ghost predicate Run(ops: seq<Op>, oks: seq<bool>, states: seq<Regions>) {
    && |oks| == |ops| && |states| == |ops| + 1 && states[0] == map[]
    && forall i :: 0 <= i < |ops| ==> Step(states[i], ops[i], oks[i], states[i + 1])
  }

  lemma {:induction false} EveryRunSeparated(ops: seq<Op>, oks: seq<bool>, states: seq<Regions>, i: nat)
    requires Run(ops, oks, states) && i <= |ops|
    ensures Separated(states[i])
  {
    if i > 0 {
      EveryRunSeparated(ops, oks, states, i - 1);
      var m := states[i - 1];
      assert Step(m, ops[i - 1], oks[i - 1], states[i]);
      if ops[i - 1].Reg? && oks[i - 1] {
        AddSeparated(m, ops[i - 1].addr, ops[i - 1].length);
      }
    }
  }

  /** A registered buffer can be unregistered through any of its bytes, and that undoes it. */
  lemma RegisterThenUnregister(m: Regions, a: Addr, n: nat, m1: Regions, k: Addr, ok: bool, m2: Regions)
    requires Separated(m) && Step(m, Reg(a, n), true, m1)
    requires a <= k < a + n && Step(m1, Unreg(k), ok, m2)
    ensures ok && m2 == m
  {
    AddSeparated(m, a, n);
    assert a in m ==> Disjoint(a, m[a], a, n);
    assert Holds(m1, a, k);
    var s: Addr :| Holds(m1, s, k) && m2 == m1 - {s};
    assert s != a ==> Disjoint(s, m1[s], a, m1[a]);
    assert m1 - {a} == m;
  }
}
