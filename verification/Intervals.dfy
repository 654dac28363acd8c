/** Machine addresses and the ordered region maps that the backend keeps.

    The source keeps `std::map<uintptr_t, size_t>` values from a region's start to its
    length, and looks only at the two neighbours of a new range when it tests for overlap.
    Here such a map is a Dafny `map`; iterator positions are keys (`None` is `end()`). */
module Intervals {
  import opened Options

  const WORD: nat := 0x1_0000_0000_0000_0000
  const UINTPTR_MAX: nat := 0xFFFF_FFFF_FFFF_FFFF

  /** `uintptr_t`; 0 is the null pointer. */
  type Addr = a: nat | a < WORD

  type Regions = map<Addr, nat>

  ghost predicate Disjoint(a: nat, aLen: nat, b: nat, bLen: nat) {
    a + aLen <= b || b + bLen <= a
  }

  /** No region is empty, none reaches the top of the address space, no two overlap. */
  ghost predicate Separated(m: Regions) {
    && (forall s: Addr :: s in m ==> 0 < m[s] && s + m[s] < WORD)
    && (forall s: Addr, t: Addr :: s in m && t in m && s != t ==> Disjoint(s, m[s], t, m[t]))
  }

  ghost predicate Overlaps(m: Regions, start: nat, length: nat) {
    exists s: Addr :: s in m && !Disjoint(s, m[s], start, length)
  }

  // ---------------------------------------------------------------- iterator positions

  /** `it` is `m.lower_bound(x)`: the least key that is at least `x`. */
  ghost predicate IsLowerBound(m: Regions, x: nat, it: Option<Addr>) {
    match it
    case None => forall k: Addr :: k in m ==> k < x
    case Some(b) => b in m && x <= b && forall k: Addr :: k in m ==> k < x || b <= k
  }

  /** `p` is the position just before `it`; `None` when `it` is `m.begin()`. */
  ghost predicate IsBefore(m: Regions, it: Option<Addr>, p: Option<Addr>) {
    match p
    case None => forall k: Addr :: k in m ==> it.Some? && it.value <= k
    case Some(q) =>
      && q in m && (it.Some? ==> q < it.value)
      && forall k: Addr :: k in m ==> k <= q || (it.Some? && it.value <= k)
  }

  method LowerBound(m: Regions, x: nat) returns (it: Option<Addr>)
    ensures IsLowerBound(m, x, it)
  {
    it := None;
    var todo := m.Keys;
    while todo != {}
      invariant todo <= m.Keys
      invariant it.Some? ==> it.value in m && x <= it.value
      invariant forall k: Addr :: k in m && k !in todo ==> k < x || (it.Some? && it.value <= k)
      decreases todo
    {
      var k: Addr :| k in todo;
      todo := todo - {k};
      if x <= k && (it.None? || k < it.value) {
        it := Some(k);
      }
    }
  }

  method Before(m: Regions, it: Option<Addr>) returns (p: Option<Addr>)
    requires it.Some? ==> it.value in m
    ensures IsBefore(m, it, p)
  {
    p := None;
    var todo := m.Keys;
    while todo != {}
      invariant todo <= m.Keys
      invariant p.Some? ==> p.value in m && (it.Some? ==> p.value < it.value)
      invariant forall k: Addr :: k in m && k !in todo ==>
                  (p.Some? && k <= p.value) || (it.Some? && it.value <= k)
      decreases todo
    {
      var k: Addr :| k in todo;
      todo := todo - {k};
      if (it.None? || k < it.value) && (p.None? || p.value < k) {
        p := Some(k);
      }
    }
  }

  // ------------------------------------------------------------- the two-neighbour test

  /** What the code tests: the entry at or after `start`, and the entry before that one. */
  ghost predicate NeighboursClear(m: Regions, start: nat, length: nat) {
    forall it: Option<Addr>, p: Option<Addr> :: IsLowerBound(m, start, it) && IsBefore(m, it, p) ==>
      && (it.Some? ==> start + length <= it.value)
      && (p.Some? ==> p.value + m[p.value] <= start)
  }

  /** Both positions exist, so the test above is never vacuous. */
  lemma PositionsExist(m: Regions, start: nat) returns (it: Option<Addr>, p: Option<Addr>)
    ensures IsLowerBound(m, start, it) && IsBefore(m, it, p)
  {
    it := LeastAtLeast(m, m.Keys, start);
    p := GreatestBefore(m, m.Keys, it);
  }

  lemma {:induction false} LeastAtLeast(m: Regions, keys: set<Addr>, x: nat) returns (it: Option<Addr>)
    requires keys <= m.Keys
    ensures it.Some? ==> it.value in keys && x <= it.value
    ensures forall k: Addr :: k in keys ==> k < x || (it.Some? && it.value <= k)
    decreases keys
  {
    if keys == {} {
      it := None;
    } else {
      var k: Addr :| k in keys;
      var rest := keys - {k};
      it := LeastAtLeast(m, rest, x);
      assert forall j: Addr :: j in keys ==> j == k || j in rest;
      if x <= k && (it.None? || k < it.value) {
        it := Some(k);
      }
    }
  }

  lemma {:induction false} GreatestBefore(m: Regions, keys: set<Addr>, it: Option<Addr>) returns (p: Option<Addr>)
    requires keys <= m.Keys
    ensures p.Some? ==> p.value in keys && (it.Some? ==> p.value < it.value)
    ensures forall k: Addr :: k in keys ==> (p.Some? && k <= p.value) || (it.Some? && it.value <= k)
    decreases keys
  {
    if keys == {} {
      p := None;
    } else {
      var k: Addr :| k in keys;
      var rest := keys - {k};
      p := GreatestBefore(m, rest, it);
      assert forall j: Addr :: j in keys ==> j == k || j in rest;
      if (it.None? || k < it.value) && (p.None? || p.value < k) {
        p := Some(k);
      }
    }
  }

  /** Positions are determined, so one pair of neighbours decides the test. */
  lemma NeighboursDecide(m: Regions, start: nat, length: nat, it: Option<Addr>, p: Option<Addr>)
    requires IsLowerBound(m, start, it) && IsBefore(m, it, p)
    ensures NeighboursClear(m, start, length) <==>
            (it.Some? ==> start + length <= it.value) && (p.Some? ==> p.value + m[p.value] <= start)
  {
    forall it': Option<Addr>, p': Option<Addr> | IsLowerBound(m, start, it') && IsBefore(m, it', p')
      ensures it' == it && p' == p
    {
      assert it' == it;
    }
  }

  /** Looking at two neighbours is enough: the test passes exactly when no region overlaps. */
  lemma TwoNeighboursSuffice(m: Regions, start: nat, length: nat)
    requires Separated(m) && 0 < length
    ensures NeighboursClear(m, start, length) <==> !Overlaps(m, start, length)
  {
    var it, p := PositionsExist(m, start);
    NeighboursDecide(m, start, length, it, p);
    if NeighboursClear(m, start, length) {
      forall s: Addr | s in m ensures Disjoint(s, m[s], start, length) {
        if s < start {
          assert p.Some? && s <= p.value;
        } else {
          assert it.Some? && it.value <= s;
        }
      }
    } else if it.Some? && it.value < start + length {
      assert !Disjoint(it.value, m[it.value], start, length);
    } else {
      assert p.value < start;
      assert !Disjoint(p.value, m[p.value], start, length);
    }
  }

  lemma AddSeparated(m: Regions, start: Addr, length: nat)
    requires Separated(m) && 0 < length && start + length < WORD && !Overlaps(m, start, length)
    ensures Separated(m[start := length])
  {
    var m' := m[start := length];
    forall s: Addr, t: Addr | s in m' && t in m' && s != t
      ensures Disjoint(s, m'[s], t, m'[t])
    {
      if s == start {
        assert t in m && Disjoint(t, m[t], start, length);
      } else if t == start {
        assert s in m && Disjoint(s, m[s], start, length);
      }
    }
  }
}
