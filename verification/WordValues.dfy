/** Words as numbers: the set operations of `BitWords` are arithmetic modulo 2^width, for the
    width 64 of `uint64_t` and for any smaller one. */
module WordValues {
  import opened Arith
  import opened BitWords

  function Pow2(n: nat): (r: nat)
    ensures r >= 1
  {
    if n == 0 then 1 else 2 * Pow2(n - 1)
  }

  function Bit(a: Word, i: nat): nat { if i in a then 1 else 0 }

  /** The number that the bits `i` to `top - 1` spell, lowest first. */
  function Value(a: Word, i: nat, top: nat): nat
    requires i <= top
    decreases top - i
  {
    if i == top then 0 else Bit(a, i) + 2 * Value(a, i + 1, top)
  }

  lemma {:induction false} SameBits(a: Word, b: Word, i: nat, top: nat)
    requires i <= top && forall k: nat :: i <= k < top ==> (k in a <==> k in b)
    ensures Value(a, i, top) == Value(b, i, top)
    decreases top - i
  {
    if i < top {
      SameBits(a, b, i + 1, top);
    }
  }

  lemma {:induction false} ValueBound(a: Word, i: nat, top: nat)
    requires i <= top
    ensures Value(a, i, top) < Pow2(top - i)
    decreases top - i
  {
    if i < top {
      ValueBound(a, i + 1, top);
    }
  }

  // Subtracting one.

  /** From the lowest one bit down, taking one away borrows. */
  lemma {:induction false} Borrow(a: Word, i: nat, width: nat)
    requires a != {} && i <= Lowest(a) < width <= 64
    ensures Value(Dec(a), i, width) == Value(a, i, width) - 1
    decreases Lowest(a) - i
  {
    if i == Lowest(a) {
      SameBits(a, Dec(a), i + 1, width);
    } else {
      Borrow(a, i + 1, width);
    }
  }

  lemma {:induction false} AllOnes(i: nat, width: nat)
    requires i <= width <= 64
    ensures Value(All(), i, width) == Pow2(width - i) - 1
    decreases width - i
  {
    if i < width {
      AllOnes(i + 1, width);
    }
  }

  lemma {:induction false} Zero(i: nat, top: nat)
    requires i <= top
    ensures Value({}, i, top) == 0
    decreases top - i
  {
    if i < top {
      Zero(i + 1, top);
    }
  }

  /** `Dec` is subtraction of one, modulo 2^width. */
  lemma DecSubtracts(a: Word, width: nat)
    requires width <= 64 && forall i :: i in a ==> i < width
    ensures Value(Dec(a), 0, width) == if a == {} then Pow2(width) - 1 else Value(a, 0, width) - 1
    ensures a == {} ==> Value(a, 0, width) == 0
  {
    if a == {} {
      AllOnes(0, width);
      Zero(0, width);
    } else {
      Borrow(a, 0, width);
    }
  }

  // Shifting.

  /** What bit `top` adds to a number that starts at bit `i`. */
  function Weight(a: Word, top: nat, i: nat): nat
    requires i <= top
  {
    if top in a then Pow2(top - i) else 0
  }

  lemma {:induction false} TopBit(a: Word, i: nat, top: nat)
    requires i <= top
    ensures Value(a, i, top + 1) == Value(a, i, top) + Weight(a, top, i)
    decreases top - i
  {
    if i < top {
      TopBit(a, i + 1, top);
    } else {
      assert Value(a, top + 1, top + 1) == 0;
    }
  }

  lemma {:induction false} Shifted(a: Word, i: nat, top: nat)
    requires i <= top < 64
    ensures Value(Shl(a, 1), i + 1, top + 1) == Value(a, i, top)
    decreases top - i
  {
    if i < top {
      Shifted(a, i + 1, top);
      assert i + 1 in Shl(a, 1) <==> i in a;
    }
  }

  /** Twice `v`, modulo `m`. */
  function Twice(v: nat, m: nat): nat { if 2 * v < m then 2 * v else 2 * v - m }

  /** Shifting once doubles; the top bit falls out. */
  lemma ShiftOnce(a: Word, top: nat)
    requires top < 64
    ensures Value(Shl(a, 1), 0, top + 1) == Twice(Value(a, 0, top + 1), Pow2(top + 1))
  {
    assert 0 !in Shl(a, 1);
    Shifted(a, 0, top);
    TopBit(a, 0, top);
    ValueBound(a, 0, top);
  }

  lemma ShiftAgain(a: Word, n: nat)
    requires n > 0
    ensures Shl(a, n) == Shl(Shl(a, n - 1), 1)
  {
    forall i | i in Shl(a, n) ensures i in Shl(Shl(a, n - 1), 1) {
      assert i - 1 in Shl(a, n - 1);
    }
  }

  /** `v` doubled `n` times, modulo `m`. */
  function Doubled(v: nat, n: nat, m: nat): nat { if n == 0 then v else Twice(Doubled(v, n - 1, m), m) }

  lemma {:induction false} ShlDoubles(a: Word, n: nat, width: nat)
    requires 0 < width <= 64
    ensures Value(Shl(a, n), 0, width) == Doubled(Value(a, 0, width), n, Pow2(width))
  {
    if n == 0 {
      assert Shl(a, 0) == a;
    } else {
      ShiftAgain(a, n);
      ShlDoubles(a, n - 1, width);
      ShiftOnce(Shl(a, n - 1), width - 1);
    }
  }

  lemma TwiceMod(x: nat, m: nat)
    requires m > 0
    ensures Twice(x % m, m) == (2 * x) % m
  {
    var q, r := x / m, x % m;
    PositionSplit(x, m);
    if 2 * r < m {
      assert 2 * x == (2 * q) * m + 2 * r;
      DivMod(2 * q, 2 * r, m);
    } else {
      assert 2 * x == (2 * q + 1) * m + (2 * r - m);
      DivMod(2 * q + 1, 2 * r - m, m);
    }
  }

  lemma {:induction false} DoubledMultiplies(v: nat, n: nat, m: nat)
    requires v < m
    ensures Doubled(v, n, m) == (v * Pow2(n)) % m
  {
    if n == 0 {
      DivMod(0, v, m);
    } else {
      DoubledMultiplies(v, n - 1, m);
      TwiceMod(v * Pow2(n - 1), m);
      assert v * Pow2(n) == 2 * (v * Pow2(n - 1));
    }
  }

  /** `Shl` is multiplication by a power of two, modulo 2^width. */
  lemma ShlMultiplies(a: Word, n: nat, width: nat)
    requires 0 < width <= 64
    ensures Value(Shl(a, n), 0, width) == (Value(a, 0, width) * Pow2(n)) % Pow2(width)
  {
    ShlDoubles(a, n, width);
    ValueBound(a, 0, width);
    DoubledMultiplies(Value(a, 0, width), n, Pow2(width));
  }

  // The masks of the source.

  lemma {:induction false} OneBit(k: nat, i: nat, width: nat)
    requires i <= k < width <= 64
    ensures Value({k}, i, width) == Pow2(k - i)
    decreases k - i
  {
    if i < k {
      OneBit(k, i + 1, width);
    } else {
      SameBits({k}, {}, i + 1, width);
      Zero(i + 1, width);
    }
  }

  lemma OnesValue(n: nat, width: nat)
    requires n < width <= 64
    ensures Value(Dec(One(n)), 0, width) == Pow2(n) - 1
  {
    OneIs(n);
    OneBit(n, 0, width);
    Borrow({n}, 0, width);
  }

  /** `((1ULL << n) - 1) << low` is the number that it says. */
  lemma FieldValue(n: nat, low: nat, width: nat)
    requires n < width <= 64
    ensures Value(Field(n, low), 0, width) == ((Pow2(n) - 1) * Pow2(low)) % Pow2(width)
  {
    OnesValue(n, width);
    ShlMultiplies(Dec(One(n)), low, width);
  }
}
