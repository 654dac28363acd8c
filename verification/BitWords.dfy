/** 64-bit words, each the set of its one-bit positions.

    `|`, `&` and `~` are union, intersection and complement in 0..63; a left shift moves
    every position up and drops what leaves the word; subtracting one clears the lowest
    one bit and sets every bit below it. */
module BitWords {

  type Word = w: set<nat> | forall i :: i in w ==> i < 64

  const ZERO: Word := {}

  predicate Below(i: nat, n: nat) { i < n }

  /** The positions below `n`. */
  function Upto(n: nat): (r: set<nat>)
    ensures forall i: nat :: i in r <==> i < n
  {
    set i: nat | i < n && Below(i, n)
  }

  function All(): Word { Upto(64) }

  function Or(a: Word, b: Word): Word { a + b }

  function And(a: Word, b: Word): Word { a * b }

  function Not(a: Word): Word { All() - a }

  function Shl(a: Word, k: nat): Word {
    set i | i in a && i + k < 64 :: i + k
  }

  /** `1ULL << k` */
  function One(k: nat): Word { Shl({0}, k) }

  /** The first one bit at or after position `k`. */
  function LowestFrom(a: Word, k: nat): (r: nat)
    requires k <= 64 && exists i :: i in a && k <= i
    ensures r in a && k <= r && forall i :: i in a && k <= i ==> r <= i
    decreases 64 - k
  {
    if k in a then k else LowestFrom(a, k + 1)
  }

  /** `__builtin_ffsll(a) - 1`: the lowest one bit of a non-zero word. */
  function Lowest(a: Word): (r: nat)
    requires a != {}
    ensures r in a && forall i :: i in a ==> r <= i
  {
    assert exists i :: i in a && 0 <= i;
    LowestFrom(a, 0)
  }

  /** `a - 1`, wrapping at zero. */
  function Dec(a: Word): Word {
    if a == {} then All()
    else (a - {Lowest(a)}) + Upto(Lowest(a))
  }

  /** `((1ULL << n) - 1) << low` */
  function Field(n: nat, low: nat): Word { Shl(Dec(One(n)), low) }

  lemma OneIs(k: nat)
    requires k < 64
    ensures One(k) == {k}
  {
  }

  /** The field mask covers exactly the `n` positions from `low` on. */
  lemma FieldIs(n: nat, low: nat)
    requires n < 64 && low + n <= 64
    ensures forall i :: i in Field(n, low) <==> low <= i < low + n
  {
    OneIs(n);
    assert Lowest(One(n)) == n;
    forall i: nat | low <= i < low + n ensures i in Field(n, low) {
      assert i - low in Dec(One(n));
      assert (i - low) + low == i;
    }
  }
}
