/** Fixed-width integers of the source, where their width shows. */
module MachineInts {
  const INT_LIMIT := 0x8000_0000
  const INT_MOD := 0x1_0000_0000
  const SIZE_MOD := 0x1_0000_0000_0000_0000

  predicate IsInt(x: int) { -INT_LIMIT <= x < INT_LIMIT }

  /** Conversion to `int`: the value of the same residue that an `int` can hold. */
  function IntCast(x: int): (r: int)
    ensures IsInt(r) && (r - x) % INT_MOD == 0
    ensures IsInt(x) ==> r == x
  {
    var low := x % INT_MOD;
    if low < INT_LIMIT then low else low - INT_MOD
  }

  /** Subtraction of `size_t` values. */
  function SizeSub(a: nat, b: nat): nat { (a - b) % SIZE_MOD }
}
