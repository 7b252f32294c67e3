/**
  Bit-level operations on 32- and 64-bit register values, and the facts
  about them that the drivers rely on.

  The model never applies `|`, `&` or `!` to register values directly: it
  goes through `Set32`, `Clear32`, `Has32` and their 64-bit twins. Each fact
  is proved once on plain bit-vector expressions (the `...Raw` lemmas) and
  restated in terms of those operations, so that the solver answers one
  small bit-vector question at a time.
*/
module Bits {

  /** `x` with the bits of `m` set: `x | m`. */
  function Set32(x: bv32, m: bv32): bv32 {
    x | m
  }

  /** `x` with the bits of `m` cleared: `x & ~m`. */
  function Clear32(x: bv32, m: bv32): bv32 {
    x & !m
  }

  /** Whether `x` has any of the bits of `m`: `(x & m) != 0`. */
  predicate Has32(x: bv32, m: bv32) {
    x & m != 0
  }

  /** The bits of `x` under `m`: `x & m`. */
  function Select32(x: bv32, m: bv32): bv32 {
    x & m
  }

  /** Whether masks `m` and `c` share no bit. */
  predicate Disjoint32(m: bv32, c: bv32) {
    m & c == 0
  }

  function Set64(x: bv64, m: bv64): bv64 {
    x | m
  }

  function Clear64(x: bv64, m: bv64): bv64 {
    x & !m
  }

  function Select64(x: bv64, m: bv64): bv64 {
    x & m
  }

  predicate Has64(x: bv64, m: bv64) {
    x & m != 0
  }

  /** The 32-bit mask with only bit `b` set: `1 << b`. */
  function Bit32(b: bv5): bv32 {
    (1 as bv32) << b
  }

  /**
    Bit number `i` of a 32-bit word as a shift amount, counted up from 0 so
    that the index stays an integer until it becomes a shift.
  */
  function BitIndex(i: int): bv5
    requires 0 <= i < 32
    decreases i
  {
    if i == 0 then 0 else BitIndex(i - 1) + 1
  }

  /**
    The byte holding the number `n` (0..255), counted up from 0 in the same
    way as `BitIndex`.
  */
  function ByteValue(n: int): bv8
    requires 0 <= n < 256
    decreases n
  {
    if n == 0 then 0 else ByteValue(n - 1) + 1
  }

  /** `ByteValue(n)` is `n` itself. */
  lemma {:induction false} ByteValueIs(n: int)
    requires 0 <= n < 256
    ensures ByteValue(n) as int == n
    decreases n
  {
    if n > 0 {
      ByteValueIs(n - 1);
      ByteStepUp(ByteValue(n - 1));
    }
  }

  lemma ByteStepUp(b: bv8)
    requires b as int < 255
    ensures (b + 1) as int == b as int + 1
  {}

  /** `BitIndex(i)` is `i` itself. */
  lemma {:induction false} BitIndexValue(i: int)
    requires 0 <= i < 32
    ensures BitIndex(i) as int == i
    decreases i
  {
    if i > 0 {
      BitIndexValue(i - 1);
      StepUp(BitIndex(i - 1));
    }
  }

  lemma StepUp(b: bv5)
    requires b as int < 31
    ensures (b + 1) as int == b as int + 1
  {}

  lemma BitIndexInjective(i: int, j: int)
    requires 0 <= i < 32 && 0 <= j < 32 && i != j
    ensures BitIndex(i) != BitIndex(j)
  {
    BitIndexValue(i);
    BitIndexValue(j);
  }

  // Single-bit masks.

  lemma DistinctShiftsRaw(b: bv5, c: bv5)
    requires b != c
    ensures ((1 as bv32) << b) & ((1 as bv32) << c) == 0
  {}

  /** Two different single-bit masks share no bit. */
  lemma DistinctBits32(b: bv5, c: bv5)
    requires b != c
    ensures Disjoint32(Bit32(b), Bit32(c))
  {
    DistinctShiftsRaw(b, c);
  }

  lemma ShiftNonZeroRaw(b: bv5)
    ensures (1 as bv32) << b != 0
  {}

  lemma BitNonZero32(b: bv5)
    ensures Bit32(b) != 0
  {
    ShiftNonZeroRaw(b);
  }

  // Setting and clearing nothing.

  lemma SetNothingRaw32(x: bv32)
    ensures x | 0 == x
  {}

  lemma SetNothing32(x: bv32)
    ensures Set32(x, 0) == x
  {
    SetNothingRaw32(x);
  }

  lemma ClearNothingRaw32(x: bv32)
    ensures x & !0 == x
  {}

  lemma ClearNothing32(x: bv32)
    ensures Clear32(x, 0) == x
  {
    ClearNothingRaw32(x);
  }

  // Testing bits after setting or clearing them.

  lemma HasNothingRaw32(m: bv32)
    ensures 0 & m == 0
  {}

  /** A word of zeros has none of the bits of any mask. */
  lemma HasNothing32(m: bv32)
    ensures !Has32(0, m)
  {
    HasNothingRaw32(m);
  }

  lemma HasSetRaw32(x: bv32, m: bv32)
    requires m != 0
    ensures (x | m) & m != 0
  {}

  lemma HasSet32(x: bv32, m: bv32)
    requires m != 0
    ensures Has32(Set32(x, m), m)
  {
    HasSetRaw32(x, m);
  }

  lemma HasKeepsSetRaw32(x: bv32, m: bv32, c: bv32)
    requires m & c == 0
    ensures (x | m) & c == x & c
  {}

  lemma HasKeepsSet32(x: bv32, m: bv32, c: bv32)
    requires Disjoint32(m, c)
    ensures Has32(Set32(x, m), c) == Has32(x, c)
  {
    HasKeepsSetRaw32(x, m, c);
  }

  lemma HasClearRaw32(x: bv32, m: bv32)
    ensures (x & !m) & m == 0
  {}

  lemma HasClear32(x: bv32, m: bv32)
    ensures !Has32(Clear32(x, m), m)
  {
    HasClearRaw32(x, m);
  }

  lemma HasKeepsClearRaw32(x: bv32, m: bv32, c: bv32)
    requires m & c == 0
    ensures (x & !m) & c == x & c
  {}

  lemma HasKeepsClear32(x: bv32, m: bv32, c: bv32)
    requires Disjoint32(m, c)
    ensures Has32(Clear32(x, m), c) == Has32(x, c)
  {
    assert Clear32(x, m) & c == x & c by {
      assert m & c == 0;
      HasKeepsClearRaw32(x, m, c);
    }
  }

  // Undoing a set or a clear of a single bit.

  lemma SetThenClearRaw32(x: bv32, b: bv5)
    requires x & ((1 as bv32) << b) == 0
    ensures (x | ((1 as bv32) << b)) & !((1 as bv32) << b) == x
  {}

  /** Setting a single bit that was clear, then clearing it, gives back the word. */
  lemma SetThenClearBit32(x: bv32, b: bv5)
    requires !Has32(x, Bit32(b))
    ensures Clear32(Set32(x, Bit32(b)), Bit32(b)) == x
  {
    SetThenClearRaw32(x, b);
  }

  /** Clearing a single bit that was set, then setting it, gives back the word. */
  lemma ClearThenSetBit32(x: bv32, b: bv5)
    requires Has32(x, Bit32(b))
    ensures Set32(Clear32(x, Bit32(b)), Bit32(b)) == x
  {
  }

  // 64-bit control-and-status registers.

  lemma HasSetRaw64(x: bv64, m: bv64)
    requires m != 0
    ensures (x | m) & m != 0
  {}

  lemma HasSet64(x: bv64, m: bv64)
    requires m != 0
    ensures Has64(Set64(x, m), m)
  {
    HasSetRaw64(x, m);
  }

  lemma HasClearRaw64(x: bv64, m: bv64)
    ensures (x & !m) & m == 0
  {}

  lemma HasClear64(x: bv64, m: bv64)
    ensures !Has64(Clear64(x, m), m)
  {
    HasClearRaw64(x, m);
  }

  lemma SetKeepsRaw64(x: bv64, m: bv64)
    ensures (x | m) & !m == x & !m
  {}

  /** Setting the bits of `m` changes no bit outside `m`. */
  lemma SetKeeps64(x: bv64, m: bv64)
    ensures Clear64(Set64(x, m), m) == Clear64(x, m)
  {
    assert Set64(x, m) == x | m;
    assert Clear64(x, m) == x & !m;
    SetKeepsRaw64(x, m);
  }

  lemma ClearKeepsRaw64(x: bv64, m: bv64)
    ensures (x & !m) & !m == x & !m
  {}

  /** Clearing the bits of `m` changes no bit outside `m`. */
  lemma ClearKeeps64(x: bv64, m: bv64)
    ensures Clear64(Clear64(x, m), m) == Clear64(x, m)
  {
    ClearKeepsRaw64(x, m);
  }

  // Writing a field under a mask.

  lemma MaskedWriteUnderRaw(x: bv32, v: bv32, m: bv32)
    ensures ((x & !m) | (v & m)) & m == v & m
  {}

  /** Writing `v` under mask `m` leaves exactly `v`'s bits under `m`. */
  lemma MaskedWriteUnder(x: bv32, v: bv32, m: bv32)
    ensures Select32(Set32(Clear32(x, m), Select32(v, m)), m) == Select32(v, m)
  {
    MaskedWriteUnderRaw(x, v, m);
  }

  lemma MaskedWriteOutsideRaw(x: bv32, v: bv32, m: bv32)
    ensures ((x & !m) | (v & m)) & !m == x & !m
  {}

  /** Writing `v` under mask `m` keeps every bit of `x` outside `m`. */
  lemma MaskedWriteOutside(x: bv32, v: bv32, m: bv32)
    ensures Clear32(Set32(Clear32(x, m), Select32(v, m)), m) == Clear32(x, m)
  {
    MaskedWriteOutsideRaw(x, v, m);
  }
}
