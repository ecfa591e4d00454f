/**
 * 32-bit wrapping TCP sequence numbers (section 3.3 of RFC 793).
 *
 * The stack stores and compares sequence numbers modulo 2^32. The model keeps
 * unbounded positions, sends them through `Wire` whenever the code compares or
 * subtracts, and relies on the lemmas below to get the positions back.
 */
module SequenceNumbers {
  import opened Common

  const MOD: int := 0x1_0000_0000
  const HALF: int := 0x8000_0000

  /** The sequence number the stack stores for an unbounded position. */
  function Wire(x: int): u32 {
    x % MOD
  }

  /** Unsigned subtraction `(u32_t)(a - b)`. */
  function Sub(a: u32, b: u32): u32 {
    (a - b) % MOD
  }

  /** Signed difference `(s32_t)(a - b)`. */
  function Diff(a: u32, b: u32): int {
    if Sub(a, b) >= HALF then Sub(a, b) - MOD else Sub(a, b)
  }

  predicate Lt(a: u32, b: u32) { Diff(a, b) < 0 }
  predicate Leq(a: u32, b: u32) { Diff(a, b) <= 0 }
  predicate Gt(a: u32, b: u32) { Diff(a, b) > 0 }
  predicate Geq(a: u32, b: u32) { Diff(a, b) >= 0 }
  predicate Between(a: u32, b: u32, c: u32) { Geq(a, b) && Leq(a, c) }

  /** Two positions less than half the number space apart. */
  predicate Near(x: int, y: int) {
    -HALF <= x - y < HALF
  }

  lemma ModOfSum(d: int, k: int)
    ensures (d + MOD * k) % MOD == d % MOD
  {
    var q := d / MOD;
    assert d + MOD * k == MOD * (q + k) + d % MOD;
  }

  lemma WireSub(x: int, y: int)
    ensures Sub(Wire(x), Wire(y)) == (x - y) % MOD
  {
    assert x - y == Wire(x) - Wire(y) + MOD * (x / MOD - y / MOD);
    ModOfSum(Wire(x) - Wire(y), x / MOD - y / MOD);
  }

  /** The wrapped difference is the true one exactly when the positions are near. */
  lemma WireDiff(x: int, y: int)
    ensures Near(x, y) <==> Diff(Wire(x), Wire(y)) == x - y
  {
    WireSub(x, y);
    if -HALF <= x - y < 0 {
      ModOfSum(x - y, 1);
    }
  }

  /** All four comparisons of near positions agree with the comparison of the positions themselves. */
  lemma WireCompare(x: int, y: int)
    requires Near(x, y)
    ensures Lt(Wire(x), Wire(y)) <==> x < y
    ensures Leq(Wire(x), Wire(y)) <==> x <= y
    ensures Gt(Wire(x), Wire(y)) <==> x > y
    ensures Geq(Wire(x), Wire(y)) <==> x >= y
    ensures Wire(x) == Wire(y) <==> x == y
  {
    WireDiff(x, y);
  }

  /** TCP_SEQ_BETWEEN on near positions is the closed interval test. */
  lemma WireBetween(x: int, lo: int, hi: int)
    requires Near(x, lo) && Near(x, hi)
    ensures Between(Wire(x), Wire(lo), Wire(hi)) <==> lo <= x <= hi
  {
    WireDiff(x, lo);
    WireDiff(x, hi);
  }

  /** Unsigned subtraction recovers a non-negative distance below 2^32. */
  lemma WireDistance(x: int, y: int)
    requires 0 <= x - y < MOD
    ensures Sub(Wire(x), Wire(y)) == x - y
  {
    WireSub(x, y);
  }
}
