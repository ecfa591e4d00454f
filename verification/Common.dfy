/** Small definitions shared by several components. */
module Common {

  type byte = x: int | 0 <= x < 256
  type u16 = x: int | 0 <= x < 0x1_0000
  type u32 = x: int | 0 <= x < 0x1_0000_0000
  type s16 = x: int | -0x8000 <= x < 0x8000

  /** The synchronised states, in the order of enum tcp_state. */
  datatype TcpState = ESTABLISHED | FIN_WAIT_1 | FIN_WAIT_2 | CLOSE_WAIT | CLOSING | LAST_ACK | TIME_WAIT {
    /** state < CLOSE_WAIT */
    predicate Receiving() { ESTABLISHED? || FIN_WAIT_1? || FIN_WAIT_2? }
  }

  function Min(a: int, b: int): int { if a <= b then a else b }
  function Max(a: int, b: int): int { if a <= b then b else a }

  function Prefix(s: seq<byte>, n: nat): seq<byte> { if n <= |s| then s[..n] else s }

  /** Storing a value in a signed 16-bit field. */
  function Truncate16(x: int): s16 {
    (x + 0x8000) % 0x1_0000 - 0x8000
  }

  /** LWIP_MEM_ALIGN_SIZE */
  function AlignUp(x: nat, align: nat): (r: nat)
    requires 0 < align
    ensures x <= r < x + align
  {
    x + (align - x % align) % align
  }

  lemma ModAdd(a: int, b: int, m: int)
    requires 0 < m && a % m == 0 && b % m == 0
    ensures (a + b) % m == 0
  {
    var p, q := a / m, b / m;
    assert a == m * p && b == m * q;
    assert a + b == m * (p + q);
    ModOfProduct(m, p + q);
  }

  lemma ModSub(a: int, b: int, m: int)
    requires 0 < m && a % m == 0 && b % m == 0
    ensures (a - b) % m == 0
  {
    var p, q := a / m, b / m;
    assert a == m * p && b == m * q;
    assert a - b == m * (p - q);
    ModOfProduct(m, p - q);
  }

  lemma ModOfProduct(m: int, k: int)
    requires 0 < m
    ensures (m * k) % m == 0
  {
    var r := (m * k) % m;
    var q := (m * k) / m;
    assert m * k == m * q + r;
    assert m * (k - q) == r;
    assert k - q >= 1 ==> m * (k - q) >= m;
    assert k - q <= -1 ==> m * (k - q) <= -m;
  }

  lemma Division(x: nat, m: nat)
    requires 0 < m
    ensures x == m * (x / m) + x % m
  {
  }

  lemma NextMultiple(m: int, q: int)
    ensures m * q + m == m * (q + 1)
  {
  }

  lemma AlignUpIs(x: nat, align: nat)
    requires 0 < align
    ensures AlignUp(x, align) == if x % align == 0 then x else x + align - x % align
  {
    if x % align == 0 {
      ModOfProduct(align, 1);
    } else {
      Reduced(align - x % align, align);
    }
  }

  lemma AlignUpAligned(x: nat, align: nat)
    requires 0 < align
    ensures AlignUp(x, align) % align == 0
  {
    hide AlignUp;
    AlignUpIs(x, align);
    if x % align != 0 {
      Division(x, align);
      NextMultiple(align, x / align);
      ModOfProduct(align, x / align + 1);
    }
  }

  /** Rounding up in a type with `modulus` values wraps to zero or not at all. */
  lemma RoundUp(x: nat, align: nat, modulus: nat)
    requires 0 < align && 0 < modulus && modulus % align == 0 && x < modulus
    ensures var n := AlignUp(x, align);
            && n % modulus == (if n < modulus then n else 0)
            && (n % modulus) % align == 0
  {
    var n := AlignUp(x, align);
    AlignUpAligned(x, align);
    if n >= modulus {
      ModSub(n, modulus, align);
      Reduced(n - modulus, align);
      Reduced(0, align);
      assert n == modulus;
    } else {
      Reduced(n, modulus);
    }
  }

  lemma Reduced(x: nat, m: nat)
    requires x < m
    ensures x % m == x
  {
  }

  lemma Associates<T>(a: seq<T>, b: seq<T>, c: seq<T>)
    ensures a + (b + c) == a + b + c
  {
  }
}
