/**
 * The Internet checksum (RFC 1071): three versions of lwip_standard_chksum and the sums over
 * pbuf chains. `little` is the byte order of the host; a buffer has an address, because the
 * optimised versions align their reads.
 */
module Checksum {
  import opened Common

  // ------------------------------------------------ one's complement arithmetic

  /** The 16-bit one's complement representative of a sum: zero only for zero. */
  function Canon(n: nat): u16 {
    if n == 0 then 0 else 1 + (n - 1) % 65535
  }

  /** FOLD_U32T */
  function Fold(u: u32): u32 { u / 0x1_0000 + u % 0x1_0000 }

  /** SWAP_BYTES_IN_WORD, which drops what lies above 16 bits */
  function Swap(w: u32): u16 { (w % 256) * 256 + (w / 256) % 256 }

  /** `~` on 16 bits */
  function Not(x: u16): u16 { 0xFFFF - x }

  lemma CanonShift(n: nat, k: nat)
    ensures n > 0 ==> Canon(n + 65535 * k) == Canon(n)
    decreases k
  {
    if n > 0 && k > 0 {
      CanonShift(n, k - 1);
      var m := n + 65535 * (k - 1);
      assert (m - 1 + 65535) % 65535 == (m - 1) % 65535;
    }
  }

  /** Every number is its representative plus a multiple of 65535. */
  lemma CanonSplit(n: nat) returns (k: nat)
    ensures n == Canon(n) + 65535 * k && (Canon(n) == 0 <==> n == 0)
  {
    k := if n == 0 then 0 else (n - 1) / 65535;
  }

  /** A number in range that differs by a multiple of 65535 is the representative. */
  lemma CanonUnique(x: u16, n: nat, k: int)
    requires n == x + 65535 * k && (x == 0 <==> n == 0)
    ensures x == Canon(n)
  {
    if x > 0 && k >= 0 {
      CanonShift(x, k);
    }
  }

  lemma CanonAdd(a: nat, b: nat)
    ensures Canon(Canon(a) + b) == Canon(a + b)
  {
    var k := CanonSplit(a);
    if Canon(a) + b > 0 {
      CanonShift(Canon(a) + b, k);
    }
  }

  lemma CanonTimes256(a: nat)
    ensures Canon(256 * Canon(a)) == Canon(256 * a)
    ensures Canon(0x1_0000 * a) == Canon(a)
  {
    var k := CanonSplit(a);
    if a > 0 {
      CanonShift(256 * Canon(a), 256 * k);
      CanonShift(a, a);
    }
  }

  /** Folding twice reduces any 32-bit sum. */
  lemma FoldTwice(u: u32)
    ensures Fold(Fold(u)) == Canon(u)
    ensures u <= 0x1_FFFE ==> Fold(u) == Canon(u)
  {
    var f := Fold(u);
    assert u == f + 65535 * (u / 0x1_0000);
    assert f <= 0x1_FFFE;
    assert f == Fold(f) + 65535 * (f / 0x1_0000);
    CanonUnique(Fold(f), u, f / 0x1_0000 + u / 0x1_0000);
    if u <= 0x1_FFFE {
      CanonUnique(f, u, u / 0x1_0000);
    }
  }

  /** Swapping the bytes of a representative multiplies by 256. */
  lemma SwapCanon(n: nat)
    ensures Swap(Canon(n)) == Canon(256 * n)
    ensures Swap(Swap(Canon(n))) == Canon(n)
  {
    hide Canon, Swap;
    var x: int := Canon(n);
    SwapBytes(x / 256, x % 256);
    SwapBytes(x % 256, x / 256);
    CanonUnique(Swap(x), 256 * x, x / 256);
    CanonTimes256(n);
  }

  lemma SwapBytes(hi: byte, lo: byte)
    ensures Swap(256 * hi + lo) == 256 * lo + hi
  {
    assert (256 * hi + lo) % 256 == lo && (256 * hi + lo) / 256 == hi;
  }

  // ---------------------------------------------------------------- reference

  /** The 16-bit word at the start of `b`, as the host reads it; a missing byte is zero. */
  function Word(b: seq<byte>, little: bool): u16
    requires b != []
  {
    var first: int, second: int := b[0], if |b| > 1 then b[1] else 0;
    if little then first + 256 * second else 256 * first + second
  }

  /** The plain sum of the 16-bit words of `b` in host order. */
  ghost function Sum(b: seq<byte>, little: bool): nat {
    if b == [] then 0 else Word(b, little) + if |b| <= 2 then 0 else Sum(b[2..], little)
  }

  /** The checksum of RFC 1071, in host order and not yet inverted. */
  ghost function Reference(b: seq<byte>, little: bool): u16 { Canon(Sum(b, little)) }

  lemma {:induction false} SumConcat(a: seq<byte>, b: seq<byte>, little: bool)
    requires |a| % 2 == 0
    ensures Sum(a + b, little) == Sum(a, little) + Sum(b, little)
  {
    if a == [] {
      assert a + b == b;
    } else {
      SumConcat(a[2..], b, little);
      assert (a + b)[2..] == a[2..] + b;
      if |a| == 2 {
        assert a[2..] == [];
      }
      if b == [] {
        assert a + b == a;
      }
    }
  }

  /** Behind an odd number of bytes, the words are out of step and read the other way round. */
  lemma {:induction false} SumOdd(a: seq<byte>, b: seq<byte>, little: bool)
    requires |a| % 2 == 1
    ensures Sum(a + b, little) == Sum(a, little) + Sum(b, !little)
  {
    var n := |a| - 1;
    assert a == a[..n] + [a[n]] && a + b == a[..n] + ([a[n]] + b);
    SumConcat(a[..n], [a[n]], little);
    SumConcat(a[..n], [a[n]] + b, little);
    SumShifted(a[n], b, little);
  }

  lemma {:induction false} SumShifted(x: byte, b: seq<byte>, little: bool)
    ensures Sum([x] + b, little) == Sum([x], little) + Sum(b, !little)
    decreases |b|
  {
    var c := [x] + b;
    if |b| >= 2 {
      assert c[2..] == [b[1]] + b[2..];
      SumShifted(b[1], b[2..], little);
      if |b| == 2 {
        assert b[2..] == [];
      }
    }
  }

  /** Reading all words the other way round multiplies the sum by 256. */
  lemma {:induction false} SumSwapped(b: seq<byte>, little: bool)
    ensures Canon(256 * Sum(b, little)) == Canon(Sum(b, !little))
  {
    var k := SumSwapBy(b, little);
    if Sum(b, !little) > 0 {
      if k >= 0 {
        CanonShift(Sum(b, !little), k);
      } else {
        CanonShift(256 * Sum(b, little), -k);
      }
    }
  }

  lemma {:induction false} SumSwapBy(b: seq<byte>, little: bool) returns (k: int)
    ensures 256 * Sum(b, little) == Sum(b, !little) + 65535 * k
    ensures Sum(b, little) == 0 <==> Sum(b, !little) == 0
  {
    if b == [] {
      k := 0;
    } else {
      var second := if |b| > 1 then b[1] else 0;
      k := if little then second else b[0];
      if |b| > 2 {
        var r := SumSwapBy(b[2..], little);
        k := k + r;
      }
    }
  }

  lemma {:induction false} SumBound(b: seq<byte>, little: bool)
    ensures Sum(b, little) <= 65535 * ((|b| + 1) / 2)
  {
    if |b| > 2 {
      SumBound(b[2..], little);
    }
  }

  // -------------------------------------------------------------- version 1

  /** The sum of the words in network order. */
  method SumNetworkOrder(b: seq<byte>) returns (acc: u32)
    requires |b| <= 0xFFFF
    ensures acc == Sum(b, false)
  {
    SumBound(b, false);
    acc := 0;
    var i := 0;
    assert b[0..] == b;
    while |b| - i > 1
      invariant 0 <= i <= |b|
      invariant acc + Sum(b[i..], false) == Sum(b, false)
    {
      assert b[i..][2..] == b[i + 2..];
      var first: int := b[i];
      var src: u16 := first * 256 + b[i + 1];
      acc := acc + src;
      i := i + 2;
    }
    if i < |b| {
      var first: int := b[i];
      acc := acc + first * 256;
    }
  }

  /** Folding a second time only if needed comes to the same. */
  lemma FoldIfNeeded(u: u32)
    ensures Canon(u) == if Fold(u) >= 0x1_0000 then Fold(Fold(u)) else Fold(u)
  {
    FoldTwice(u);
  }

  /** Version 1: network order byte by byte, then htons. */
  method Chksum1(b: seq<byte>, little: bool) returns (r: u16)
    requires |b| <= 0xFFFF
    ensures r == Reference(b, little)
  {
    hide Canon, Fold, Swap, Sum;
    var acc := SumNetworkOrder(b);
    FoldIfNeeded(acc);
    acc := Fold(acc);
    if acc >= 0x1_0000 {
      acc := Fold(acc);
    }
    SwapCanon(Sum(b, false));
    SumSwapped(b, false);
    r := if little then Swap(acc) else acc;
  }

  // -------------------------------------------------------------- version 2

  /** The u16_t with the given bytes in memory. */
  function Pair(t0: byte, t1: byte, little: bool): u16 { Word([t0, t1], little) }

  /** A byte that came before the aligned part, and the aligned part: the whole sum, bytes swapped. */
  lemma AlignedPart(b: seq<byte>, little: bool)
    requires b != []
    ensures Sum(b[1..], little) + Pair(0, b[0], little) == Sum(b, !little)
    ensures Swap(Canon(Sum(b, !little))) == Reference(b, little)
  {
    assert b == [b[0]] + b[1..];
    SumShifted(b[0], b[1..], !little);
    SwapCanon(Sum(b, !little));
    SumSwapped(b, !little);
  }

  /** 16-bit reads from `start` on; the last byte, if one is left over, is returned. */
  method SumWords(b: seq<byte>, start: nat, sum0: u32, little: bool) returns (sum: u32, t0: byte)
    requires start <= |b| && sum0 + Sum(b[start..], little) < 0x1_0000_0000
    ensures sum + Pair(t0, 0, little) == sum0 + Sum(b[start..], little)
  {
    var pos := start;
    sum, t0 := sum0, 0;
    while |b| - pos > 1
      invariant start <= pos <= |b| && sum + Sum(b[pos..], little) == sum0 + Sum(b[start..], little)
    {
      assert b[pos..][2..] == b[pos + 2..];
      sum := sum + Word(b[pos..], little);
      pos := pos + 2;
    }
    if pos < |b| {
      t0 := b[pos];
    }
  }

  lemma PairSplit(t0: byte, t1: byte, little: bool)
    ensures Pair(t0, t1, little) == Pair(t0, 0, little) + Pair(0, t1, little)
    ensures Pair(0, 0, little) == 0
  {
  }

  /** The sum of everything but a first byte at an odd address, completed and put back in order. */
  lemma Completed(b: seq<byte>, odd: bool, total: nat, little: bool)
    requires Canon(total) == Canon(Sum(if odd && b != [] then b[1..] else b, little) + Pair(0, if odd && b != [] then b[0] else 0, little))
    ensures (if odd then Swap(Canon(total)) else Canon(total)) == Reference(b, little)
  {
    hide Canon, Swap, Sum, Pair;
    PairSplit(0, 0, little);
    if odd && b != [] {
      AlignedPart(b, little);
    } else if odd {
      EmptySum(little);
    }
  }

  lemma EmptySum(little: bool)
    ensures Sum([], little) == 0 && Swap(Canon(0)) == Canon(0)
  {
  }

  /** Version 2: 16-bit reads, aligned. */
  method Chksum2(b: seq<byte>, addr: nat, little: bool) returns (r: u16)
    requires |b| <= 0xFFFF
    ensures r == Reference(b, little)
  {
    hide Canon, Fold, Swap, Sum, Word;
    var odd := addr % 2 == 1;
    var t1: byte, pos := 0, 0;
    if odd && |b| > 0 {
      t1 := b[0];
      pos := 1;
    }
    SumBound(b[pos..], little);
    assert b[0..] == b;
    var sum, t0 := SumWords(b, pos, 0, little);
    PairSplit(t0, t1, little);
    sum := sum + Pair(t0, t1, little);
    Completed(b, odd, sum, little);
    FoldTwice(sum);
    sum := Fold(Fold(sum));
    r := if odd then Swap(sum) else sum;
  }

  // -------------------------------------------------------------- version 3

  /** The u32_t at the start of `b`. */
  function Long(b: seq<byte>, little: bool): u32
    requires |b| >= 4
  {
    var w0: int, w1: int := Word(b, little), Word(b[2..], little);
    if little then w0 + 0x1_0000 * w1 else 0x1_0000 * w0 + w1
  }

  /** Addition with the carry added back. */
  function AddCarry(sum: u32, x: u32): u32 {
    var s: int := sum;
    var tmp := (s + x) % 0x1_0000_0000;
    if tmp < sum then tmp + 1 else tmp
  }

  /** Adding 32 bits with carry adds both halves, in one's complement. */
  lemma AddCarryCanon(sum: u32, b: seq<byte>, little: bool, rest: nat)
    requires |b| >= 4
    ensures Canon(AddCarry(sum, Long(b, little)) + rest) == Canon(sum + Word(b, little) + Word(b[2..], little) + rest)
  {
    var w0: int, w1: int := Word(b, little), Word(b[2..], little);
    var x: int, s: int := Long(b, little), sum;
    var r: int := AddCarry(sum, x);
    var high := if little then w1 else w0;
    assert x == w0 + w1 + 65535 * high;
    var carry := if s + x >= 0x1_0000_0000 then 1 else 0;
    assert r == s + x - 0xFFFF_FFFF * carry;
    assert r + rest + 65535 * (65537 * carry) == s + w0 + w1 + rest + 65535 * high;
    if r + rest > 0 {
      CanonShift(r + rest, 65537 * carry);
    }
    if s + w0 + w1 + rest > 0 {
      CanonShift(s + w0 + w1 + rest, high);
    }
  }

  /** The inner loop: eight bytes at a time. */
  method SumLongs(b: seq<byte>, start: nat, sum0: u32, little: bool) returns (sum: u32, pos: nat)
    requires start <= |b|
    ensures start <= pos <= |b| && |b| - pos <= 7
    ensures Canon(sum + Sum(b[pos..], little)) == Canon(sum0 + Sum(b[start..], little))
  {
    hide Canon, Sum, Long, AddCarry;
    sum, pos := sum0, start;
    while |b| - pos > 7
      invariant start <= pos <= |b|
      invariant Canon(sum + Sum(b[pos..], little)) == Canon(sum0 + Sum(b[start..], little))
    {
      FourMore(sum, b, pos, little);
      sum := AddCarry(sum, Long(b[pos..], little));
      FourMore(sum, b, pos + 4, little);
      sum := AddCarry(sum, Long(b[pos + 4..], little));
      pos := pos + 8;
    }
  }

  lemma FourMore(sum: u32, b: seq<byte>, pos: nat, little: bool)
    requires pos + 4 <= |b|
    ensures Canon(AddCarry(sum, Long(b[pos..], little)) + Sum(b[pos + 4..], little)) == Canon(sum + Sum(b[pos..], little))
  {
    hide Canon, Sum, Long, AddCarry, Word;
    FourBytes(b, pos, little);
    AddCarryCanon(sum, b[pos..], little, Sum(b[pos + 4..], little));
  }

  lemma FourBytes(b: seq<byte>, pos: nat, little: bool)
    requires pos + 4 <= |b|
    ensures Sum(b[pos..], little) == Word(b[pos..], little) + Word(b[pos..][2..], little) + Sum(b[pos + 4..], little)
  {
    assert b[pos..][2..] == b[pos + 2..] && b[pos..][2..][2..] == b[pos + 4..];
    if |b| == pos + 4 {
      assert b[pos + 4..] == [];
    }
  }

  /** One 16-bit read, if that is what aligns the rest to four bytes. */
  method AlignLongs(b: seq<byte>, addr: nat, start: nat, little: bool) returns (sum: u32, pos: nat)
    requires start <= |b|
    ensures start <= pos <= |b| && sum + Sum(b[pos..], little) == Sum(b[start..], little)
  {
    hide Sum, Word;
    sum, pos := 0, start;
    if (addr + start) % 4 != 0 && |b| - start > 1 {
      OneWord(b, start, little);
      sum, pos := Word(b[start..], little), start + 2;
    }
  }

  /** Everything from `start` on: 32-bit reads, folded, then what is left in 16-bit reads. */
  method SumByLongs(b: seq<byte>, addr: nat, start: nat, little: bool) returns (sum: u32, t0: byte)
    requires start <= |b| <= 0xFFFF
    ensures Canon(sum + Pair(t0, 0, little)) == Canon(Sum(b[start..], little))
    ensures sum + 0x1_0000 < 0x1_0000_0000
  {
    hide Canon, Fold, Sum, Pair;
    var pos;
    sum, pos := AlignLongs(b, addr, start, little);
    sum, pos := SumLongs(b, pos, sum, little);
    FoldKeeps(sum, Sum(b[pos..], little));
    SumBound(b[pos..], little);
    sum, t0 := SumWords(b, pos, Fold(sum), little);
  }

  lemma Joined(sum: nat, t0: byte, t1: byte, rest: nat, little: bool)
    requires Canon(sum + Pair(t0, 0, little)) == Canon(rest)
    ensures Canon(sum + Pair(t0, t1, little)) == Canon(rest + Pair(0, t1, little))
  {
    hide Canon, Pair;
    PairSplit(t0, t1, little);
    CanonAdd(sum + Pair(t0, 0, little), Pair(0, t1, little));
    CanonAdd(rest, Pair(0, t1, little));
  }

  /** Version 3: 32-bit reads with carry, two per turn, after aligning to four bytes. */
  method Chksum3(b: seq<byte>, addr: nat, little: bool) returns (r: u16)
    requires |b| <= 0xFFFF
    ensures r == Reference(b, little)
  {
    hide Canon, Fold, Swap, Sum, Pair;
    var odd := addr % 2 == 1;
    var t1: byte, pos := 0, 0;
    if odd && |b| > 0 {
      t1 := b[0];
      pos := 1;
    }
    assert b[0..] == b;
    var sum, t0 := SumByLongs(b, addr, pos, little);
    Joined(sum, t0, t1, Sum(b[pos..], little), little);
    sum := sum + Pair(t0, t1, little);
    Completed(b, odd, sum, little);
    FoldTwice(sum);
    sum := Fold(Fold(sum));
    r := if odd then Swap(sum) else sum;
  }

  lemma OneWord(b: seq<byte>, pos: nat, little: bool)
    requires pos + 2 <= |b|
    ensures Sum(b[pos..], little) == Word(b[pos..], little) + Sum(b[pos + 2..], little)
  {
    assert b[pos..][2..] == b[pos + 2..];
    if |b| == pos + 2 {
      assert b[pos + 2..] == [];
    }
  }

  lemma FoldKeeps(u: u32, rest: nat)
    ensures Canon(Fold(u) + rest) == Canon(u + rest) && Fold(u) <= 0x1_FFFE
  {
    if Fold(u) + rest > 0 {
      CanonShift(Fold(u) + rest, u / 0x1_0000);
    }
  }

  // ----------------------------------------------------------------- chains

  /** One pbuf: where its payload lies and what it holds. */
  datatype Pbuf = Pbuf(addr: nat, data: seq<byte>)

  ghost function Flat(chain: seq<Pbuf>): seq<byte> {
    if chain == [] then [] else chain[0].data + Flat(chain[1..])
  }

  ghost predicate Short(chain: seq<Pbuf>) {
    forall i :: 0 <= i < |chain| ==> |chain[i].data| <= 0xFFFF
  }

  lemma {:induction false} FlatSnoc(chain: seq<Pbuf>, q: Pbuf)
    ensures Flat(chain + [q]) == Flat(chain) + q.data
  {
    if chain == [] {
      assert chain + [q] == [q] && [q][1..] == [];
    } else {
      FlatSnoc(chain[1..], q);
      assert (chain + [q])[1..] == chain[1..] + [q];
    }
  }

  lemma FlatTake(chain: seq<Pbuf>, i: nat)
    requires i < |chain|
    ensures Flat(chain[..i + 1]) == Flat(chain[..i]) + chain[i].data
  {
    assert chain[..i + 1] == chain[..i] + [chain[i]];
    FlatSnoc(chain[..i], chain[i]);
  }

  /** The accumulator for the sum `n`: multiplied by 256 while an odd number of bytes has been summed. */
  function Accumulator(n: nat, swapped: bool): u16 {
    if swapped then Canon(256 * n) else Canon(n)
  }

  /** Adding the checksum of the next piece, before the bytes are swapped. */
  lemma AddPiece(acc0: nat, done: seq<byte>, q: seq<byte>, little: bool)
    ensures var swapped := |done| % 2 == 1;
            Canon(Accumulator(acc0 + Sum(done, little), swapped) + Reference(q, little))
              == Accumulator(acc0 + Sum(done + q, little), swapped)
  {
    hide Canon, Sum;
    var x := acc0 + Sum(done, little);
    if |done| % 2 == 1 {
      SumOdd(done, q, little);
      var y := Sum(q, !little);
      SumSwapped(q, !little);
      CanonAdd(256 * x, Reference(q, little));
      CanonAdd(256 * y, 256 * x);
      assert 256 * (x + y) == 256 * y + 256 * x;
    } else {
      SumConcat(done, q, little);
      CanonAdd(x, Reference(q, little));
      CanonAdd(Sum(q, little), x);
    }
  }

  /** Swapping the accumulator. */
  lemma SwapAccumulator(n: nat, swapped: bool)
    ensures Swap(Accumulator(n, swapped)) == Accumulator(n, !swapped)
  {
    hide Canon, Swap;
    if swapped {
      SwapCanon(256 * n);
      CanonTimes256(n);
      assert 256 * (256 * n) == 0x1_0000 * n;
    } else {
      SwapCanon(n);
    }
  }

  /** The body of the loops over a chain: add one piece of `q`, fold, swap if the pbuf has odd length. */
  method AddPbuf(acc: u16, swapped: bool, q: Pbuf, n: nat, little: bool, ghost acc0: nat, ghost done: seq<byte>)
    returns (acc': u16, swapped': bool)
    requires n <= |q.data| <= 0xFFFF
    requires swapped == (|done| % 2 == 1) && acc == Accumulator(acc0 + Sum(done, little), swapped)
    ensures acc' == Accumulator(acc0 + Sum(done + q.data[..n], little), swapped')
    ensures swapped' == if |q.data| % 2 != 0 then !swapped else swapped
  {
    hide Canon, Sum, Accumulator, Swap, Fold;
    AddPiece(acc0, done, q.data[..n], little);
    var s := Chksum2(q.data[..n], q.addr, little);
    var sum: u32 := (acc as int) + s;
    FoldTwice(sum);
    acc', swapped' := Fold(sum), swapped;
    if |q.data| % 2 != 0 {
      SwapAccumulator(acc0 + Sum(done + q.data[..n], little), swapped);
      swapped' := !swapped;
      acc' := Swap(acc');
    }
  }

  /** The sum over a chain. */
  method ChainSum(chain: seq<Pbuf>, acc0: u16, little: bool) returns (acc: u16)
    requires Short(chain)
    ensures acc == Canon(acc0 + Sum(Flat(chain), little))
  {
    hide Canon, Sum, Swap;
    var swapped := false;
    acc := acc0;
    StartAccumulator(acc0, little);
    for i := 0 to |chain|
      invariant swapped == (|Flat(chain[..i])| % 2 == 1)
      invariant acc == Accumulator(acc0 + Sum(Flat(chain[..i]), little), swapped)
    {
      FlatTake(chain, i);
      assert chain[i].data[..|chain[i].data|] == chain[i].data;
      acc, swapped := AddPbuf(acc, swapped, chain[i], |chain[i].data|, little, acc0, Flat(chain[..i]));
    }
    assert chain[..|chain|] == chain;
    SwapAccumulator(acc0 + Sum(Flat(chain), little), swapped);
    if swapped {
      acc := Swap(acc);
    }
  }

  lemma StartAccumulator(acc0: u16, little: bool)
    ensures Sum([], little) == 0 && Canon(acc0) == acc0
  {
  }

  lemma {:induction false} FlatConcat(a: seq<Pbuf>, b: seq<Pbuf>)
    ensures Flat(a + b) == Flat(a) + Flat(b)
  {
    hide Flat;
    if a == [] {
      assert a + b == b;
      NothingFlat();
    } else {
      FlatConcat(a[1..], b);
      assert (a + b)[1..] == a[1..] + b && (a + b)[0] == a[0];
      Associates(Flat([a[0]]), Flat(a[1..]), Flat(b));
      FlatHead(a);
      FlatHead(a + b);
    }
  }

  lemma NothingFlat()
    ensures Flat([]) == []
  {
  }

  lemma FlatHead(a: seq<Pbuf>)
    requires a != []
    ensures Flat(a) == Flat([a[0]]) + Flat(a[1..])
  {
    assert [a[0]][1..] == [];
  }

  lemma PrefixOfChain(chain: seq<Pbuf>, i: nat, n: nat)
    requires i <= |chain|
    ensures n <= |Flat(chain[..i])| ==> Prefix(Flat(chain), n) == Flat(chain[..i])[..n]
    ensures i == |chain| ==> Flat(chain[..i]) == Flat(chain)
  {
    assert chain == chain[..i] + chain[i..];
    FlatConcat(chain[..i], chain[i..]);
    if i == |chain| {
      assert chain[..i] == chain;
    }
  }

  /** `done` is what has been summed of the first i pbufs: all of it, or the part that was asked for. */
  ghost predicate Summed(chain: seq<Pbuf>, i: nat, done: seq<byte>, left: nat) {
    i <= |chain| && if left > 0 then done == Flat(chain[..i]) else done <= Flat(chain[..i])
  }

  lemma SummedMore(chain: seq<Pbuf>, i: nat, done: seq<byte>, left: nat)
    requires i < |chain| && left > 0 && Summed(chain, i, done, left)
    ensures var n := Min(left, |chain[i].data|); Summed(chain, i + 1, done + chain[i].data[..n], left - n)
  {
    hide Flat;
    FlatTake(chain, i);
  }

  lemma SummedAll(chain: seq<Pbuf>, i: nat, done: seq<byte>, left: nat)
    requires Summed(chain, i, done, left) && (i == |chain| || left == 0)
    ensures done == Prefix(Flat(chain), |done| + left)
  {
    hide Flat;
    PrefixOfChain(chain, i, |done| + left);
  }

  lemma Parity(a: nat, n: nat)
    ensures (a + n) % 2 == 1 <==> ((a % 2 == 1) != (n % 2 == 1))
  {
  }

  /** The sum over the first `len` bytes of a chain. */
  method PartialSum(chain: seq<Pbuf>, len: nat, acc0: u16, little: bool) returns (acc: u16)
    requires Short(chain)
    ensures acc == Canon(acc0 + Sum(Prefix(Flat(chain), len), little))
  {
    hide Canon, Sum, Swap, Flat, Summed, Prefix;
    var swapped, left, i := false, len, 0;
    ghost var done: seq<byte> := [];
    acc := acc0;
    StartAccumulator(acc0, little);
    NothingSummedYet(chain, len);
    while i < |chain| && left > 0
      invariant 0 <= i <= |chain| && 0 <= left && |done| == len - left
      invariant acc == Accumulator(acc0 + Sum(done, little), swapped)
      invariant Summed(chain, i, done, left) && (left > 0 ==> swapped == (|done| % 2 == 1))
    {
      var n := if |chain[i].data| > left then left else |chain[i].data|;
      SummedMore(chain, i, done, left);
      Parity(|done|, n);
      acc, swapped := AddPbuf(acc, swapped, chain[i], n, little, acc0, done);
      done := done + chain[i].data[..n];
      left := left - n;
      i := i + 1;
    }
    SummedAll(chain, i, done, left);
    SwapAccumulator(acc0 + Sum(done, little), swapped);
    if swapped {
      acc := Swap(acc);
    }
  }

  lemma NothingSummedYet(chain: seq<Pbuf>, len: nat)
    ensures Summed(chain, 0, [], len)
  {
  }

  // ---------------------------------------------------------- pseudo headers

  /** lwip_htons: the u16_t whose bytes in memory are `x` in network order. */
  function Htons(x: u16, little: bool): u16 { Pair(x / 256, x % 256, little) }

  /** The IPv4 pseudo header. */
  function PseudoHeader(src: seq<byte>, dest: seq<byte>, proto: byte, len: u16): seq<byte> {
    src + dest + [0, proto] + [len / 256, len % 256]
  }

  lemma PseudoSum(src: seq<byte>, dest: seq<byte>, proto: byte, len: u16, data: seq<byte>, little: bool)
    requires |src| == 4 == |dest|
    ensures Sum(PseudoHeader(src, dest, proto, len) + data, little)
            == Sum(src, little) + Sum(dest, little) + Htons(proto, little) + Htons(len, little) + Sum(data, little)
  {
    hide Sum;
    var p, l: seq<byte> := [0, proto], [len / 256, len % 256];
    SumConcat(src + dest + p + l, data, little);
    SumConcat(src + dest + p, l, little);
    SumConcat(src + dest, p, little);
    SumConcat(src, dest, little);
    SumTwo(0, proto, little);
    SumTwo(len / 256, len % 256, little);
  }

  lemma SumTwo(x: byte, y: byte, little: bool)
    ensures Sum([x, y], little) == Pair(x, y, little)
  {
  }

  /** The two halves of an address, as ip4_addr_get_u32 gives it, are its two words. */
  lemma AddressHalves(a: seq<byte>, little: bool)
    requires |a| == 4
    ensures Long(a, little) % 0x1_0000 + Long(a, little) / 0x1_0000 == Sum(a, little)
  {
    hide Sum, Word;
    FourBytes(a, 0, little);
    assert a[0..] == a && a[4..] == [];
    assert Sum([], little) == 0 by { NothingSummed(little); }
    Halves(Word(a, little), Word(a[2..], little));
  }

  lemma NothingSummed(little: bool)
    ensures Sum([], little) == 0
  {
  }

  lemma Halves(x: u16, y: u16)
    ensures var l := x + 0x1_0000 * y; l % 0x1_0000 == x && l / 0x1_0000 == y
    ensures var l := 0x1_0000 * x + y; l % 0x1_0000 == y && l / 0x1_0000 == x
  {
  }

  /** The sum of both addresses in inet_chksum_pseudo, folded. */
  method Addresses(src: seq<byte>, dest: seq<byte>, little: bool) returns (acc: u16)
    requires |src| == 4 == |dest|
    ensures acc == Canon(Sum(src, little) + Sum(dest, little))
  {
    AddressHalves(src, little);
    AddressHalves(dest, little);
    hide Sum, Canon, Long;
    var a, d := Long(src, little), Long(dest, little);
    var sum: u32 := a % 0x1_0000 + a / 0x1_0000 + d % 0x1_0000 + d / 0x1_0000;
    FoldTwice(sum);
    acc := Fold(Fold(sum));
  }

  /** The end of the pseudo header functions: add protocol and length, fold, invert. */
  method Finish(acc: u16, proto: byte, len: u16, little: bool) returns (r: u16)
    ensures r == Not(Canon(acc + Htons(proto, little) + Htons(len, little)))
  {
    hide Canon, Htons;
    var sum: u32 := (acc as int) + Htons(proto, little) + Htons(len, little);
    FoldTwice(sum);
    r := Not(Fold(Fold(sum)));
  }

  lemma Assembled(src: seq<byte>, dest: seq<byte>, proto: byte, len: u16, data: seq<byte>, acc0: u16, acc: u16, little: bool)
    requires |src| == 4 == |dest|
    requires acc0 == Canon(Sum(src, little) + Sum(dest, little)) && acc == Canon(acc0 + Sum(data, little))
    ensures Canon(acc + Htons(proto, little) + Htons(len, little)) == Reference(PseudoHeader(src, dest, proto, len) + data, little)
  {
    hide Canon, Sum, Htons, PseudoHeader;
    var a, d := Sum(src, little) + Sum(dest, little), Sum(data, little);
    var t := Htons(proto, little) as int + Htons(len, little);
    CanonAdd(a, d);
    CanonAdd(a + d, t);
    PseudoSum(src, dest, proto, len, data, little);
  }

  /** inet_chksum_pseudo: the checksum of pseudo header and packet, however the packet is cut into pbufs. */
  method ChksumPseudo(chain: seq<Pbuf>, proto: byte, len: u16, src: seq<byte>, dest: seq<byte>, little: bool) returns (r: u16)
    requires Short(chain) && |src| == 4 == |dest|
    ensures r == Not(Reference(PseudoHeader(src, dest, proto, len) + Flat(chain), little))
  {
    hide Canon, Sum, Htons, PseudoHeader;
    var acc0 := Addresses(src, dest, little);
    var acc := ChainSum(chain, acc0, little);
    Assembled(src, dest, proto, len, Flat(chain), acc0, acc, little);
    r := Finish(acc, proto, len, little);
  }

  /** inet_chksum_pseudo_partial: the same over the first `chksumLen` bytes of the packet. */
  method ChksumPseudoPartial(chain: seq<Pbuf>, proto: byte, len: u16, chksumLen: nat, src: seq<byte>, dest: seq<byte>, little: bool)
    returns (r: u16)
    requires Short(chain) && |src| == 4 == |dest|
    ensures r == Not(Reference(PseudoHeader(src, dest, proto, len) + Prefix(Flat(chain), chksumLen), little))
  {
    hide Canon, Sum, Htons, PseudoHeader, Prefix;
    var acc0 := Addresses(src, dest, little);
    var acc := PartialSum(chain, chksumLen, acc0, little);
    Assembled(src, dest, proto, len, Prefix(Flat(chain), chksumLen), acc0, acc, little);
    r := Finish(acc, proto, len, little);
  }

  /** inet_chksum_pbuf: the checksum of the flat bytes. */
  method ChksumPbuf(chain: seq<Pbuf>, little: bool) returns (r: u16)
    requires Short(chain)
    ensures r == Not(Reference(Flat(chain), little))
  {
    var acc := ChainSum(chain, 0, little);
    r := Not(acc);
  }

  /** The two bytes of a u16_t in memory. */
  function Bytes(x: u16, little: bool): seq<byte> {
    if little then [x % 256, x / 256] else [x / 256, x % 256]
  }

  /**
   * A packet that carries its own checksum in a field that was zero when it was computed, at an even
   * place, verifies to zero; with another value there it does not, except that a zero may be written in both its forms.
   */
  lemma CarriesItsChecksum(front: seq<byte>, back: seq<byte>, field: u16, little: bool)
    requires |front| % 2 == 0
    ensures var chksum := Not(Reference(front + [0, 0] + back, little));
            Not(Reference(front + Bytes(field, little) + back, little)) == 0 <==>
            field == chksum || (chksum == 0 && field == 0xFFFF)
  {
    FieldSum(front, back, 0, little);
    FieldSum(front, back, field, little);
    assert Bytes(0, little) == [0, 0];
    hide Sum;
    FullSum(Sum(front, little) + Sum(back, little), field);
  }

  /** Adding `field` to a sum gives the one's complement zero 0xFFFF only for the complement of the sum. */
  lemma FullSum(n: nat, field: u16)
    ensures Canon(n + field) == 0xFFFF <==> field == Not(Canon(n)) || (Canon(n) == 0xFFFF && field == 0xFFFF)
  {
    CanonAdd(n, field);
  }

  lemma FieldSum(front: seq<byte>, back: seq<byte>, field: u16, little: bool)
    requires |front| % 2 == 0
    ensures Sum(front + Bytes(field, little) + back, little) == Sum(front, little) + field + Sum(back, little)
  {
    var f := Bytes(field, little);
    SumConcat(front + f, back, little);
    SumConcat(front, f, little);
    SumTwo(f[0], f[1], little);
    assert f == [f[0], f[1]];
  }
}
