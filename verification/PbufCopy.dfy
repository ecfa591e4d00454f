/**
 * Copying bytes out of, into and between chains of packet buffers, as operations on the
 * packets they stand for.
 */
module PbufCopy {
  import opened Common
  import opened Pbufs

  lemma ChainOk(c: seq<Pbuf>)
    requires Chain(c)
    ensures Linked(c) && AllOk(c)
  {
  }

  datatype Err = ERR_OK | ERR_MEM | ERR_ARG | ERR_VAL

  /** The length of the first k pbufs. */
  ghost function Pos(c: seq<Pbuf>, k: nat): nat
    requires k <= |c|
    reads c`len
  {
    if k == 0 then 0 else Pos(c, k - 1) + c[k - 1].len
  }

  lemma {:induction false} PosIsJoin(c: seq<Pbuf>, k: nat)
    requires AllOk(c) && k <= |c|
    ensures Pos(c, k) == |Join(Views(c)[..k])|
  {
    var v := Views(c);
    if k == 0 {
      assert v[..0] == [];
    } else {
      PosIsJoin(c, k - 1);
      JoinCons(v, k - 1);
      OkLen(c, k - 1);
    }
  }

  /** Pbuf k shows the bytes of the packet from its position on. */
  lemma ViewAt(c: seq<Pbuf>, k: nat)
    requires AllOk(c) && k < |c|
    ensures Pos(c, k + 1) == Pos(c, k) + c[k].len <= |Flat(c)|
    ensures |c[k].View()| == c[k].len && Flat(c)[Pos(c, k)..Pos(c, k + 1)] == c[k].View()
  {
    hide Join, AllOk, Views;
    var v := Views(c);
    OkLen(c, k);
    PosIsJoin(c, k);
    JoinSplit(v, k);
    JoinCons(v, k);
  }

  lemma ViewPart(c: seq<Pbuf>, k: nat, x: nat, y: nat)
    requires AllOk(c) && k < |c| && x <= y <= c[k].len
    ensures Pos(c, k) + y <= |Flat(c)| && c[k].Ok()
    ensures c[k].buf[c[k].start + x..c[k].start + y] == Flat(c)[Pos(c, k) + x..Pos(c, k) + y]
  {
    hide Flat, Pos;
    ViewAt(c, k);
    SliceSlice(Flat(c), Pos(c, k), Pos(c, k + 1), x, y);
    SliceSlice(c[k].buf, c[k].start, c[k].start + c[k].len, x, y);
  }

  lemma SliceSlice(s: seq<byte>, a: nat, b: nat, x: nat, y: nat)
    requires a <= b <= |s| && x <= y <= b - a
    ensures s[a..b][x..y] == s[a + x..a + y]
  {
    var l, r := s[a..b][x..y], s[a + x..a + y];
    assert |l| == |r| && forall i :: 0 <= i < |l| ==> l[i] == r[i];
  }

  lemma PosEnd(c: seq<Pbuf>)
    requires AllOk(c)
    ensures Pos(c, |c|) == |Flat(c)|
  {
    PosIsJoin(c, |c|);
    assert Views(c)[..|c|] == Views(c);
  }

  /** The bytes from a to b, or nothing when that is no range of the sequence. */
  ghost function Part(s: seq<byte>, a: nat, b: nat): seq<byte> {
    if a <= b <= |s| then s[a..b] else []
  }

  lemma NextNode(c: seq<Pbuf>, i: nat)
    requires Linked(c) && i < |c|
    ensures c[i].next == Node(c, i + 1)
  {
    NextOf(c, i);
  }

  /** What of an offset is left when the packet is read up to a position. */
  ghost function Still(offset: nat, pos: nat): nat {
    if pos <= offset then offset - pos else 0
  }

  /** One pbuf of pbuf_copy_partial: skipped, or read from the offset on. */
  lemma CopyStep(f: seq<byte>, offset: nat, len: nat, at: nat, n: nat, out: seq<byte>)
    requires at + n <= |f| && out == Part(f, offset, Min(at, offset + len)) && |out| < len
    ensures var off := Still(offset, at);
            if off != 0 && off >= n then
              out == Part(f, offset, Min(at + n, offset + len)) && off - n == Still(offset, at + n)
            else
              var m := Min(n - off, len - |out|);
              out + f[at + off..at + off + m] == Part(f, offset, Min(at + n, offset + len))
              && Still(offset, at + n) == 0
  {
  }

  /** pbuf_copy_partial */
  method CopyPartial(buf: Pbuf?, len: nat, offset: nat, ghost c: seq<Pbuf>) returns (out: seq<byte>)
    requires Linked(c) && AllOk(c) && buf == Node(c, 0)
    ensures out == Part(Flat(c), Min(offset, |Flat(c)|), Min(offset + len, |Flat(c)|))
  {
    hide Linked, AllOk, Flat, Pos, Part, Still;
    ghost var f, i := Flat(c), 0;
    var p := buf;
    var left: nat, off: nat := len, offset;
    out := [];
    CopyStart(c, offset, len);
    while left != 0 && p != null
      invariant i <= |c| && p == Node(c, i) && Pos(c, i) <= |f|
      invariant left == len - |out| && off == Still(offset, Pos(c, i))
      invariant out == Part(f, offset, Min(Pos(c, i), offset + len))
      decreases |c| - i
    {
      ViewAt(c, i);
      NextNode(c, i);
      CopyStep(f, offset, len, Pos(c, i), p.len, out);
      if off != 0 && off >= p.len {
        off := off - p.len;
      } else {
        var n := Min(p.len - off, left);
        ViewPart(c, i, off, off + n);
        out := out + p.buf[p.start + off..p.start + off + n];
        left := left - n;
        off := 0;
      }
      p := p.next;
      i := i + 1;
    }
    CopyEnd(c, offset, len, i, out);
  }

  lemma CopyStart(c: seq<Pbuf>, offset: nat, len: nat)
    ensures Pos(c, 0) == 0 && Still(offset, 0) == offset
    ensures Part(Flat(c), offset, Min(0, offset + len)) == []
  {
  }

  lemma CopyEnd(c: seq<Pbuf>, offset: nat, len: nat, i: nat, out: seq<byte>)
    requires AllOk(c) && i <= |c| && Pos(c, i) <= |Flat(c)|
    requires out == Part(Flat(c), offset, Min(Pos(c, i), offset + len)) && (|out| == len || i == |c|)
    ensures out == Part(Flat(c), Min(offset, |Flat(c)|), Min(offset + len, |Flat(c)|))
  {
    hide Flat, Pos, AllOk;
    PosEnd(c);
  }

  /** The totals in terms of the length fields alone. */
  ghost predicate TotalsByLen(c: seq<Pbuf>)
    reads c`totLen, c`len
  {
    forall i :: 0 <= i < |c| ==> c[i].totLen == Low16(Pos(c, |c|) - Pos(c, i))
  }

  lemma RestByPos(c: seq<Pbuf>, i: nat)
    requires AllOk(c) && i < |c|
    ensures Rests(Views(c))[i] == Pos(c, |c|) - Pos(c, i)
  {
    PosIsJoin(c, i);
    PosEnd(c);
    JoinSplit(Views(c), i);
  }

  lemma ChainByLen(c: seq<Pbuf>)
    requires AllOk(c)
    ensures Chain(c) <==> Linked(c) && TotalsByLen(c)
  {
    hide Linked, AllOk, Views, Rests, Pos, Low16;
    forall i | 0 <= i < |c|
      ensures Rests(Views(c))[i] == Pos(c, |c|) - Pos(c, i)
    {
      RestByPos(c, i);
    }
  }

  /** A sequence with some of its bytes overwritten. */
  ghost function Spliced(s: seq<byte>, at: nat, b: seq<byte>): seq<byte>
    requires at + |b| <= |s|
  {
    s[..at] + b + s[at + |b|..]
  }

  lemma SpliceJoin(v: seq<seq<byte>>, k: nat, off: nat, b: seq<byte>)
    requires k < |v| && off + |b| <= |v[k]|
    ensures var at := |Join(v[..k])| + off;
            at + |b| <= |Join(v)| && Join(v[k := Spliced(v[k], off, b)]) == Spliced(Join(v), at, b)
  {
    var x := Spliced(v[k], off, b);
    var w := v[k := x];
    hide Join;
    JoinSplit(v, k);
    JoinSplit(w, k);
    JoinCons(v, k);
    JoinCons(w, k);
    assert w[..k] == v[..k] && w[k + 1..] == v[k + 1..];
    SpliceMiddle(Join(v[..k]), v[k], Join(v[k + 1..]), off, b);
    Associates(Join(v[..k]), x, Join(v[k + 1..]));
    Associates(Join(v[..k]), v[k], Join(v[k + 1..]));
  }

  lemma SpliceMiddle(a: seq<byte>, m: seq<byte>, z: seq<byte>, off: nat, b: seq<byte>)
    requires off + |b| <= |m|
    ensures a + Spliced(m, off, b) + z == Spliced(a + m + z, |a| + off, b)
  {
  }

  lemma PokeView(buf: seq<byte>, start: nat, len: nat, off: nat, b: seq<byte>)
    requires start + len <= |buf| && off + |b| <= len
    ensures var at := start + off;
            var now := buf[..at] + b + buf[at + |b|..];
            |now| == |buf| && now[start..start + len] == Spliced(buf[start..start + len], off, b)
  {
    var at := start + off;
    var now := buf[..at] + b + buf[at + |b|..];
    var l, r := now[start..start + len], Spliced(buf[start..start + len], off, b);
    assert |l| == |r|;
    forall i | 0 <= i < len
      ensures l[i] == r[i]
    {
      assert l[i] == now[start + i];
      assert r[i] == if i < off then buf[start + i] else if i < off + |b| then b[i - off] else buf[start + i];
    }
  }

  /** MEMCPY into a pbuf */
  method Poke(p: Pbuf, off: nat, b: seq<byte>)
    requires p.Ok() && off + |b| <= p.len
    modifies p`buf
    ensures p.Ok() && p.View() == Spliced(old(p.View()), off, b)
  {
    hide Spliced;
    PokeView(p.buf, p.start, p.len, off, b);
    var at := p.start + off;
    p.buf := p.buf[..at] + b + p.buf[at + |b|..];
  }

  /** Writing into one pbuf of a chain writes into the packet. */
  method PokeIn(p: Pbuf, off: nat, b: seq<byte>, ghost c: seq<Pbuf>, ghost k: nat)
    requires Distinct(c) && AllOk(c) && k < |c| && p == c[k] && off + |b| <= p.len
    modifies p`buf
    ensures AllOk(c) && Pos(c, k) + off + |b| <= |old(Flat(c))|
    ensures Flat(c) == Spliced(old(Flat(c)), Pos(c, k) + off, b)
  {
    hide AllOk, Views, Pos, Join, Distinct, Spliced;
    ghost var v := Views(c);
    OkLen(c, k);
    OnlyAt(c, k);
    PosIsJoin(c, k);
    SpliceJoin(v, k, off, b);
    OksAll(c);
    Poke(p, off, b);
    OksMake(c);
    ViewsAre(c, v[k := Spliced(v[k], off, b)]);
  }

  lemma OksAll(c: seq<Pbuf>)
    requires AllOk(c)
    ensures forall k :: 0 <= k < |c| ==> c[k].Ok()
  {
  }

  lemma Low16Below(n: nat)
    ensures Low16(n) <= n && (n < U16 ==> Low16(n) == n)
  {
  }

  lemma SpliceMore(s: seq<byte>, at: nat, b: seq<byte>, d: seq<byte>)
    requires at + |b| + |d| <= |s|
    ensures Spliced(Spliced(s, at, b), at + |b|, d) == Spliced(s, at, b + d)
  {
  }

  lemma TakeSplit(data: seq<byte>, a: nat, n: nat)
    requires a + n <= |data|
    ensures data[..a] + data[a..a + n] == data[..a + n]
  {
  }

  lemma {:induction false} PosGrows(c: seq<Pbuf>, i: nat, j: nat)
    requires i <= j <= |c|
    ensures Pos(c, i) <= Pos(c, j)
  {
    if i < j {
      PosGrows(c, i, j - 1);
    }
  }

  /** The copy loop of pbuf_take. */
  method Fill(buf: Pbuf, data: seq<byte>, ghost c: seq<Pbuf>)
    requires Linked(c) && AllOk(c) && c != [] && buf == c[0] && |data| <= |Flat(c)|
    modifies c`buf
    ensures AllOk(c) && Flat(c) == Spliced(old(Flat(c)), 0, data)
  {
    hide Linked, Distinct, AllOk, Flat, Spliced, Pos;
    ghost var f := Flat(c);
    var p: Pbuf?, total: nat, copied: nat := buf, |data|, 0;
    ghost var i := 0;
    PosZero(c);
    SpliceNothing(f, 0);
    assert data[..0] == [];
    while total != 0
      invariant Linked(c) && AllOk(c) && i <= |c| && p == Node(c, i)
      invariant copied + total == |data| && (total != 0 ==> copied == Pos(c, i))
      invariant |data| <= |f| == |Flat(c)| && Flat(c) == Spliced(f, 0, data[..copied])
      decreases |c| - i
    {
      PosEnd(c);
      assert i < |c|;
      ViewAt(c, i);
      NextNode(c, i);
      assert Distinct(c) by { LinkedDistinct(c); }
      var n := Min(total, p.len);
      SpliceMore(f, 0, data[..copied], data[copied..copied + n]);
      TakeSplit(data, copied, n);
      SplicedLength(Flat(c), copied, data[copied..copied + n]);
      PokeIn(p, 0, data[copied..copied + n], c, i);
      total := total - n;
      copied := copied + n;
      p := p.next;
      i := i + 1;
    }
    assert data[..|data|] == data;
  }

  lemma PosZero(c: seq<Pbuf>)
    ensures Pos(c, 0) == 0
  {
  }

  lemma SpliceNothing(s: seq<byte>, at: nat)
    requires at <= |s|
    ensures Spliced(s, at, []) == s
  {
  }

  lemma SplicedLength(s: seq<byte>, at: nat, b: seq<byte>)
    requires at + |b| <= |s|
    ensures |Spliced(s, at, b)| == |s|
  {
  }

  /** pbuf_take */
  method Take(buf: Pbuf, data: seq<byte>, ghost c: seq<Pbuf>) returns (err: Err)
    requires Chain(c) && c != [] && buf == c[0]
    modifies c`buf
    ensures Chain(c) && err == if |data| <= Low16(|old(Flat(c))|) then ERR_OK else ERR_MEM
    ensures err == ERR_OK ==> |data| <= |old(Flat(c))| && Flat(c) == Spliced(old(Flat(c)), 0, data)
    ensures err != ERR_OK ==> Flat(c) == old(Flat(c))
  {
    hide Linked, AllOk, Chain, Flat, Spliced, Low16, TotalsByLen;
    ChainTail(c);
    if buf.totLen < |data| {
      return ERR_MEM;
    }
    Low16Below(|Flat(c)|);
    ChainOk(c);
    ChainByLen(c);
    Fill(buf, data, c);
    ChainByLen(c);
    err := ERR_OK;
  }

  lemma {:induction false} ChainSuffix(c: seq<Pbuf>, k: nat)
    requires Chain(c) && k <= |c|
    ensures Chain(c[k..])
    decreases k
  {
    hide Chain;
    if k == 0 {
      assert c[0..] == c;
    } else {
      ChainSuffix(c, k - 1);
      ChainTail(c[k - 1..]);
      assert c[k - 1..][1..] == c[k..];
    }
  }

  lemma FlatSplit(c: seq<Pbuf>, k: nat)
    requires k <= |c| && AllOk(c)
    ensures Flat(c) == Flat(c[..k]) + Flat(c[k..]) && |Flat(c[..k])| == Pos(c, k)
    ensures AllOk(c[..k]) && AllOk(c[k..])
  {
    hide Views, Join, AllOk;
    assert c == c[..k] + c[k..];
    ViewsConcat(c[..k], c[k..]);
    JoinConcat(Views(c[..k]), Views(c[k..]));
    PosIsJoin(c, k);
    assert Views(c)[..k] == Views(c[..k]);
  }

  lemma OksJoin(c: seq<Pbuf>, k: nat)
    requires k <= |c| && AllOk(c[..k]) && AllOk(c[k..])
    ensures AllOk(c)
  {
    assert c == c[..k] + c[k..];
    ViewsConcat(c[..k], c[k..]);
  }

  lemma PartsApart(c: seq<Pbuf>, k: nat)
    requires Linked(c) && k <= |c|
    ensures forall i :: 0 <= i < k ==> c[..k][i] !in c[k..]
  {
  }

  /** pbuf_take on a part of a chain leaves the part before it alone. */
  method TakeApart(next: Pbuf, data: seq<byte>, ghost a: seq<Pbuf>, ghost d: seq<Pbuf>) returns (err: Err)
    requires AllOk(a) && Chain(d) && d != [] && next == d[0] && (forall i :: 0 <= i < |a| ==> a[i] !in d)
    requires |data| <= |Flat(d)| && |data| <= Low16(|Flat(d)|)
    modifies d`buf
    ensures err == ERR_OK && AllOk(a) && AllOk(d)
    ensures Flat(a) == old(Flat(a)) && Flat(d) == Spliced(old(Flat(d)), 0, data)
  {
    hide AllOk, Chain, Flat, Spliced, Low16;
    err := Take(next, data, d);
    ChainOk(d);
  }

  /** pbuf_take on the pbufs of a chain from the k-th on */
  method TakeBehind(next: Pbuf, data: seq<byte>, ghost c: seq<Pbuf>, ghost k: nat) returns (err: Err)
    requires Chain(c) && k < |c| && next == c[k]
    requires Pos(c, k) + |data| <= |Flat(c)| && |data| <= Low16(|Flat(c)| - Pos(c, k))
    modifies c`buf
    ensures err == ERR_OK && Chain(c) && Flat(c) == Spliced(old(Flat(c)), Pos(c, k), data)
  {
    hide Linked, AllOk, Chain, Flat, Spliced, Low16, TotalsByLen, Pos;
    ghost var a, d := c[..k], c[k..];
    ChainOk(c);
    ChainByLen(c);
    ChainSuffix(c, k);
    FlatSplit(c, k);
    PartsApart(c, k);
    SpliceBack(Flat(a), Flat(d), data);
    err := TakeApart(next, data, a, d);
    OksJoin(c, k);
    ChainByLen(c);
    FlatSplit(c, k);
  }

  lemma SpliceBack(a: seq<byte>, z: seq<byte>, b: seq<byte>)
    requires |b| <= |z|
    ensures a + Spliced(z, 0, b) == Spliced(a + z, |a|, b)
  {
  }

  /** pbuf_skip */
  method Skip(buf: Pbuf?, offset: nat, ghost c: seq<Pbuf>) returns (q: Pbuf?, off: nat, ghost k: nat)
    requires Linked(c) && AllOk(c) && buf == Node(c, 0)
    ensures k <= |c| && q == Node(c, k) && offset == Pos(c, k) + off
    ensures q != null ==> off < q.len
    ensures q == null <==> |Flat(c)| <= offset
  {
    hide Linked, AllOk, Flat;
    q, off := buf, offset;
    k := 0;
    while q != null && q.len <= off
      invariant k <= |c| && q == Node(c, k) && offset == Pos(c, k) + off
      decreases |c| - k
    {
      NextNode(c, k);
      off := off - q.len;
      q := q.next;
      k := k + 1;
    }
    PosEnd(c);
    if q != null {
      ViewAt(c, k);
    }
  }

  /** pbuf_take_at */
  method TakeAt(buf: Pbuf?, data: seq<byte>, offset: nat, ghost c: seq<Pbuf>) returns (err: Err)
    requires Chain(c) && buf == Node(c, 0) && |data| < U16
    modifies c`buf
    ensures Chain(c)
    ensures err == ERR_OK ==>
      offset + |data| <= |old(Flat(c))| && Flat(c) == Spliced(old(Flat(c)), offset, data)
    ensures err != ERR_OK ==> err == ERR_MEM && Flat(c) == old(Flat(c))
    ensures |old(Flat(c))| < U16 ==> (err == ERR_OK <==> offset < |old(Flat(c))| && offset + |data| <= |old(Flat(c))|)
  {
    hide Linked, Distinct, AllOk, Chain, Flat, Spliced, Low16, TotalsByLen, Pos;
    ChainOk(c);
    ChainByLen(c);
    var q, off;
    ghost var k;
    q, off, k := Skip(buf, offset, c);
    if q == null {
      return ERR_MEM;
    }
    TotalAt(c, k);
    ViewAt(c, k);
    if q.totLen < off + |data| {
      return ERR_MEM;
    }
    LinkedDistinct(c);
    NextNode(c, k);
    var first := Min(q.len - off, |data|);
    ghost var f := Flat(c);
    SplicedLength(f, offset, data[..first]);
    PokeIn(q, off, data[..first], c, k);
    ChainByLen(c);
    if |data| - first > 0 {
      RestOfData(c, k, off, |data|);
      err := TakeBehind(q.next, data[first..], c, k + 1);
      SpliceMore(f, offset, data[..first], data[first..]);
      assert data[..first] + data[first..] == data;
    } else {
      assert data[..first] == data;
      err := ERR_OK;
    }
  }

  lemma TotalAt(c: seq<Pbuf>, k: nat)
    requires Chain(c) && k < |c|
    ensures Pos(c, k) <= |Flat(c)| && c[k].totLen == Low16(|Flat(c)| - Pos(c, k)) <= |Flat(c)| - Pos(c, k)
    ensures |Flat(c)| < U16 ==> c[k].totLen == |Flat(c)| - Pos(c, k)
  {
    hide Linked, AllOk, Chain, Flat, Low16, Pos;
    ChainOk(c);
    ChainByLen(c);
    PosEnd(c);
    PosGrows(c, k, |c|);
    Low16Below(|Flat(c)| - Pos(c, k));
  }

  /** More data than fits the first pbuf fits the rest, also when the total is taken modulo 2^16. */
  lemma RestOfData(c: seq<Pbuf>, k: nat, off: nat, n: nat)
    requires Chain(c) && k < |c| && off <= c[k].len < off + n <= c[k].totLen
    ensures k + 1 < |c| && Pos(c, k + 1) + (off + n - c[k].len) <= |Flat(c)|
    ensures off + n - c[k].len <= Low16(|Flat(c)| - Pos(c, k + 1))
  {
    hide Linked, AllOk, Chain, Flat, Low16, Pos, TotalsByLen;
    ChainOk(c);
    TotalAt(c, k);
    ViewAt(c, k);
    PosEnd(c);
    Low16Minus(|Flat(c)| - Pos(c, k), c[k].len);
  }

  lemma Low16Minus(x: nat, d: nat)
    requires d <= Low16(x)
    ensures d <= x && Low16(x - d) == Low16(x) - d
  {
  }

  /** Writing at an offset and reading there again gives the data. */
  method TakeThenCopy(buf: Pbuf?, data: seq<byte>, offset: nat, ghost c: seq<Pbuf>) returns (err: Err, out: seq<byte>)
    requires Chain(c) && buf == Node(c, 0) && |data| < U16
    modifies c`buf
    ensures err == ERR_OK ==> out == data
    ensures err == ERR_OK ==>
      offset + |data| <= |old(Flat(c))| && Flat(c) == Spliced(old(Flat(c)), offset, data)
    ensures err != ERR_OK ==> Flat(c) == old(Flat(c))
  {
    hide Chain, Flat;
    err := TakeAt(buf, data, offset, c);
    ChainOk(c);
    out := CopyPartial(buf, |data|, offset, c);
  }
}
