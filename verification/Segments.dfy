/**
 * Incoming segments, and queues of segments ordered by sequence number.
 * The FIN occupies the position after the last byte of the stream.
 */
module Segments {
  import opened Common

  /** `pbufs` is the length of the pbuf chain; only the send side counts it. */
  datatype Segment = Segment(off: int, data: seq<byte>, fin: bool, pbufs: nat := 1) {
    /** seqno + len */
    function End(): int { off + |data| }

    /** TCP_TCPLEN */
    function TcpLen(): nat { |data| + if fin then 1 else 0 }

    /** seqno + TCP_TCPLEN */
    function Last(): int { off + TcpLen() }

    predicate Covers(p: int) { off <= p < Last() }
  }

  /** `s` was cut from `stream`: its bytes are the stream's, and a FIN stands at the end. */
  predicate Cut(stream: seq<byte>, s: Segment) {
    && 0 <= s.off && s.End() <= |stream|
    && s.data == stream[s.off..s.End()]
    && (s.fin ==> s.End() == |stream|)
  }

  /** Strictly sorted, disjoint, no empty segment, FIN only at the tail. */
  ghost predicate Ordered(q: seq<Segment>) {
    && (forall i :: 0 <= i < |q| ==> q[i].TcpLen() > 0)
    && (forall i, j :: 0 <= i < j < |q| ==> q[i].off < q[j].off && q[i].End() <= q[j].off && !q[i].fin)
  }

  /** A queue of segments of one stream lying in [lo, hi). */
  ghost predicate Queue(stream: seq<byte>, q: seq<Segment>, lo: int, hi: int) {
    && Ordered(q)
    && (forall i :: 0 <= i < |q| ==> Cut(stream, q[i]) && lo <= q[i].off && q[i].Last() <= hi)
  }

  /** Position `p` is buffered in `q`. */
  ghost predicate Holds(q: seq<Segment>, p: int) {
    exists i :: 0 <= i < |q| && q[i].Covers(p)
  }

  /** The positions occupied by a segment, and those buffered in a queue. */
  ghost function Span(s: Segment): iset<int> { iset p | s.Covers(p) }
  ghost function Held(q: seq<Segment>): iset<int> { iset p: int | Holds(q, p) }

  ghost predicate AllBelow(s: iset<int>, x: int) { forall p :: p in s ==> p < x }

  lemma HoldsAppend(a: seq<Segment>, b: seq<Segment>, p: int)
    ensures Holds(a + b, p) <==> Holds(a, p) || Holds(b, p)
  {
    if Holds(a, p) {
      var i :| 0 <= i < |a| && a[i].Covers(p);
      assert (a + b)[i].Covers(p);
    }
    if Holds(b, p) {
      var i :| 0 <= i < |b| && b[i].Covers(p);
      assert (a + b)[|a| + i].Covers(p);
    }
  }

  lemma HoldsOne(s: Segment, p: int)
    ensures Holds([s], p) <==> s.Covers(p)
  {
    assert [s][0] == s;
  }

  lemma HoldsCons(s: Segment, q: seq<Segment>, p: int)
    ensures Holds([s] + q, p) <==> s.Covers(p) || Holds(q, p)
  {
    HoldsAppend([s], q, p);
    HoldsOne(s, p);
  }

  lemma HeldCons(s: Segment, q: seq<Segment>)
    ensures Held([s] + q) == Span(s) + Held(q)
  {
    forall p: int
      ensures p in Held([s] + q) <==> p in Span(s) + Held(q)
    {
      HoldsCons(s, q, p);
    }
  }

  /** What the tail of an ordered queue holds. */
  lemma HoldsTail(q: seq<Segment>, p: int)
    requires Ordered(q) && q != []
    ensures Holds(q, p) <==> q[0].Covers(p) || Holds(q[1..], p)
    ensures Holds(q[1..], p) <==> Holds(q, p) && p >= q[0].Last()
  {
    HoldsCons(q[0], q[1..], p);
    assert q == [q[0]] + q[1..];
    if Holds(q[1..], p) {
      var i :| 0 <= i < |q[1..]| && q[1..][i].Covers(p);
      assert q[1..][i] == q[i + 1];
    }
  }

  lemma QueueCons(stream: seq<byte>, s: Segment, q: seq<Segment>, lo: int, hi: int)
    requires Queue(stream, q, lo, hi)
    requires Cut(stream, s) && s.TcpLen() > 0 && lo <= s.off && s.Last() <= hi
    requires q != [] ==> s.off < q[0].off && s.End() <= q[0].off && !s.fin
    ensures Queue(stream, [s] + q, lo, hi)
  {
    var r := [s] + q;
    forall i, j | 0 <= i < j < |r|
      ensures r[i].off < r[j].off && r[i].End() <= r[j].off && !r[i].fin
    {
      assert r[j] == q[j - 1];
      if i > 0 {
        assert r[i] == q[i - 1];
      } else if j > 1 {
        assert q[0].off < q[j - 1].off;
      }
    }
    forall i | 0 <= i < |r|
      ensures r[i].TcpLen() > 0 && Cut(stream, r[i]) && lo <= r[i].off && r[i].Last() <= hi
    {
      assert r[i] == if i == 0 then s else q[i - 1];
    }
  }

  lemma QueueTail(stream: seq<byte>, q: seq<Segment>, lo: int, hi: int)
    requires Queue(stream, q, lo, hi) && q != []
    ensures Queue(stream, q[1..], lo, hi)
    ensures q[1..] != [] ==> q[0].Last() <= q[1..][0].off
  {
    forall i | 0 <= i < |q[1..]|
      ensures Cut(stream, q[1..][i])
    {
      assert q[1..][i] == q[i + 1];
    }
  }

  lemma OrderedSplit(q: seq<Segment>, i: nat)
    requires Ordered(q) && i <= |q|
    ensures Ordered(q[..i]) && Ordered(q[i..])
  {
    var b := q[i..];
    forall k, m | 0 <= k < m < |b|
      ensures b[k].off < b[m].off && b[k].End() <= b[m].off && !b[k].fin
    {
      assert b[k] == q[i + k] && b[m] == q[i + m];
    }
    forall k | 0 <= k < |b|
      ensures b[k].TcpLen() > 0
    {
      assert b[k] == q[i + k];
    }
  }

  lemma QueueSplit(stream: seq<byte>, q: seq<Segment>, i: nat, lo: int, hi: int)
    requires Queue(stream, q, lo, hi) && i <= |q|
    ensures Queue(stream, q[..i], lo, hi)
    ensures Queue(stream, q[i..], if i < |q| then q[i].off else lo, hi)
  {
    OrderedSplit(q, i);
    var b := q[i..];
    forall k | 0 <= k < |b|
      ensures Cut(stream, b[k]) && b[k].Last() <= hi && q[i].off <= b[k].off
    {
      assert b[k] == q[i + k];
      assert k > 0 ==> q[i].off < q[i + k].off;
    }
    hide Ordered;
  }

  lemma QueueConcat(stream: seq<byte>, a: seq<Segment>, b: seq<Segment>, lo: int, mid: int, hi: int)
    requires Queue(stream, a, lo, hi) && Queue(stream, b, mid, hi) && lo <= mid
    requires forall i :: 0 <= i < |a| ==> a[i].off < mid && a[i].End() <= mid && !a[i].fin
    ensures Queue(stream, a + b, lo, hi)
  {
    var r := a + b;
    forall i, j | 0 <= i < j < |r|
      ensures r[i].off < r[j].off && r[i].End() <= r[j].off && !r[i].fin
    {
      if |a| <= j {
        assert r[j] == b[j - |a|];
        if |a| <= i {
          assert r[i] == b[i - |a|];
        }
      }
    }
    forall i | 0 <= i < |r|
      ensures r[i].TcpLen() > 0 && Cut(stream, r[i]) && lo <= r[i].off && r[i].Last() <= hi
    {
      assert r[i] == if i < |a| then a[i] else b[i - |a|];
    }
  }
}
