/**
 * The two queues of a sender. `unacked` and `unsent` together tile the sequence
 * space from the first byte not fully acknowledged to the last one written.
 */
module SendQueues {
  import opened Common
  import opened SequenceNumbers
  import opened Segments

  // ------------------------------------------------------------------ totals

  /** Data bytes in a queue. */
  ghost function Bytes(q: seq<Segment>): nat {
    if q == [] then 0 else |q[0].data| + Bytes(q[1..])
  }

  /** Pbufs in a queue: the sum of pbuf_clen. */
  ghost function Pbufs(q: seq<Segment>): nat {
    if q == [] then 0 else q[0].pbufs + Pbufs(q[1..])
  }

  /** All data of a queue in order. */
  ghost function Payload(q: seq<Segment>): seq<byte> {
    if q == [] then [] else q[0].data + Payload(q[1..])
  }

  lemma {:induction false} TotalsConcat(a: seq<Segment>, b: seq<Segment>)
    ensures Bytes(a + b) == Bytes(a) + Bytes(b)
    ensures Pbufs(a + b) == Pbufs(a) + Pbufs(b)
    ensures Payload(a + b) == Payload(a) + Payload(b)
  {
    hide Bytes, Pbufs, Payload;
    if a == [] {
      assert a + b == b;
      NoTotals();
    } else {
      TotalsConcat(a[1..], b);
      assert (a + b)[1..] == a[1..] + b && (a + b)[0] == a[0];
      TotalsHead(a);
      TotalsHead(a + b);
      assert a[0].data + (Payload(a[1..]) + Payload(b)) == (a[0].data + Payload(a[1..])) + Payload(b);
    }
  }

  lemma NoTotals()
    ensures Bytes([]) == 0 == Pbufs([]) && Payload([]) == []
  {
  }

  lemma TotalsHead(q: seq<Segment>)
    requires q != []
    ensures Bytes(q) == |q[0].data| + Bytes(q[1..]) && Pbufs(q) == q[0].pbufs + Pbufs(q[1..])
    ensures Payload(q) == q[0].data + Payload(q[1..])
  {
  }

  lemma TotalsOne(s: Segment)
    ensures Bytes([s]) == |s.data| && Pbufs([s]) == s.pbufs && Payload([s]) == s.data
  {
    assert [s][1..] == [];
  }

  // ------------------------------------------------------------------ tiling

  predicate Within(p: int, lo: int, hi: int) { lo <= p < hi }

  ghost function Interval(lo: int, hi: int): iset<int> { iset p | Within(p, lo, hi) }

  /** The two queues partition [lo, hi): both sorted, no gap, no overlap. */
  ghost predicate Tiled(text: seq<byte>, a: seq<Segment>, b: seq<Segment>, lo: int, hi: int) {
    && Queue(text, a, lo, hi) && Queue(text, b, lo, hi)
    && Held(a) !! Held(b)
    && Held(a) + Held(b) == Interval(lo, hi)
    && lo <= hi
  }

  lemma TiledSym(text: seq<byte>, a: seq<Segment>, b: seq<Segment>, lo: int, hi: int)
    ensures Tiled(text, a, b, lo, hi) <==> Tiled(text, b, a, lo, hi)
  {
    assert Held(a) + Held(b) == Held(b) + Held(a);
  }

  lemma HeldOfTail(text: seq<byte>, q: seq<Segment>, lo: int, hi: int)
    requires Queue(text, q, lo, hi) && q != []
    ensures Queue(text, q[1..], lo, hi)
    ensures Held(q) == Span(q[0]) + Held(q[1..]) && Span(q[0]) !! Held(q[1..])
  {
    QueueTail(text, q, lo, hi);
    HeldCons(q[0], q[1..]);
    assert q == [q[0]] + q[1..];
    forall p: int | p in Held(q[1..])
      ensures p !in Span(q[0])
    {
      HoldsTail(q, p);
    }
  }

  lemma HeldNone()
    ensures Held([]) == iset{}
  {
  }

  lemma FirstIsLowest(q: seq<Segment>, i: nat)
    requires Ordered(q) && i < |q|
    ensures i == 0 || q[0].off < q[i].off
  {
  }

  lemma LastIsHighest(q: seq<Segment>, i: nat)
    requires Ordered(q) && i < |q|
    ensures q[i].Last() <= q[|q| - 1].Last()
  {
    if i < |q| - 1 {
      assert q[i].End() <= q[|q| - 1].off && !q[i].fin;
    }
  }

  /** The segment with the lowest position is first in one of the queues and begins the interval. */
  lemma Lowest(text: seq<byte>, a: seq<Segment>, b: seq<Segment>, lo: int, hi: int)
    requires Tiled(text, a, b, lo, hi) && lo < hi
    ensures (a != [] && a[0].off == lo) || (b != [] && b[0].off == lo)
  {
    assert lo in Held(a) + Held(b);
    if lo in Held(a) {
      var i :| 0 <= i < |a| && a[i].Covers(lo);
      FirstIsLowest(a, i);
    } else {
      var i :| 0 <= i < |b| && b[i].Covers(lo);
      FirstIsLowest(b, i);
    }
  }

  lemma NonEmptySpans(text: seq<byte>, q: seq<Segment>, lo: int, hi: int)
    requires Queue(text, q, lo, hi)
    ensures q != [] ==> lo < hi
  {
    if q != [] {
      assert q[0].TcpLen() > 0;
    }
  }

  /** Taking the lowest segment away leaves a tiling of the rest. */
  lemma TiledRest(text: seq<byte>, a: seq<Segment>, b: seq<Segment>, lo: int, hi: int)
    requires Tiled(text, a, b, lo, hi) && a != [] && a[0].off == lo
    ensures Tiled(text, a[1..], b, a[0].Last(), hi)
  {
    HeldOfTail(text, a, lo, hi);
    var m := a[0].Last();
    assert Span(a[0]) == Interval(lo, m);
    assert Held(a[1..]) + Held(b) == Interval(m, hi) by {
      forall p: int
        ensures p in Held(a[1..]) + Held(b) <==> p in Interval(m, hi)
      {
        assert p in Held(a) + Held(b) <==> p in Interval(lo, hi);
      }
    }
    assert Cut(text, a[0]);
    StartsAbove(text, a[1..], lo, hi, m);
    StartsAbove(text, b, lo, hi, m);
  }

  lemma StartsAbove(text: seq<byte>, q: seq<Segment>, lo: int, hi: int, m: int)
    requires Queue(text, q, lo, hi)
    requires forall p :: p in Held(q) ==> m <= p
    ensures Queue(text, q, m, hi)
  {
    forall i | 0 <= i < |q|
      ensures m <= q[i].off
    {
      assert q[i].Covers(q[i].off);
      assert q[i].off in Held(q);
    }
  }

  /** The number of queued bytes is the length of the interval, less one for a FIN. */
  lemma {:induction false} TiledLength(text: seq<byte>, a: seq<Segment>, b: seq<Segment>, lo: int, hi: int)
    requires Tiled(text, a, b, lo, hi)
    ensures 0 <= lo || lo == hi
    ensures Bytes(a) + Bytes(b) == (if hi > |text| && lo <= |text| then |text| else hi) - lo
    decreases |a| + |b|
  {
    if lo == hi {
      NonEmptySpans(text, a, lo, hi);
      NonEmptySpans(text, b, lo, hi);
    } else {
      Lowest(text, a, b, lo, hi);
      if a != [] && a[0].off == lo {
        assert Cut(text, a[0]);
        TiledRest(text, a, b, lo, hi);
        TiledLength(text, a[1..], b, a[0].Last(), hi);
      } else {
        assert Cut(text, b[0]);
        TiledSym(text, a, b, lo, hi);
        TiledRest(text, b, a, lo, hi);
        TiledSym(text, b[1..], a, b[0].Last(), hi);
        TiledLength(text, a, b[1..], b[0].Last(), hi);
      }
    }
  }

  // -------------------------------------------------------------- moving segments

  /** `i` is where `s` belongs in `q` by sequence number. */
  ghost predicate Slot(q: seq<Segment>, s: Segment, i: nat) {
    && i <= |q|
    && (forall k :: 0 <= k < i ==> q[k].off < s.off)
    && (forall k :: i <= k < |q| ==> s.off <= q[k].off)
  }

  function InsertedAt(q: seq<Segment>, s: Segment, i: nat): seq<Segment>
    requires i <= |q|
  {
    q[..i] + [s] + q[i..]
  }

  /** A segment that overlaps nothing keeps the queue in order when it goes into its slot. */
  lemma InsertedQueue(text: seq<byte>, q: seq<Segment>, s: Segment, i: nat, lo: int, hi: int)
    requires Queue(text, q, lo, hi) && Queue(text, [s], lo, hi) && Slot(q, s, i)
    requires Span(s) !! Held(q)
    ensures Queue(text, InsertedAt(q, s, i), lo, hi)
  {
    assert [s][0] == s;
    forall k | 0 <= k < |q|
      ensures if k < i then q[k].off < s.off && q[k].End() <= s.off && !q[k].fin else s.off < q[k].off && s.End() <= q[k].off && !s.fin
    {
      Disjoint(text, q[k], s, lo, hi);
      assert forall p :: q[k].Covers(p) ==> p in Held(q);
    }
    QueueSplit(text, q, i, lo, hi);
    QueueConcat(text, q[..i], [s], lo, s.off, hi);
    forall k | 0 <= k < |q[i..]|
      ensures s.off < q[i..][k].off
    {
      assert q[i..][k] == q[i + k];
    }
    if i < |q| {
      QueueConcat(text, q[..i] + [s], q[i..], lo, q[i].off, hi);
    } else {
      assert q[i..] == [] && q[..i] + [s] + [] == q[..i] + [s];
    }
  }

  /** Two non-empty segments of one stream without a common position lie one behind the other. */
  lemma Disjoint(text: seq<byte>, s: Segment, t: Segment, lo: int, hi: int)
    requires Cut(text, s) && Cut(text, t) && s.TcpLen() > 0 && t.TcpLen() > 0
    ensures (forall p :: !(s.Covers(p) && t.Covers(p))) ==>
              (s.off < t.off && s.End() <= t.off && !s.fin) || (t.off < s.off && t.End() <= s.off && !t.fin)
  {
    if forall p :: !(s.Covers(p) && t.Covers(p)) {
      assert !(s.Covers(s.off) && t.Covers(s.off));
      assert !(s.Covers(t.off) && t.Covers(t.off));
    }
  }

  lemma HeldOne(s: Segment)
    ensures Held([s]) == Span(s)
  {
    forall p: int
      ensures p in Held([s]) <==> p in Span(s)
    {
      HoldsOne(s, p);
    }
  }

  lemma InsertedHeld(q: seq<Segment>, s: Segment, i: nat)
    requires i <= |q|
    ensures Held(InsertedAt(q, s, i)) == Held(q) + Span(s)
    ensures Bytes(InsertedAt(q, s, i)) == Bytes(q) + |s.data|
    ensures Pbufs(InsertedAt(q, s, i)) == Pbufs(q) + s.pbufs
  {
    hide Held, Span, Bytes, Pbufs, Payload;
    var a, b := q[..i], q[i..];
    assert q == a + b;
    HeldConcat(a, [s]);
    HeldConcat(a + [s], b);
    HeldConcat(a, b);
    HeldOne(s);
    TotalsConcat(a, [s]);
    TotalsConcat(a + [s], b);
    TotalsConcat(a, b);
    TotalsOne(s);
  }

  /** A queue without its segment j. */
  ghost function Without(q: seq<Segment>, j: nat): seq<Segment>
    requires j < |q|
  {
    q[..j] + q[j + 1..]
  }

  lemma WithoutIs(q: seq<Segment>, j: nat)
    requires j < |q|
    ensures |Without(q, j)| == |q| - 1 && InsertedAt(Without(q, j), q[j], j) == q
    ensures j == 0 ==> Without(q, j) == q[1..]
  {
    var r := Without(q, j);
    assert r[..j] == q[..j] && r[j..] == q[j + 1..];
    assert q == q[..j] + [q[j]] + q[j + 1..];
  }

  /** Where segment k of the rest was. */
  function Skipping(j: nat, k: nat): nat { if k < j then k else k + 1 }

  lemma WithoutAt(q: seq<Segment>, j: nat, k: nat)
    requires j < |q| && k < |Without(q, j)|
    ensures Skipping(j, k) < |q| && Skipping(j, k) != j && Without(q, j)[k] == q[Skipping(j, k)]
  {
  }

  lemma CoveredOnce(q: seq<Segment>, i: nat, j: nat, p: int)
    requires Ordered(q) && i < |q| && j < |q| && q[i].Covers(p) && q[j].Covers(p)
    ensures i == j
  {
  }

  lemma WithoutSorted(text: seq<byte>, q: seq<Segment>, j: nat, lo: int, hi: int)
    requires Queue(text, q, lo, hi) && j < |q|
    ensures Queue(text, Without(q, j), lo, hi)
  {
    assert lo <= q[j].off;
    hide Queue, Ordered;
    QueueSplit(text, q, j, lo, hi);
    QueueTail(text, q[j..], q[j].off, hi);
    AllBefore(text, q, j, lo, hi);
    QueueConcat(text, q[..j], q[j..][1..], lo, q[j].off, hi);
    assert q[j..][1..] == q[j + 1..];
  }

  lemma AllBefore(text: seq<byte>, q: seq<Segment>, j: nat, lo: int, hi: int)
    requires Queue(text, q, lo, hi) && j < |q|
    ensures forall i :: 0 <= i < |q[..j]| ==> q[..j][i].off < q[j].off && q[..j][i].End() <= q[j].off && !q[..j][i].fin
  {
  }

  lemma WithoutApart(q: seq<Segment>, j: nat, p: int)
    requires Ordered(q) && j < |q| && p in Span(q[j])
    ensures p !in Held(Without(q, j))
  {
    hide Without, Ordered;
    var r := Without(q, j);
    forall k | 0 <= k < |r|
      ensures !r[k].Covers(p)
    {
      WithoutAt(q, j, k);
      if q[Skipping(j, k)].Covers(p) {
        CoveredOnce(q, Skipping(j, k), j, p);
      }
    }
  }

  lemma WithoutQueue(text: seq<byte>, q: seq<Segment>, j: nat, lo: int, hi: int)
    requires Queue(text, q, lo, hi) && j < |q|
    ensures Queue(text, Without(q, j), lo, hi)
    ensures Held(q) == Held(Without(q, j)) + Span(q[j]) && Span(q[j]) !! Held(Without(q, j))
    ensures Bytes(q) == Bytes(Without(q, j)) + |q[j].data| && Pbufs(q) == Pbufs(Without(q, j)) + q[j].pbufs
  {
    hide Bytes, Pbufs, Without, InsertedAt, Held, Span, Ordered;
    WithoutSorted(text, q, j, lo, hi);
    WithoutIs(q, j);
    InsertedHeld(Without(q, j), q[j], j);
    forall p | p in Span(q[j])
      ensures p !in Held(Without(q, j))
    {
      WithoutApart(q, j, p);
    }
  }

  /** Moving a segment of one queue to its slot in the other keeps the tiling and the totals. */
  lemma TiledMove(text: seq<byte>, a: seq<Segment>, j: nat, b: seq<Segment>, i: nat, lo: int, hi: int)
    requires Tiled(text, a, b, lo, hi) && j < |a| && Slot(b, a[j], i)
    ensures Tiled(text, Without(a, j), InsertedAt(b, a[j], i), lo, hi)
    ensures Bytes(Without(a, j)) + Bytes(InsertedAt(b, a[j], i)) == Bytes(a) + Bytes(b)
    ensures Pbufs(Without(a, j)) + Pbufs(InsertedAt(b, a[j], i)) == Pbufs(a) + Pbufs(b)
  {
    hide Without, InsertedAt, Bytes, Pbufs;
    WithoutQueue(text, a, j, lo, hi);
    assert Queue(text, [a[j]], lo, hi);
    SpanWithin(a, j);
    InsertedQueue(text, b, a[j], i, lo, hi);
    InsertedHeld(b, a[j], i);
    assert Held(Without(a, j)) + (Held(b) + Span(a[j])) == Held(a) + Held(b);
  }

  lemma SpanWithin(q: seq<Segment>, j: nat)
    requires j < |q|
    ensures Span(q[j]) <= Held(q)
  {
  }

  /** The loop that walks to the slot of a segment. */
  method FindSlot(iss: u32, q: seq<Segment>, s: Segment) returns (i: nat)
    requires forall k :: 0 <= k < |q| ==> Near(q[k].off, s.off)
    requires Ordered(q)
    ensures Slot(q, s, i)
  {
    i := 0;
    while i < |q| && Lt(Wire(iss + q[i].off), Wire(iss + s.off))
      invariant i <= |q|
      invariant forall k :: 0 <= k < i ==> q[k].off < s.off
    {
      WireCompare(iss + q[i].off, iss + s.off);
      i := i + 1;
    }
    if i < |q| {
      WireCompare(iss + q[i].off, iss + s.off);
    }
  }

  // ------------------------------------------------------------ retransmission

  /** All of `a` comes before all of `b`. */
  predicate Precedes(a: seq<Segment>, b: seq<Segment>) {
    forall i, j :: 0 <= i < |a| && 0 <= j < |b| ==> a[i].off < b[j].off
  }

  lemma HeldConcat(a: seq<Segment>, b: seq<Segment>)
    ensures Held(a + b) == Held(a) + Held(b)
  {
    forall p: int
      ensures p in Held(a + b) <==> p in Held(a) + Held(b)
    {
      HoldsAppend(a, b, p);
    }
  }

  lemma PrecedesQueue(text: seq<byte>, a: seq<Segment>, b: seq<Segment>, lo: int, hi: int)
    requires Tiled(text, a, b, lo, hi) && Precedes(a, b)
    ensures Queue(text, a + b, lo, hi)
  {
    if b == [] {
      assert a + b == a;
    } else {
      forall i | 0 <= i < |a|
        ensures a[i].off < b[0].off && a[i].End() <= b[0].off && !a[i].fin
      {
        Disjoint(text, a[i], b[0], lo, hi);
        assert forall p :: a[i].Covers(p) ==> p in Held(a);
        assert forall p :: b[0].Covers(p) ==> p in Held(b);
      }
      QueueSplit(text, b, 0, lo, hi);
      assert b[0..] == b;
      QueueConcat(text, a, b, lo, b[0].off, hi);
    }
  }

  /** Concatenating the queues, as tcp_rexmit_rto does, yields a sorted queue exactly when one precedes the other. */
  lemma TiledConcat(text: seq<byte>, a: seq<Segment>, b: seq<Segment>, lo: int, hi: int)
    requires Tiled(text, a, b, lo, hi)
    ensures Tiled(text, [], a + b, lo, hi) <==> Precedes(a, b)
    ensures Bytes(a + b) == Bytes(a) + Bytes(b) && Pbufs(a + b) == Pbufs(a) + Pbufs(b)
  {
    TotalsConcat(a, b);
    HeldNone();
    HeldConcat(a, b);
    if Precedes(a, b) {
      PrecedesQueue(text, a, b, lo, hi);
      assert Held([]) + Held(a + b) == Held(a + b);
    } else {
      var i, j :| 0 <= i < |a| && 0 <= j < |b| && !(a[i].off < b[j].off);
      assert (a + b)[i] == a[i] && (a + b)[|a| + j] == b[j];
    }
  }

  // ---------------------------------------------------------- acknowledgements

  /** `r` is `q` without the segments that `ack` covers completely. */
  ghost predicate Remaining(q: seq<Segment>, ack: int, r: seq<Segment>) {
    && |r| <= |q| && r == q[|q| - |r|..]
    && (forall i :: 0 <= i < |q| - |r| ==> q[i].Last() <= ack)
    && (forall i :: |q| - |r| <= i < |q| ==> ack < q[i].Last())
  }

  lemma RemainingHead(q: seq<Segment>, ack: int, r: seq<Segment>)
    requires Remaining(q, ack, r)
    ensures r == q || (q != [] && q[0].Last() <= ack)
  {
    if |r| == |q| {
      assert r == q;
    }
  }

  /** Freeing the acknowledged segments of both queues leaves a tiling from the first segment that is not. */
  lemma {:induction false} TiledAck(text: seq<byte>, a: seq<Segment>, b: seq<Segment>, lo: int, hi: int,
                                    ack: int, a': seq<Segment>, b': seq<Segment>) returns (lo': int)
    requires Tiled(text, a, b, lo, hi) && lo <= ack <= hi
    requires Remaining(a, ack, a') && Remaining(b, ack, b')
    ensures Tiled(text, a', b', lo', hi) && lo <= lo' <= ack
    decreases |a| + |b|
  {
    if lo == hi {
      NonEmptySpans(text, a, lo, hi);
      NonEmptySpans(text, b, lo, hi);
      lo' := lo;
    } else {
      Lowest(text, a, b, lo, hi);
      if a != [] && a[0].off == lo {
        lo' := TiledAckFirst(text, a, b, lo, hi, ack, a', b');
      } else {
        TiledSym(text, a, b, lo, hi);
        lo' := TiledAckFirst(text, b, a, lo, hi, ack, b', a');
        TiledSym(text, a', b', lo', hi);
      }
    }
  }

  lemma {:induction false} TiledAckFirst(text: seq<byte>, a: seq<Segment>, b: seq<Segment>, lo: int, hi: int,
                                         ack: int, a': seq<Segment>, b': seq<Segment>) returns (lo': int)
    requires Tiled(text, a, b, lo, hi) && lo <= ack <= hi
    requires a != [] && a[0].off == lo
    requires Remaining(a, ack, a') && Remaining(b, ack, b')
    ensures Tiled(text, a', b', lo', hi) && lo <= lo' <= ack
    decreases |a| + |b|, 0
  {
    TiledRest(text, a, b, lo, hi);
    if a[0].Last() <= ack {
      assert |a'| < |a|;
      assert a' == a[1..][|a[1..]| - |a'|..];
      lo' := TiledAck(text, a[1..], b, a[0].Last(), hi, ack, a', b');
    } else {
      lo' := lo;
      RemainingHead(a, ack, a');
      RemainingHead(b, ack, b');
    }
  }

  /** Once the head is not covered, nothing is. */
  lemma HeadNotCovered(q: seq<Segment>, ack: int, k: nat)
    requires Ordered(q) && k <= |q| && (k < |q| ==> ack < q[k].Last())
    requires forall i :: 0 <= i < k ==> q[i].Last() <= ack
    ensures Remaining(q, ack, q[k..])
  {
    forall i | k < i < |q|
      ensures ack < q[i].Last()
    {
      assert q[k].End() <= q[i].off;
    }
  }

  /** Whether the first segment is covered: ackno is at or beyond its end, and not beyond snd_nxt. */
  method IsCovered(iss: u32, s: Segment, ack: int, nxt: int) returns (covered: bool)
    requires Near(ack, s.Last()) && Near(ack, nxt)
    ensures covered <==> s.Last() <= ack <= nxt
  {
    WireBetween(iss + ack, iss + s.Last(), iss + nxt);
    covered := Between(Wire(iss + ack), Wire(iss + s.Last()), Wire(iss + nxt));
  }

  /** The loops over unacked and unsent in tcp_receive: free from the head what `ack` covers. */
  method FreeAcked(iss: u32, q: seq<Segment>, ack: int, nxt: int) returns (r: seq<Segment>, bytes: nat, pbufs: nat)
    requires Ordered(q) && (forall k :: 0 <= k < |q| ==> Near(ack, q[k].Last())) && Near(ack, nxt)
    ensures if ack <= nxt then Remaining(q, ack, r) else r == q
    ensures Bytes(q) == bytes + Bytes(r) && Pbufs(q) == pbufs + Pbufs(r)
  {
    var k := 0;
    bytes, pbufs := 0, 0;
    assert q[0..] == q;
    while k < |q|
      invariant k <= |q| && (k > 0 ==> ack <= nxt)
      invariant forall i :: 0 <= i < k ==> q[i].Last() <= ack
      invariant Bytes(q) == bytes + Bytes(q[k..]) && Pbufs(q) == pbufs + Pbufs(q[k..])
    {
      var covered := IsCovered(iss, q[k], ack, nxt);
      if !covered {
        break;
      }
      assert q[k..][1..] == q[k + 1..];
      bytes, pbufs := bytes + |q[k].data|, pbufs + q[k].pbufs;
      k := k + 1;
    }
    if ack <= nxt {
      HeadNotCovered(q, ack, k);
    }
    r := q[k..];
  }

  /** An acknowledgement at or below one that covers no segment frees nothing. */
  lemma OldAckFreesNothing(q: seq<Segment>, floor: int, ack: int, r: seq<Segment>)
    requires Unacknowledged(q, floor) && ack <= floor && Remaining(q, ack, r)
    ensures r == q
  {
    RemainingHead(q, ack, r);
  }

  lemma NothingFreed(q: seq<Segment>, ack: int)
    requires Unacknowledged(q, ack)
    ensures Remaining(q, ack, q)
  {
    assert q[0..] == q;
  }

  // -------------------------------------------------------------------- growth

  lemma TextGrows(text: seq<byte>, text': seq<byte>, q: seq<Segment>, lo: int, hi: int)
    requires Queue(text, q, lo, |text|) && text <= text' && |text| <= hi
    ensures Queue(text', q, lo, hi)
    ensures forall i :: 0 <= i < |q| ==> !q[i].fin
  {
    forall i | 0 <= i < |q|
      ensures Cut(text', q[i]) && !q[i].fin
    {
      assert Cut(text, q[i]);
    }
  }

  /** A segment behind everything queued: new data, or a FIN. */
  lemma TiledAppend(text: seq<byte>, text': seq<byte>, a: seq<Segment>, b: seq<Segment>, lo: int, s: Segment)
    requires Tiled(text, a, b, lo, |text|) && text <= text' && |text'| <= s.Last()
    requires s.off == |text| && Cut(text', s) && s.TcpLen() > 0
    ensures Tiled(text', a, b + [s], lo, s.Last())
  {
    TextGrows(text, text', a, lo, s.Last());
    TextGrows(text, text', b, lo, s.Last());
    QueueConcat(text', b, [s], lo, |text|, s.Last());
    HeldConcat(b, [s]);
    HeldConcat([s], []);
    assert [s] == [s] + [];
    HeldCons(s, []);
    assert Span(s) == Interval(|text|, s.Last());
    assert Held(a) + Held(b + [s]) == Interval(lo, s.Last()) by {
      assert Held(a) + (Held(b) + Span(s)) == Interval(lo, |text|) + Span(s);
    }
  }

  function ReplaceLast(q: seq<Segment>, s: Segment): seq<Segment>
    requires q != []
  {
    q[..|q| - 1] + [s]
  }

  /** The topmost segment is replaced by a longer one: with more data, or with a FIN. */
  lemma TiledReplace(text: seq<byte>, text': seq<byte>, a: seq<Segment>, b: seq<Segment>, lo: int, s: Segment)
    requires Tiled(text, a, b, lo, |text|) && text <= text' && |text'| <= s.Last()
    requires b != [] && b[|b| - 1].End() == |text|
    requires s.off == b[|b| - 1].off && Cut(text', s)
    ensures Tiled(text', a, ReplaceLast(b, s), lo, s.Last())
  {
    hide Interval;
    var n := |b| - 1;
    ReplacedQueue(text, text', a, b, lo, s);
    LastHeld(b);
    LastHeld(ReplaceLast(b, s));
    assert ReplaceLast(b, s)[..n] == b[..n];
    LongerSpan(b[n], s);
    hide Held, Span, Queue;
    LongerUnion(Held(a), Held(b[..n]), Span(b[n]), Span(s), lo, |text|, s.Last());
  }

  lemma ReplacedQueue(text: seq<byte>, text': seq<byte>, a: seq<Segment>, b: seq<Segment>, lo: int, s: Segment)
    requires Queue(text, a, lo, |text|) && Queue(text, b, lo, |text|) && text <= text' && |text'| <= s.Last()
    requires b != [] && b[|b| - 1].End() == |text|
    requires s.off == b[|b| - 1].off && Cut(text', s)
    ensures Queue(text', a, lo, s.Last()) && Queue(text', ReplaceLast(b, s), lo, s.Last())
    ensures b[|b| - 1].Last() == |text|
  {
    var n := |b| - 1;
    TextGrows(text, text', a, lo, s.Last());
    TextGrows(text, text', b, lo, s.Last());
    QueueSplit(text', b, n, lo, s.Last());
    QueueConcat(text', b[..n], [s], lo, s.off, s.Last());
  }

  lemma LastHeld(b: seq<Segment>)
    requires b != []
    ensures Held(b) == Held(b[..|b| - 1]) + Span(b[|b| - 1])
  {
    hide Held, Span;
    var n := |b| - 1;
    assert b == b[..n] + [b[n]] && [b[n]] == [b[n]] + [];
    HeldConcat(b[..n], [b[n]]);
    HeldCons(b[n], []);
    assert Held([]) == iset{} by { HeldNone(); }
  }

  lemma LongerSpan(x: Segment, s: Segment)
    requires x.off == s.off && x.Last() <= s.Last()
    ensures Span(s) == Span(x) + Interval(x.Last(), s.Last())
  {
  }

  /** The last span grows to the new end: still everything, still nothing twice. */
  lemma LongerUnion(a: iset<int>, b: iset<int>, x: iset<int>, y: iset<int>, lo: int, mid: int, hi: int)
    requires a + (b + x) == Interval(lo, mid) && a !! (b + x) && y == x + Interval(mid, hi) && lo <= mid <= hi
    ensures a + (b + y) == Interval(lo, hi) && a !! (b + y)
  {
    assert forall p :: p in a ==> p in a + (b + x);
  }

  lemma OverlapIfNotTop(text: seq<byte>, text': seq<byte>, a: seq<Segment>, b: seq<Segment>, lo: int, hi: int,
                        b': seq<Segment>, lo': int, hi': int, i: nat)
    requires Tiled(text, a, b, lo, |text|) && b != [] && b[|b| - 1].End() < |text|
    requires i < |b'| && b'[i].Covers(b[|b| - 1].End())
    ensures !Tiled(text', a, b', lo', hi')
  {
    var p := b[|b| - 1].End();
    assert Cut(text, b[|b| - 1]);
    assert p in Interval(lo, |text|);
    forall k | 0 <= k < |b|
      ensures !b[k].Covers(p)
    {
      LastIsHighest(b, k);
    }
    assert p in Held(a);
    assert p in Held(b');
  }

  lemma ReplaceTotals(q: seq<Segment>, s: Segment)
    requires q != []
    ensures Bytes(ReplaceLast(q, s)) == Bytes(q) - |q[|q| - 1].data| + |s.data|
    ensures Pbufs(ReplaceLast(q, s)) == Pbufs(q) - q[|q| - 1].pbufs + s.pbufs
    ensures Payload(q) == Payload(q[..|q| - 1]) + q[|q| - 1].data
    ensures Payload(ReplaceLast(q, s)) == Payload(q[..|q| - 1]) + s.data
  {
    var n := |q| - 1;
    assert q == q[..n] + [q[n]];
    TotalsConcat(q[..n], [q[n]]);
    TotalsConcat(q[..n], [s]);
    TotalsOne(q[n]);
    TotalsOne(s);
  }

  // -------------------------------------------------------------------- layout

  /** No segment is covered by `ack` completely. */
  ghost predicate Unacknowledged(q: seq<Segment>, ack: int) {
    forall i :: 0 <= i < |q| ==> ack < q[i].Last()
  }

  ghost predicate EndsBy(q: seq<Segment>, x: int) {
    forall i :: 0 <= i < |q| ==> q[i].Last() <= x
  }

  /**
   * The queue invariant of a sender. The queues tile [lo, hi); lastack lies in the first segment
   * or at the end; unacked segments have been sent, that is, lie below snd_nxt.
   */
  ghost predicate Layout(text: seq<byte>, unacked: seq<Segment>, unsent: seq<Segment>, lo: int, ack: int, nxt: int, hi: int) {
    && Tiled(text, unacked, unsent, lo, hi)
    && 0 <= lo <= ack <= nxt <= hi && |text| <= hi <= |text| + 1
    && Unacknowledged(unacked, ack) && Unacknowledged(unsent, ack)
    && EndsBy(unacked, nxt)
  }

  /** All positions in play lie within the send buffer size of each other. */
  lemma LayoutBound(text: seq<byte>, a: seq<Segment>, b: seq<Segment>, lo: int, ack: int, nxt: int, hi: int, size: int)
    requires Layout(text, a, b, lo, ack, nxt, hi) && Bytes(a) + Bytes(b) <= size
    ensures hi - lo <= size + 1 && 0 <= lo <= ack <= nxt <= hi
    ensures forall i :: 0 <= i < |a| ==> lo <= a[i].off && a[i].Last() <= hi
    ensures forall i :: 0 <= i < |b| ==> lo <= b[i].off && b[i].Last() <= hi
  {
    TiledLength(text, a, b, lo, hi);
  }

  lemma InsertedBounds(q: seq<Segment>, s: Segment, i: nat, x: int)
    requires i <= |q|
    ensures Unacknowledged(q, x) && x < s.Last() ==> Unacknowledged(InsertedAt(q, s, i), x)
    ensures EndsBy(q, x) && s.Last() <= x ==> EndsBy(InsertedAt(q, s, i), x)
  {
    var r := InsertedAt(q, s, i);
    assert forall k :: 0 <= k < |r| ==> r[k] == if k < i then q[k] else if k == i then s else q[k - 1];
  }

  lemma WithoutBounds(q: seq<Segment>, j: nat, x: int)
    requires j < |q|
    ensures Unacknowledged(q, x) ==> Unacknowledged(Without(q, j), x)
    ensures EndsBy(q, x) ==> EndsBy(Without(q, j), x)
  {
    hide Without;
    forall k | 0 <= k < |Without(q, j)|
      ensures Skipping(j, k) < |q| && Without(q, j)[k] == q[Skipping(j, k)]
    {
      WithoutAt(q, j, k);
    }
  }

  /** Sending an unsent segment. */
  lemma LayoutTransmit(text: seq<byte>, a: seq<Segment>, b: seq<Segment>, j: nat, lo: int, ack: int, nxt: int, hi: int, i: nat)
    requires Layout(text, a, b, lo, ack, nxt, hi) && j < |b| && Slot(a, b[j], i)
    ensures Layout(text, InsertedAt(a, b[j], i), Without(b, j), lo, ack, Max(nxt, b[j].Last()), hi)
    ensures Bytes(InsertedAt(a, b[j], i)) + Bytes(Without(b, j)) == Bytes(a) + Bytes(b)
    ensures Pbufs(InsertedAt(a, b[j], i)) + Pbufs(Without(b, j)) == Pbufs(a) + Pbufs(b)
  {
    hide Without, InsertedAt, Tiled, Bytes, Pbufs;
    TiledSym(text, a, b, lo, hi);
    assert b[j].Last() <= hi by { TiledBounds(text, b, a, lo, hi); }
    TiledMove(text, b, j, a, i, lo, hi);
    TiledSym(text, Without(b, j), InsertedAt(a, b[j], i), lo, hi);
    EndsLater(a, nxt, Max(nxt, b[j].Last()));
    InsertedBounds(a, b[j], i, ack);
    InsertedBounds(a, b[j], i, Max(nxt, b[j].Last()));
    WithoutBounds(b, j, ack);
  }

  lemma TiledBounds(text: seq<byte>, a: seq<Segment>, b: seq<Segment>, lo: int, hi: int)
    requires Tiled(text, a, b, lo, hi)
    ensures forall i :: 0 <= i < |a| ==> lo <= a[i].off && a[i].Last() <= hi
  {
  }

  lemma EndsLater(q: seq<Segment>, x: int, y: int)
    requires EndsBy(q, x) && x <= y
    ensures EndsBy(q, y)
  {
  }

  /** Taking the first unacked segment back for fast retransmission. */
  lemma LayoutRetransmit(text: seq<byte>, a: seq<Segment>, b: seq<Segment>, lo: int, ack: int, nxt: int, hi: int, i: nat)
    requires Layout(text, a, b, lo, ack, nxt, hi) && a != [] && Slot(b, a[0], i)
    ensures Layout(text, a[1..], InsertedAt(b, a[0], i), lo, ack, nxt, hi)
    ensures Bytes(a[1..]) + Bytes(InsertedAt(b, a[0], i)) == Bytes(a) + Bytes(b)
    ensures Pbufs(a[1..]) + Pbufs(InsertedAt(b, a[0], i)) == Pbufs(a) + Pbufs(b)
  {
    hide Without, InsertedAt, Tiled, Bytes, Pbufs;
    WithoutIs(a, 0);
    TiledMove(text, a, 0, b, i, lo, hi);
    InsertedBounds(b, a[0], i, ack);
    WithoutBounds(a, 0, ack);
    WithoutBounds(a, 0, nxt);
  }

  /** An acknowledgement frees exactly the segments it covers. */
  lemma LayoutAck(text: seq<byte>, a: seq<Segment>, b: seq<Segment>, lo: int, ack: int, nxt: int, hi: int,
                  ack': int, a': seq<Segment>, b': seq<Segment>) returns (lo': int)
    requires Layout(text, a, b, lo, ack, nxt, hi) && ack <= ack' <= nxt
    requires Remaining(a, ack', a') && Remaining(b, ack', b')
    ensures Layout(text, a', b', lo', ack', nxt, hi)
  {
    lo' := TiledAck(text, a, b, lo, hi, ack', a', b');
  }

  /** With everything acknowledged, nothing is queued. */
  lemma AllAcknowledged(text: seq<byte>, a: seq<Segment>, b: seq<Segment>, lo: int, ack: int, nxt: int, hi: int)
    requires Layout(text, a, b, lo, ack, nxt, hi)
    ensures ack == hi ==> a == [] && b == []
  {
    if a != [] {
      assert ack < a[0].Last() <= hi;
    }
    if b != [] {
      assert ack < b[0].Last() <= hi;
    }
  }

  /** With nothing unsent, snd_nxt is the end of everything queued, FIN included. */
  lemma NothingUnsent(text: seq<byte>, a: seq<Segment>, lo: int, ack: int, nxt: int, hi: int)
    requires Layout(text, a, [], lo, ack, nxt, hi)
    ensures nxt == hi
  {
    if lo < hi {
      HeldNone();
      assert hi - 1 in Held(a) + Held([]);
      var i :| 0 <= i < |a| && a[i].Covers(hi - 1);
    }
  }

  /** Requeueing everything unacknowledged. */
  lemma LayoutRequeue(text: seq<byte>, a: seq<Segment>, b: seq<Segment>, lo: int, ack: int, nxt: int, hi: int)
    requires Layout(text, a, b, lo, ack, nxt, hi)
    ensures Layout(text, [], a + b, lo, ack, nxt, hi) <==> Precedes(a, b)
    ensures Bytes([]) + Bytes(a + b) == Bytes(a) + Bytes(b) && Pbufs([]) + Pbufs(a + b) == Pbufs(a) + Pbufs(b)
  {
    hide Tiled, Bytes, Pbufs, Unacknowledged, Precedes;
    TiledConcat(text, a, b, lo, hi);
    NoTotals();
    ConcatBounds(a, b, ack, nxt);
  }

  lemma ConcatBounds(a: seq<Segment>, b: seq<Segment>, x: int, y: int)
    ensures Unacknowledged(a, x) && Unacknowledged(b, x) ==> Unacknowledged(a + b, x)
    ensures Unacknowledged([], x) && EndsBy([], y)
  {
    assert forall k :: 0 <= k < |a + b| ==> (a + b)[k] == if k < |a| then a[k] else b[k - |a|];
  }

  /** A FIN on the topmost unsent segment, or on no segment at all. */
  lemma LayoutFin(text: seq<byte>, a: seq<Segment>, b: seq<Segment>, lo: int, ack: int, nxt: int)
    requires Layout(text, a, b, lo, ack, nxt, |text|)
    ensures b == [] ==> Layout(text, a, [Segment(|text|, [], true)], lo, ack, nxt, |text| + 1)
    ensures b != [] ==> var last := b[|b| - 1];
                        Layout(text, a, ReplaceLast(b, last.(fin := true)), lo, ack, nxt, |text| + 1) <==> last.End() == |text|
  {
    if b == [] {
      TiledAppend(text, text, a, b, lo, Segment(|text|, [], true));
      assert [] + [Segment(|text|, [], true)] == [Segment(|text|, [], true)];
    } else {
      var last := b[|b| - 1];
      var r := ReplaceLast(b, last.(fin := true));
      assert r[|b| - 1] == last.(fin := true);
      if last.End() == |text| {
        TiledReplace(text, text, a, b, lo, last.(fin := true));
        assert forall k :: 0 <= k < |b| - 1 ==> r[k] == b[k];
      } else {
        assert !Cut(text, r[|b| - 1]);
      }
    }
  }

  /** New data was written behind `U`, the unsent queue with its last segment lengthened. */
  lemma LayoutWritten(text: seq<byte>, text': seq<byte>, a: seq<Segment>, b: seq<Segment>, b': seq<Segment>, lo: int, ack: int, nxt: int)
    requires Layout(text, a, b, lo, ack, nxt, |text|) && text <= text' && Tiled(text', a, b', lo, |text'|)
    requires forall i :: 0 <= i < |b'| ==> if i < |b| then b[i].Last() <= b'[i].Last() else |text| < b'[i].Last()
    ensures Layout(text', a, b', lo, ack, nxt, |text'|)
  {
  }

  // ------------------------------------------------------------ out of order

  lemma {:induction false} SlotExists(q: seq<Segment>, s: Segment) returns (i: nat)
    requires Ordered(q)
    ensures Slot(q, s, i)
  {
    if q == [] || q[0].off >= s.off {
      i := 0;
    } else {
      i := SlotExists(q[1..], s);
      i := i + 1;
    }
  }

  lemma MovedMultiset(a: seq<Segment>, b: seq<Segment>, i: nat)
    requires a != [] && i <= |b|
    ensures multiset(a[1..]) + multiset(InsertedAt(b, a[0], i)) == multiset(a) + multiset(b)
  {
    assert a == [a[0]] + a[1..] && b == b[..i] + b[i..];
  }

  /** There is an order in which all segments of both queues follow each other. */
  lemma {:induction false} Merged(text: seq<byte>, a: seq<Segment>, b: seq<Segment>, lo: int, ack: int, nxt: int, hi: int)
    returns (g: seq<Segment>)
    requires Layout(text, a, b, lo, ack, nxt, hi)
    ensures Layout(text, [], g, lo, ack, nxt, hi) && multiset(g) == multiset(a) + multiset(b) && Bytes(g) == Bytes(a) + Bytes(b)
    decreases |a|
  {
    hide Layout, InsertedAt, Bytes;
    if a == [] {
      NoTotals();
      g := b;
    } else {
      var i := SlotExists(b, a[0]) by { LayoutOrdered(text, a, b, lo, ack, nxt, hi); }
      LayoutRetransmit(text, a, b, lo, ack, nxt, hi, i);
      MovedMultiset(a, b, i);
      g := Merged(text, a[1..], InsertedAt(b, a[0], i), lo, ack, nxt, hi);
    }
  }

  lemma LayoutOrdered(text: seq<byte>, a: seq<Segment>, b: seq<Segment>, lo: int, ack: int, nxt: int, hi: int)
    requires Layout(text, a, b, lo, ack, nxt, hi)
    ensures Ordered(a) && Ordered(b)
  {
  }

  /** Where a segment stands in another order of the same queue. */
  lemma Standing(g: seq<Segment>, b: seq<Segment>) returns (j: nat)
    requires multiset(g) == multiset(b) && b != []
    ensures j < |g| && g[j] == b[0] && multiset(Without(g, j)) == multiset(b[1..])
    ensures g == b ==> Without(g, j) == b[1..]
  {
    hide Without;
    assert b[0] in multiset(g);
    j :| 0 <= j < |g| && g[j] == b[0];
    if g == b {
      j := 0;
    }
    TailMultiset(b);
    WithoutMultiset(g, j);
    WithoutIs(g, j);
  }

  lemma WithoutMultiset(q: seq<Segment>, j: nat)
    requires j < |q|
    ensures multiset(Without(q, j)) == multiset(q) - multiset{q[j]}
  {
    assert q == (q[..j] + [q[j]]) + q[j + 1..];
    assert multiset(q) == multiset(q[..j]) + multiset{q[j]} + multiset(q[j + 1..]);
  }

  /** Sending the first of the unsent segments, with the others in whatever order. */
  lemma LooseTransmit(text: seq<byte>, a: seq<Segment>, b: seq<Segment>, g: seq<Segment>, j: nat,
                      lo: int, ack: int, nxt: int, hi: int, i: nat)
    requires Layout(text, a, g, lo, ack, nxt, hi) && b != [] && j < |g| && g[j] == b[0] && Slot(a, b[0], i)
    requires Bytes(g) == Bytes(b)
    ensures Layout(text, InsertedAt(a, b[0], i), Without(g, j), lo, ack, Max(nxt, b[0].Last()), hi)
    ensures Bytes(InsertedAt(a, b[0], i)) + Bytes(b[1..]) == Bytes(a) + Bytes(b)
    ensures Pbufs(InsertedAt(a, b[0], i)) + Pbufs(b[1..]) == Pbufs(a) + Pbufs(b)
    ensures Bytes(Without(g, j)) == Bytes(b[1..])
    ensures multiset(InsertedAt(a, b[0], i)) == multiset(a) + multiset{b[0]}
  {
    hide Layout, Bytes, Pbufs, Slot, InsertedAt, Without, Held, Span;
    LayoutTransmit(text, a, g, j, lo, ack, nxt, hi, i);
    assert i <= |a| by { SlotInside(a, b[0], i); }
    InsertedHeld(a, b[0], i);
    InsertedMultiset(a, b[0], i);
    TotalsHead(b);
  }

  lemma SlotInside(q: seq<Segment>, s: Segment, i: nat)
    requires Slot(q, s, i)
    ensures i <= |q|
  {
  }

  lemma InsertedMultiset(q: seq<Segment>, s: Segment, i: nat)
    requires i <= |q|
    ensures multiset(InsertedAt(q, s, i)) == multiset(q) + multiset{s}
  {
    assert q == q[..i] + q[i..];
    assert multiset(InsertedAt(q, s, i)) == multiset(q[..i]) + multiset{s} + multiset(q[i..]);
  }

  lemma LowestFirst(q: seq<Segment>, x: Segment)
    requires Ordered(q) && x in q
    ensures q[0].off <= x.off && (q[0].off == x.off ==> q[0] == x)
  {
    var i :| 0 <= i < |q| && q[i] == x;
  }

  lemma SameHead(a: seq<Segment>, b: seq<Segment>)
    requires Ordered(a) && Ordered(b) && multiset(a) == multiset(b) && a != []
    ensures b != [] && a[0] == b[0]
  {
    hide Ordered;
    assert |b| == |multiset(b)| == |multiset(a)| == |a|;
    assert b[0] in multiset(a) && a[0] in multiset(b);
    LowestFirst(a, b[0]);
    LowestFirst(b, a[0]);
  }

  lemma TailMultiset(q: seq<Segment>)
    requires q != []
    ensures multiset(q[1..]) + multiset{q[0]} == multiset(q)
    ensures multiset(q[1..]) == multiset(q) - multiset{q[0]}
  {
    assert q == [q[0]] + q[1..];
  }

  lemma TailOrdered(q: seq<Segment>)
    requires Ordered(q) && q != []
    ensures Ordered(q[1..])
  {
    OrderedSplit(q, 1);
  }

  /** There is only one. */
  lemma {:induction false} OneOrder(a: seq<Segment>, b: seq<Segment>)
    requires Ordered(a) && Ordered(b) && multiset(a) == multiset(b)
    ensures a == b
  {
    hide Ordered;
    if a == [] {
      assert |b| == |multiset(b)| == 0;
    } else {
      SameHead(a, b);
      TailMultiset(a);
      TailMultiset(b);
      TailOrdered(a);
      TailOrdered(b);
      OneOrder(a[1..], b[1..]);
      assert a == [a[0]] + a[1..] && b == [b[0]] + b[1..];
    }
  }
}
