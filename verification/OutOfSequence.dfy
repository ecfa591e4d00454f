/**
 * tcp_oos_insert_segment and the out-of-sequence part of tcp_receive: how a
 * segment above rcv_nxt is placed in the ooseq queue.
 */
module OutOfSequence {
  import opened Common
  import opened SequenceNumbers
  import opened Segments

  /** Every live position lies within this distance above rcv_nxt: a window, plus a segment starting in it. */
  const SPAN: int := 0x2_0000

  /** One segment is swallowed by a longer one that begins no later. */
  lemma Swallow(stream: seq<byte>, c: Segment, q: seq<Segment>, hi: int)
    requires Cut(stream, c) && !c.fin && c.Last() <= hi
    requires Queue(stream, q, c.off, hi) && q != [] && q[0].End() <= c.End()
    ensures var c' := if q[0].fin then c.(fin := true) else c;
            && Cut(stream, c') && c'.Last() <= hi && (c'.fin ==> q[1..] == [])
            && Queue(stream, q[1..], c.off, hi)
            && Span(c') + Held(q[1..]) == Span(c) + Held(q)
  {
    QueueTail(stream, q, c.off, hi);
    var c' := if q[0].fin then c.(fin := true) else c;
    assert Span(c') == Span(c) + Span(q[0]);
    HeldCons(q[0], q[1..]);
    assert q == [q[0]] + q[1..];
  }

  /** Cutting a segment where the first queued one begins loses nothing. */
  lemma TrimEnd(stream: seq<byte>, c: Segment, q: seq<Segment>)
    requires Cut(stream, c) && !c.fin
    requires q != [] && c.off < q[0].off < c.End() < q[0].End()
    ensures var c' := c.(data := c.data[..q[0].off - c.off]);
            && Cut(stream, c') && c'.End() == q[0].off
            && Span(c') + Held(q) == Span(c) + Held(q)
  {
    forall p | q[0].off <= p < c.End()
      ensures Holds(q, p)
    {
      assert q[0].Covers(p);
    }
  }

  /** A FIN segment already covers everything that may follow it. */
  lemma NothingBeyondFin(stream: seq<byte>, c: Segment, q: seq<Segment>, hi: int)
    requires Cut(stream, c) && c.fin && Queue(stream, q, c.off, hi)
    ensures Span(c) + Held([]) == Span(c) + Held(q)
  {
    forall p | Holds(q, p)
      ensures c.Covers(p)
    {
      var i :| 0 <= i < |q| && q[i].Covers(p);
      assert Cut(stream, q[i]);
    }
  }

  /** The loop of tcp_oos_insert_segment: remove the segments that `cseg` covers, taking over their FIN. */
  method SwallowCovered(irs: u32, cseg: Segment, next: seq<Segment>, ghost stream: seq<byte>, ghost hi: int)
    returns (c: Segment, q: seq<Segment>)
    requires Cut(stream, cseg) && cseg.Last() <= hi <= cseg.off + 2 * SPAN && !cseg.fin
    requires Queue(stream, next, cseg.off, hi)
    requires next != [] && next[0].off == cseg.off ==> |next[0].data| < |cseg.data|
    ensures c.off == cseg.off && c.data == cseg.data && Cut(stream, c) && c.Last() <= hi
    ensures Queue(stream, q, cseg.off, hi)
    ensures q != [] ==> !c.fin && c.off < q[0].off && c.End() < q[0].End()
    ensures Span(c) + Held(q) == Span(cseg) + Held(next)
  {
    hide Held, Span, Wire, Geq;
    c, q := cseg, next;
    while q != [] && Geq(Wire(irs + cseg.End()), Wire(irs + q[0].End()))
      invariant Queue(stream, q, cseg.off, hi)
      invariant q != [] && q[0].off == cseg.off ==> |q[0].data| < |cseg.data|
      invariant c.off == cseg.off && c.data == cseg.data && Cut(stream, c) && c.Last() <= hi
      invariant c.fin ==> q == []
      invariant Span(c) + Held(q) == Span(cseg) + Held(next)
      decreases |q|
    {
      WireCompare(irs + cseg.End(), irs + q[0].End());
      Swallow(stream, c, q, hi);
      if q[0].fin {
        c := c.(fin := true);
      }
      q := q[1..];
    }
    if q != [] {
      WireCompare(irs + cseg.End(), irs + q[0].End());
    }
  }

  /**
   * Link `cseg` in front of `next`: swallow the segments it covers, taking over
   * their FIN, and trim its end where the first remaining one begins.
   */
  method OosInsertSegment(irs: u32, cseg: Segment, next: seq<Segment>, ghost stream: seq<byte>, ghost hi: int)
    returns (r: seq<Segment>)
    requires Cut(stream, cseg) && cseg.TcpLen() > 0 && cseg.Last() <= hi <= cseg.off + 2 * SPAN
    requires Queue(stream, next, cseg.off, hi)
    requires next != [] && next[0].off == cseg.off ==> |next[0].data| < |cseg.data|
    ensures r != [] && r[0].off == cseg.off
    ensures Queue(stream, r, cseg.off, hi)
    ensures Held(r) == Span(cseg) + Held(next)
  {
    var c, q := cseg, [];
    if cseg.fin {
      // nothing can follow a FIN: all of next is freed
      NothingBeyondFin(stream, cseg, next, hi);
    } else {
      c, q := SwallowCovered(irs, cseg, next, stream, hi);
      if q != [] {
        WireCompare(irs + c.End(), irs + q[0].off);
        if Gt(Wire(irs + c.End()), Wire(irs + q[0].off)) {
          TrimEnd(stream, c, q);
          WireDistance(irs + q[0].off, irs + c.off);
          c := c.(data := c.data[..Sub(Wire(irs + q[0].off), Wire(irs + c.off))]);
        }
      }
    }
    r := [c] + q;
    QueueCons(stream, c, q, cseg.off, hi);
    HeldCons(c, q);
  }

  /** Shorten a queued segment so that it ends no later than `x`. */
  function Clip(s: Segment, x: int): Segment
    requires s.off <= x
  {
    if s.End() > x then s.(data := s.data[..x - s.off]) else s
  }

  /** The prefix q[..i], its last segment clipped at `x`. */
  function ClippedPrefix(q: seq<Segment>, i: nat, x: int): seq<Segment>
    requires 0 < i <= |q| && q[i - 1].off <= x
  {
    q[..i - 1] + [Clip(q[i - 1], x)]
  }

  lemma ClippedPrefixQueue(stream: seq<byte>, q: seq<Segment>, i: nat, x: int, lo: int, hi: int)
    requires Queue(stream, q, lo, hi) && 0 < i <= |q|
    requires q[i - 1].off < x && !q[i - 1].fin
    ensures var a := ClippedPrefix(q, i, x);
            && Queue(stream, a, lo, hi)
            && (forall k :: 0 <= k < |a| ==> a[k].off < x && a[k].End() <= x && !a[k].fin)
  {
    var c := Clip(q[i - 1], x);
    QueueSplit(stream, q, i - 1, lo, hi);
    assert c.data == stream[c.off..c.End()];
    QueueConcat(stream, q[..i - 1], [c], lo, q[i - 1].off, hi);
  }

  /** It holds what q[..i] held below `x`. */
  lemma ClippedPrefixHolds(q: seq<Segment>, i: nat, x: int, p: int)
    requires Ordered(q) && 0 < i <= |q|
    requires q[i - 1].off < x && !q[i - 1].fin
    ensures Holds(ClippedPrefix(q, i, x), p) <==> Holds(q[..i], p) && p < x
  {
    var a, s := q[..i - 1], q[i - 1];
    assert q[..i] == a + [s];
    HoldsAppend(a, [Clip(s, x)], p);
    HoldsOne(Clip(s, x), p);
    HoldsAppend(a, [s], p);
    HoldsOne(s, p);
    if Holds(a, p) {
      var k :| 0 <= k < |a| && a[k].Covers(p);
      assert q[k].End() <= q[i - 1].off;
    }
  }

  /** The incoming segment adds nothing but perhaps its FIN, and tcp_receive drops it. */
  ghost predicate Ditched(q: seq<Segment>, s: Segment) {
    exists i :: 0 <= i < |q| &&
      ((q[i].off == s.off && |s.data| <= |q[i].data|) || (q[i].fin && q[i].off < s.off))
  }

  /** The incoming segment goes behind a tail without FIN: only then is it trimmed to the window. */
  ghost predicate Appended(q: seq<Segment>, s: Segment) {
    q != [] && forall i :: 0 <= i < |q| ==> q[i].off < s.off
  }

  /** `s` without what lies at or beyond the right window edge. */
  function Fit(s: Segment, edge: int): Segment
    requires s.off <= edge
  {
    if s.Last() > edge then Segment(s.off, s.data[..edge - s.off], false) else s
  }

  /** Position `p` survives the insertion of `s`: its segment does not reach over the start of `s` to `p`. */
  ghost predicate Kept(q: seq<Segment>, s: Segment, p: int) {
    exists i :: 0 <= i < |q| && q[i].Covers(p) && (s.off <= q[i].off || p < s.off)
  }

  /** A dropped segment loses no data. */
  lemma DitchedHasNoNewData(stream: seq<byte>, q: seq<Segment>, s: Segment, lo: int, hi: int, p: int)
    requires Queue(stream, q, lo, hi) && Cut(stream, s) && Ditched(q, s)
    requires s.off <= p < s.End()
    ensures Holds(q, p)
  {
    var i :| 0 <= i < |q| &&
      ((q[i].off == s.off && |s.data| <= |q[i].data|) || (q[i].fin && q[i].off < s.off));
    assert Cut(stream, q[i]);
    assert q[i].Covers(p);
  }

  ghost function Survivors(q: seq<Segment>, s: Segment): iset<int> { iset p: int | Kept(q, s, p) }

  /** `i` is the place of `s` in `q`. */
  ghost predicate Place(q: seq<Segment>, s: Segment, i: nat) {
    && i <= |q|
    && (forall k :: 0 <= k < i ==> q[k].off < s.off && !q[k].fin)
    && (forall k :: i <= k < |q| ==> s.off <= q[k].off)
  }

  /** q[..i] as it is left in front of `s`. */
  function Front(q: seq<Segment>, s: Segment, i: nat): seq<Segment>
    requires i <= |q| && (i > 0 ==> q[i - 1].off <= s.off)
  {
    if i == 0 then [] else ClippedPrefix(q, i, s.off)
  }

  lemma KeptSplits(q: seq<Segment>, s: Segment, i: nat, p: int)
    requires Ordered(q) && Place(q, s, i)
    ensures Kept(q, s, p) <==> Holds(Front(q, s, i), p) || Holds(q[i..], p)
  {
    if i > 0 {
      ClippedPrefixHolds(q, i, s.off, p);
    }
    if Holds(q[i..], p) {
      var k :| 0 <= k < |q[i..]| && q[i..][k].Covers(p);
      assert q[i + k].Covers(p);
    }
    if Holds(q[..i], p) && p < s.off {
      var k :| 0 <= k < |q[..i]| && q[..i][k].Covers(p);
      assert q[k].Covers(p);
    }
    if Kept(q, s, p) {
      var k :| 0 <= k < |q| && q[k].Covers(p) && (s.off <= q[k].off || p < s.off);
      if k < i {
        assert q[..i][k].Covers(p);
      } else {
        assert q[i..][k - i].Covers(p);
      }
    }
  }

  /** Putting `tail`, which begins with `s`, behind the front part keeps the queue in order. */
  lemma Splice(stream: seq<byte>, q: seq<Segment>, s: Segment, i: nat, tail: seq<Segment>, lo: int, hi: int)
    requires Queue(stream, q, lo, hi) && Place(q, s, i) && lo <= s.off
    requires Queue(stream, tail, s.off, hi)
    ensures Queue(stream, Front(q, s, i) + tail, lo, hi)
  {
    if i > 0 {
      ClippedPrefixQueue(stream, q, i, s.off, lo, hi);
    }
    QueueConcat(stream, Front(q, s, i), tail, lo, s.off, hi);
  }

  lemma SpliceHeld(q: seq<Segment>, s: Segment, e: Segment, i: nat, tail: seq<Segment>)
    requires Ordered(q) && Place(q, s, i)
    requires Held(tail) == Span(e) + Held(q[i..])
    ensures Held(Front(q, s, i) + tail) == Span(e) + Survivors(q, s)
  {
    forall p: int
      ensures p in Held(Front(q, s, i) + tail) <==> p in Span(e) + Survivors(q, s)
    {
      HoldsAppend(Front(q, s, i), tail, p);
      KeptSplits(q, s, i, p);
      assert p in Held(tail) <==> p in Span(e) + Held(q[i..]);
    }
  }

  /** The segment as queued: trimmed to the window only behind the tail of a non-empty queue. */
  ghost function Effective(q: seq<Segment>, s: Segment, edge: int): Segment
    requires s.off <= edge
  {
    if Appended(q, s) then Fit(s, edge) else s
  }

  /** Trim the end of a queued segment to the start `x` of the incoming one. */
  method TrimPrevious(irs: u32, prev: Segment, x: int) returns (r: Segment)
    requires prev.off < x && Near(prev.End(), x) && x - prev.off < MOD
    ensures r == Clip(prev, x)
  {
    r := prev;
    WireCompare(irs + prev.End(), irs + x);
    if Gt(Wire(irs + prev.End()), Wire(irs + x)) {
      WireDistance(irs + x, irs + prev.off);
      r := prev.(data := prev.data[..Sub(Wire(irs + x), Wire(irs + prev.off))]);
    }
  }

  /** Insert before q[i], replacing what the new segment covers. */
  method InsertAt(irs: u32, q: seq<Segment>, s: Segment, i: nat, ghost stream: seq<byte>, ghost lo: int)
    returns (r: seq<Segment>)
    requires Queue(stream, q, lo, lo + SPAN) && Place(q, s, i) && i < |q|
    requires Cut(stream, s) && s.TcpLen() > 0 && lo <= s.off && s.Last() <= lo + SPAN
    requires q[i].off == s.off ==> |q[i].data| < |s.data|
    ensures Queue(stream, r, lo, lo + SPAN)
    ensures Held(r) == Span(s) + Survivors(q, s)
  {
    var front := [];
    if i > 0 {
      var prev := TrimPrevious(irs, q[i - 1], s.off);
      front := q[..i - 1] + [prev];
    }
    assert front == Front(q, s, i);
    QueueSplit(stream, q, i, lo, lo + SPAN);
    var tail := OosInsertSegment(irs, s, q[i..], stream, lo + SPAN);
    r := front + tail;
    Splice(stream, q, s, i, tail, lo, lo + SPAN);
    SpliceHeld(q, s, s, i, tail);
  }

  /** Drop what overruns the receive window from a segment that is about to become the tail. */
  method FitToWindow(irs: u32, s: Segment, edge: int) returns (r: Segment)
    requires s.off < edge && Near(s.Last(), edge) && edge - s.off < MOD
    ensures r == Fit(s, edge)
  {
    r := s;
    WireCompare(irs + s.Last(), irs + edge);
    if Gt(Wire(irs + s.Last()), Wire(irs + edge)) {
      WireDistance(irs + edge, irs + s.off);
      r := Segment(s.off, s.data[..Sub(Wire(irs + edge), Wire(irs + s.off))], false);
    }
  }

  /** Add the segment behind the tail, trimming both to fit. */
  method Append(irs: u32, q: seq<Segment>, s: Segment, edge: int, ghost stream: seq<byte>, ghost lo: int)
    returns (r: seq<Segment>)
    requires Queue(stream, q, lo, lo + SPAN) && q != [] && Place(q, s, |q|)
    requires Cut(stream, s) && s.TcpLen() > 0 && s.Last() <= lo + SPAN
    requires lo <= s.off < edge <= lo + 0x1_0000
    ensures Queue(stream, r, lo, lo + SPAN)
    ensures Held(r) == Span(Fit(s, edge)) + Survivors(q, s)
  {
    var last := TrimPrevious(irs, q[|q| - 1], s.off);
    var e := FitToWindow(irs, s, edge);
    var front := q[..|q| - 1] + [last];
    assert front == Front(q, s, |q|);
    r := front + [e];
    assert e.data == stream[e.off..e.End()];
    Splice(stream, q, s, |q|, [e], lo, lo + SPAN);
    HeldCons(e, []);
    assert [e] == [e] + [] && q[|q|..] == [];
    SpliceHeld(q, s, e, |q|, [e]);
  }

  /** Where an incoming segment belongs. */
  datatype Position = Nowhere | Before(i: nat) | AtEnd

  lemma PlacedIsNotDitched(q: seq<Segment>, s: Segment, i: nat)
    requires Ordered(q) && Place(q, s, i)
    requires i < |q| && q[i].off == s.off ==> |q[i].data| < |s.data|
    ensures !Ditched(q, s)
  {
    forall k | 0 <= k < |q| && q[k].off == s.off
      ensures |q[k].data| < |s.data|
    {
      assert k <= i;
    }
  }

  /** The walk along the queue that looks for the place of `s`. */
  method FindPosition(irs: u32, q: seq<Segment>, s: Segment, ghost lo: int) returns (pos: Position)
    requires q != [] && Ordered(q) && lo <= s.off <= lo + SPAN
    requires forall k :: 0 <= k < |q| ==> lo <= q[k].off <= lo + SPAN
    ensures pos.Nowhere? <==> Ditched(q, s)
    ensures pos.Before? ==> pos.i < |q| && Place(q, s, pos.i) && (q[pos.i].off == s.off ==> |q[pos.i].data| < |s.data|)
    ensures pos.AtEnd? ==> Place(q, s, |q|)
  {
    hide Wire, Lt, Gt, Between;
    var i := 0;
    while true
      invariant 0 <= i < |q|
      invariant forall k :: 0 <= k < i ==> q[k].off < s.off
      decreases |q| - i
    {
      WireCompare(irs + s.off, irs + q[i].off);
      if Wire(irs + s.off) == Wire(irs + q[i].off) {
        if |s.data| > |q[i].data| {
          PlacedIsNotDitched(q, s, i);
          return Before(i);
        }
        return Nowhere;
      }
      if i == 0 {
        if Lt(Wire(irs + s.off), Wire(irs + q[0].off)) {
          PlacedIsNotDitched(q, s, 0);
          return Before(0);
        }
      } else {
        WireBetween(irs + s.off, irs + q[i - 1].off + 1, irs + q[i].off - 1);
        if Between(Wire(irs + s.off), Wire(irs + q[i - 1].off + 1), Wire(irs + q[i].off - 1)) {
          PlacedIsNotDitched(q, s, i);
          return Before(i);
        }
      }
      if i + 1 == |q| && Gt(Wire(irs + s.off), Wire(irs + q[i].off)) {
        if q[i].fin {
          // the last segment already contains all data
          return Nowhere;
        }
        PlacedIsNotDitched(q, s, |q|);
        return AtEnd;
      }
      i := i + 1;
    }
  }

  /** `r` is `q` with `s` taken in, unless there was no memory or `s` was dropped as old. */
  ghost predicate Stored(q: seq<Segment>, s: Segment, edge: int, alloc: bool, r: seq<Segment>)
    requires s.off <= edge
  {
    if !alloc || Ditched(q, s) then r == q else Held(r) == Span(Effective(q, s, edge)) + Survivors(q, s)
  }

  /** Storing a segment keeps the queue below the window edge, if the segment is. */
  lemma StoredInWindow(q: seq<Segment>, s: Segment, edge: int, alloc: bool, r: seq<Segment>)
    requires s.off <= edge && Stored(q, s, edge, alloc, r)
    ensures s.Last() <= edge && AllBelow(Held(q), edge) ==> AllBelow(Held(r), edge)
  {
    assert forall p :: p in Survivors(q, s) ==> p in Held(q);
  }

  /** What is trimmed to the window keeps just the positions inside it. */
  lemma FitSpan(s: Segment, edge: int, p: int)
    requires s.off <= edge
    ensures p in Span(Fit(s, edge)) <==> s.Covers(p) && p < edge
  {
  }

  /**
   * Storing, position by position. With memory every byte inside the window is queued afterwards; its FIN is not
   * only if a segment with the same start and at least its data was there. Nothing else appears.
   * What disappears lay beyond the new segment, in one that began before it.
   */
  lemma StoredPositions(stream: seq<byte>, q: seq<Segment>, s: Segment, edge: int, alloc: bool, r: seq<Segment>, lo: int, hi: int, p: int)
    requires Queue(stream, q, lo, hi) && Cut(stream, s) && s.off <= edge && Stored(q, s, edge, alloc, r)
    ensures !alloc ==> r == q
    ensures alloc && s.off <= p < s.End() && p < edge ==> p in Held(r)
    ensures alloc && s.Covers(p) && p < edge && p !in Held(r) ==>
              exists i :: 0 <= i < |q| && q[i].off == s.off && |s.data| <= |q[i].data|
    ensures p in Held(r) ==> p in Held(q) || s.Covers(p)
    ensures p in Held(q) && p !in Held(r) ==>
              && (s.Last() <= p || edge <= p)
              && exists i :: 0 <= i < |q| && q[i].off < s.off && q[i].Covers(p)
  {
    FitSpan(s, edge, p);
    if Ditched(q, s) {
      if s.off <= p < s.End() {
        DitchedHasNoNewData(stream, q, s, lo, hi, p);
      }
      DitchedFin(stream, q, s, lo, hi);
    } else if alloc {
      hide Queue, Cut, Fit, Ditched, Ordered;
      assert p in Held(r) <==> p in Span(Effective(q, s, edge)) || Kept(q, s, p);
      if p in Held(q) && !Kept(q, s, p) {
        var i :| 0 <= i < |q| && q[i].Covers(p);
        assert q[i].off < s.off;
      }
    }
  }

  lemma DitchedFin(stream: seq<byte>, q: seq<Segment>, s: Segment, lo: int, hi: int)
    requires Queue(stream, q, lo, hi) && Cut(stream, s) && Ditched(q, s)
    ensures s.fin && s.End() !in Held(q) ==> exists i :: 0 <= i < |q| && q[i].off == s.off && |s.data| <= |q[i].data|
  {
    if s.fin && s.End() !in Held(q) {
      var i :| 0 <= i < |q| &&
        ((q[i].off == s.off && |s.data| <= |q[i].data|) || (q[i].fin && q[i].off < s.off));
      assert Cut(stream, q[i]);
      assert !q[i].Covers(s.End());
    }
  }

  /**
   * Queue an out-of-sequence segment. `alloc` says whether tcp_seg_copy finds
   * memory. Everything the segment brings is buffered afterwards, and of what was
   * buffered only the part of the previous segment beyond the new one may be lost.
   */
  method Enqueue(irs: u32, q: seq<Segment>, s: Segment, edge: int, alloc: bool, ghost stream: seq<byte>, ghost lo: int)
    returns (r: seq<Segment>)
    requires Queue(stream, q, lo, lo + SPAN)
    requires Cut(stream, s) && s.TcpLen() > 0 && s.Last() <= lo + SPAN
    requires lo <= s.off < edge <= lo + 0x1_0000
    ensures Queue(stream, r, lo, lo + SPAN)
    ensures Stored(q, s, edge, alloc, r)
  {
    r := q;
    if q == [] {
      if alloc {
        r := [s];
        HeldCons(s, []);
        assert r == [s] + [] && Held([]) == iset{} && Survivors(q, s) == iset{};
      }
    } else {
      var pos := FindPosition(irs, q, s, lo);
      match pos {
        case Nowhere =>
        case Before(i) =>
          if alloc {
            r := InsertAt(irs, q, s, i, stream, lo);
          }
        case AtEnd =>
          if alloc {
            r := Append(irs, q, s, edge, stream, lo);
          }
      }
    }
  }
}
