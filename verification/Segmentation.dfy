/**
 * How tcp_write cuts data into segments: first into the room allocated behind the
 * last unsent segment, then into a pbuf chained to it, then into new segments.
 * Every allocation may fail.
 */
module Segmentation {
  import opened Common
  import opened SequenceNumbers
  import opened Segments
  import opened SendQueues

  /** No segment is larger than half the largest window the peer ever announced. */
  function MssLocal(mss: nat, wndMax: nat): nat {
    if Min(mss, wndMax / 2) == 0 then mss else Min(mss, wndMax / 2)
  }

  /** It is the largest limit that both mss and half the window allow, and without such a window it is mss. */
  lemma MssLocalIsLargest(mss: nat, wndMax: nat, k: nat)
    requires 0 < mss
    ensures var m := MssLocal(mss, wndMax);
            if wndMax < 2 then m == mss else 0 < m <= mss && 2 * m <= wndMax && (k <= mss && 2 * k <= wndMax ==> k <= m)
  {
  }

  /** Growing windows shrink the segment limit in one case: the first window of at least two after a smaller one. */
  lemma MssLocalShrinks(mss: nat, w: nat, w': nat)
    requires w <= w'
    ensures MssLocal(mss, w') < MssLocal(mss, w) <==> w < 2 <= w' && w' / 2 < mss
  {
  }

  ghost predicate Fits(q: seq<Segment>, mssLocal: nat) {
    forall i :: 0 <= i < |q| ==> |q[i].data| <= mssLocal && 0 < q[i].pbufs
  }

  /** unsent_oversize: bytes allocated behind the last unsent segment, within the room that segment has left. */
  ghost predicate RoomOk(unsent: seq<Segment>, oversize: nat, mssLocal: nat) {
    unsent != [] ==> |unsent[|unsent| - 1].data| + oversize <= mssLocal
  }

  /** No queued segment, with the room allocated behind it, is above a limit. */
  ghost predicate Limited(unacked: seq<Segment>, unsent: seq<Segment>, oversize: nat, m: nat) {
    Fits(unacked, m) && Fits(unsent, m) && RoomOk(unsent, oversize, m)
  }

  /** The assertions of tcp_write on the last unsent segment: it fits, and so does the room behind it or the new data. */
  predicate Asserted(unsent: seq<Segment>, oversize: nat, len: nat, mssLocal: nat) {
    unsent != [] ==>
      var last := unsent[|unsent| - 1];
      |last.data| <= mssLocal && (|last.data| + oversize <= mssLocal || |last.data| + len <= mssLocal)
  }

  /** The parameters of one tcp_write call and of the configuration that steer segmentation. */
  datatype Request = Request(
    data: seq<byte>,
    copy: bool,         // TCP_WRITE_FLAG_COPY
    more: bool,         // TCP_WRITE_FLAG_MORE
    noDelay: bool,      // TF_NODELAY
    pending: bool,      // something is already queued
    mssLocal: nat,
    queueMax: nat,      // TCP_SND_QUEUELEN
    overAlloc: nat,     // TCP_OVERSIZE
    align: nat          // MEM_ALIGNMENT
  ) {
    predicate Ok() { 0 < mssLocal && 0 < align }
  }

  /** tcp_pbuf_prealloc: a pbuf with room behind `length` bytes, but not beyond `maxLength`. */
  method Prealloc(req: Request, length: nat, maxLength: nat, first: bool, mem: nat) returns (ok: bool, oversize: nat)
    requires req.Ok() && length <= maxLength
    ensures oversize <= maxLength - length && (ok <==> mem > 0)
    ensures if req.more || (!req.noDelay && (!first || req.pending))
            then length + oversize == maxLength
                 || (req.overAlloc <= oversize < req.overAlloc + req.align && (length + oversize) % req.align == 0)
            else oversize == 0
  {
    hide AlignUp;
    AlignUpAligned(length + req.overAlloc, req.align);
    var alloc := length;
    // allocate more than needed if more data is likely to come before the segment is sent
    if length < maxLength && (req.more || (!req.noDelay && (!first || req.pending))) {
      alloc := Min(maxLength, AlignUp(length + req.overAlloc, req.align));
    }
    ok := mem > 0;
    oversize := alloc - length;
  }

  /**
   * Phases 1 and 2: how many bytes go into the last unsent segment, and whether a pbuf is chained for them.
   * `mem` is the number of allocations that succeed before one fails, `left` what is left of it.
   */
  method ExtendLast(req: Request, last: Segment, oversize: nat, mem: nat)
    returns (ok: bool, pos: nat, concat: bool, over: nat, left: nat)
    requires req.Ok() && last.data != [] && Asserted([last], oversize, |req.data|, req.mssLocal)
    ensures mem > 0 ==> ok && left >= mem - 1
    ensures ok ==> pos == Min(req.mssLocal - |last.data|, |req.data|)
    ensures ok ==> |last.data| + pos + over <= Max(req.mssLocal, |last.data| + oversize) && (over > 0 ==> pos == |req.data|)
    ensures ok && pos == 0 ==> !concat
    ensures concat <==> oversize < pos
    ensures ok <==> !concat || mem > 0
    ensures ok ==> left == mem - if concat then 1 else 0
    ensures ok && !(concat && req.copy) ==> over == Max(0, oversize - pos)
  {
    var space := req.mssLocal - |last.data|;
    ok, pos, concat, over, left := true, 0, false, oversize, mem;
    if over > 0 {
      var used := Min(space, Min(over, |req.data|));
      pos, over, space := used, over - used, space - used;
    }
    if pos < |req.data| && space > 0 && |last.data| > 0 {
      var seglen := Min(space, |req.data| - pos);
      if req.copy {
        ok, over := Prealloc(req, seglen, space, true, mem);
      } else {
        ok := mem > 0;
      }
      pos, concat := pos + seglen, true;
      left := if ok then mem - 1 else 0;
    }
  }

  ghost predicate AllBeyond(q: seq<Segment>, x: int) {
    forall i :: 0 <= i < |q| ==> x < q[i].Last()
  }

  /** A segment as large as allowed with the data from `pos` on. */
  function Piece(data: seq<byte>, lbb: int, pos: nat, max: nat, pbufs: nat): Segment
    requires pos < |data|
  {
    Segment(lbb + pos, data[pos..pos + Min(|data| - pos, max)], false, pbufs)
  }

  /** All the data from `pos` on in such segments. */
  function Pieces(data: seq<byte>, lbb: int, pos: nat, max: nat, pbufs: nat): seq<Segment>
    requires 0 < max
    decreases |data| - pos
  {
    if pos >= |data| then [] else
      [Piece(data, lbb, pos, max, pbufs)] + Pieces(data, lbb, pos + Min(|data| - pos, max), max, pbufs)
  }

  lemma FitsCons(s: Segment, q: seq<Segment>, m: nat, x: int)
    requires Fits(q, m) && |s.data| <= m && 0 < s.pbufs && AllBeyond(q, x) && x < s.Last()
    ensures Fits([s] + q, m) && AllBeyond([s] + q, x)
  {
  }

  lemma NothingBeyond(m: nat, x: int)
    ensures Fits([], m) && AllBeyond([], x)
  {
  }

  /** The pieces hold exactly the data, none above the limit, all beyond what was written before. */
  lemma {:induction false} PiecesTotals(data: seq<byte>, lbb: int, pos: nat, max: nat, pbufs: nat)
    requires 0 < max && pos <= |data| && 0 < pbufs
    ensures var q := Pieces(data, lbb, pos, max, pbufs);
            && Payload(q) == data[pos..] && Bytes(q) == |data| - pos && Fits(q, max) && AllBeyond(q, lbb)
            && (forall i :: 0 <= i < |q| - 1 ==> |q[i].data| == max) && (pos < |data| ==> q != [])
    decreases |data| - pos
  {
    hide Payload, Bytes, Pbufs, Fits, AllBeyond;
    if pos == |data| {
      NoTotals();
      NothingBeyond(max, lbb);
    } else {
      var n := Min(|data| - pos, max);
      var s, q := Piece(data, lbb, pos, max, pbufs), Pieces(data, lbb, pos + n, max, pbufs);
      PiecesTotals(data, lbb, pos + n, max, pbufs);
      TotalsConcat([s], q);
      TotalsOne(s);
      FitsCons(s, q, max, lbb);
      assert data[pos..] == data[pos..pos + n] + data[pos + n..];
    }
  }

  /** Behind queues that end where the data was cut, they continue the queues up to the end of the data. */
  lemma {:induction false} PiecesTiled(text: seq<byte>, data: seq<byte>, a: seq<Segment>, u: seq<Segment>, lo: int,
                                       pos: nat, max: nat, pbufs: nat)
    requires 0 < max && pos <= |data| && Tiled(text + data[..pos], a, u, lo, |text| + pos)
    ensures Tiled(text + data, a, u + Pieces(data, |text|, pos, max, pbufs), lo, |text| + |data|)
    decreases |data| - pos
  {
    hide Tiled;
    if pos < |data| {
      var n := Min(|data| - pos, max);
      var s, q := Piece(data, |text|, pos, max, pbufs), Pieces(data, |text|, pos + n, max, pbufs);
      var t, t' := text + data[..pos], text + data[..pos + n];
      assert t <= t' && s.data == t'[s.off..s.End()];
      TiledAppend(t, t', a, u, lo, s);
      PiecesTiled(text, data, a, u + [s], lo, pos + n, max, pbufs);
      Associates(u, [s], q);
    } else {
      assert data[..pos] == data;
      assert u + [] == u;
    }
  }

  lemma PbufsGrow(q: seq<Segment>, s: Segment)
    ensures Pbufs(q + [s]) == Pbufs(q) + s.pbufs
  {
    TotalsConcat(q, [s]);
    TotalsOne(s);
  }

  lemma PieceTaken(q: seq<Segment>, data: seq<byte>, lbb: int, pos: nat, max: nat, pbufs: nat)
    requires 0 < max && pos < |data|
    ensures var s, n := Piece(data, lbb, pos, max, pbufs), Min(|data| - pos, max);
            q + Pieces(data, lbb, pos, max, pbufs) == q + [s] + Pieces(data, lbb, pos + n, max, pbufs)
  {
    Associates(q, [Piece(data, lbb, pos, max, pbufs)], Pieces(data, lbb, pos + Min(|data| - pos, max), max, pbufs));
  }

  /** One new segment, with one pbuf for copied data, or one that refers to the data and one for the header. */
  method NewSegment(req: Request, lbb: int, pos: nat, first: bool, over0: nat, queueLen: nat, mem: nat)
    returns (ok: bool, s: Segment, over: nat)
    requires req.Ok() && pos < |req.data|
    ensures var pbufs := if req.copy then 1 else 2;
            && (ok <==> mem > pbufs && queueLen + pbufs <= req.queueMax)
            && s == Piece(req.data, lbb, pos, req.mssLocal, pbufs)
    ensures if req.copy then |s.data| + over <= req.mssLocal else over == over0
  {
    var seglen, pbufs := Min(|req.data| - pos, req.mssLocal), if req.copy then 1 else 2;
    s, over := Segment(lbb + pos, req.data[pos..pos + seglen], false, pbufs), over0;
    if req.copy {
      ok, over := Prealloc(req, seglen, req.mssLocal, first, mem);
    } else {
      ok := mem > 1;
    }
    if ok && (queueLen + pbufs > req.queueMax || mem == pbufs) {
      // the queue is too long, or there is no memory for the segment itself
      ok := false;
    }
  }

  /** Phase 3: new segments for what is left from `start` on. */
  method NewSegments(req: Request, lbb: int, start: nat, over0: nat, queueLen0: nat, mem: nat)
    returns (ok: bool, queue: seq<Segment>, over: nat, queueLen: nat)
    requires req.Ok() && start <= |req.data| && (over0 > 0 ==> start == |req.data|)
    ensures mem >= 3 * (|req.data| - start) && queueLen0 + 2 * (|req.data| - start) <= req.queueMax ==> ok
    ensures ok ==> queue == Pieces(req.data, lbb, start, req.mssLocal, if req.copy then 1 else 2)
    ensures ok ==> Pbufs(queue) == queueLen - queueLen0 && (queue != [] ==> queueLen <= req.queueMax)
    ensures ok && queue != [] ==> RoomOk(queue, over, req.mssLocal)
    ensures ok && queue == [] ==> over == over0 && start == |req.data|
  {
    hide Pbufs, Piece;
    ok, queue, over, queueLen := true, [], over0, queueLen0;
    var pos, left, pbufs: nat := start, mem, if req.copy then 1 else 2;
    ghost var all := Pieces(req.data, lbb, start, req.mssLocal, pbufs);
    NoTotals();
    while pos < |req.data|
      invariant start <= pos <= |req.data| && 0 <= left
      invariant queue + Pieces(req.data, lbb, pos, req.mssLocal, pbufs) == all
      invariant mem >= 3 * (|req.data| - start) ==> left >= 3 * (|req.data| - pos)
      invariant queueLen <= queueLen0 + 2 * (pos - start)
      invariant Pbufs(queue) == queueLen - queueLen0 && (queue != [] ==> queueLen <= req.queueMax)
      invariant if queue == [] then over == over0 && pos == start else RoomOk(queue, over, req.mssLocal)
      invariant !req.copy ==> over == over0
    {
      var s;
      ok, s, over := NewSegment(req, lbb, pos, queue == [], over, queueLen, left);
      if !ok {
        return;
      }
      PieceTaken(queue, req.data, lbb, pos, req.mssLocal, pbufs);
      PieceFits(req.data, lbb, pos, req.mssLocal, pbufs);
      PbufsGrow(queue, s);
      hide Pieces;
      queueLen, left := queueLen + pbufs, left - pbufs - 1;
      queue, pos := queue + [s], pos + |s.data|;
    }
  }

  lemma PieceFits(data: seq<byte>, lbb: int, pos: nat, max: nat, pbufs: nat)
    requires 0 < max && pos < |data|
    ensures var s := Piece(data, lbb, pos, max, pbufs);
            && 0 < |s.data| == Min(|data| - pos, max) && s.pbufs == pbufs
  {
  }

  // ------------------------------------------------------------------- commit

  /** The last unsent segment with `pos` bytes more. */
  function Longer(last: Segment, data: seq<byte>, pos: nat, concat: bool): Segment
    requires pos <= |data|
  {
    last.(data := last.data + data[..pos], pbufs := last.pbufs + if concat then 1 else 0)
  }

  function Extended(unsent: seq<Segment>, data: seq<byte>, pos: nat, concat: bool): seq<Segment>
    requires pos <= |data|
  {
    if unsent == [] then [] else ReplaceLast(unsent, Longer(unsent[|unsent| - 1], data, pos, concat))
  }

  /** A write leaves the queues in order exactly if the data it adds to the last unsent segment belongs there. */
  predicate Appendable(unsent: seq<Segment>, top: int, len: nat, mssLocal: nat) {
    || unsent == [] || unsent[|unsent| - 1].End() == top
    || |unsent[|unsent| - 1].data| == mssLocal || len == 0
  }

  lemma ExtendedTiled(text: seq<byte>, a: seq<Segment>, b: seq<Segment>, lo: int, data: seq<byte>, pos: nat, concat: bool)
    requires Tiled(text, a, b, lo, |text|) && pos <= |data|
    requires b == [] ==> pos == 0
    requires b != [] && b[|b| - 1].End() != |text| ==> pos == 0 && !concat
    ensures Tiled(text + data[..pos], a, Extended(b, data, pos, concat), lo, |text| + pos)
  {
    if b == [] || (pos == 0 && !concat) {
      assert text + data[..pos] == text;
      assert b != [] ==> Longer(b[|b| - 1], data, pos, concat) == b[|b| - 1];
      assert Extended(b, data, pos, concat) == b;
    } else {
      var last := b[|b| - 1];
      var s := Longer(last, data, pos, concat);
      assert Cut(text, last) && !last.fin;
      assert s.data == (text + data[..pos])[s.off..s.End()];
      TiledReplace(text, text + data[..pos], a, b, lo, s);
    }
  }

  lemma LayoutTiled(text: seq<byte>, a: seq<Segment>, b: seq<Segment>, lo: int, ack: int, nxt: int, hi: int)
    requires Layout(text, a, b, lo, ack, nxt, hi)
    ensures Tiled(text, a, b, lo, hi)
    ensures forall i :: 0 <= i < |b| ==> Cut(text, b[i])
  {
  }

  /** Data that belongs behind the last unsent segment keeps the order. */
  lemma WrittenInOrder(req: Request, text: seq<byte>, a: seq<Segment>, b: seq<Segment>, lo: int, ack: int, nxt: int,
                       pos: nat, concat: bool, queue: seq<Segment>)
    requires Layout(text, a, b, lo, ack, nxt, |text|) && pos <= |req.data| && (b == [] ==> pos == 0)
    requires b != [] && b[|b| - 1].End() != |text| ==> pos == 0 && !concat
    requires AllBeyond(queue, |text|)
    requires var u := Extended(b, req.data, pos, concat);
             Tiled(text + req.data[..pos], a, u, lo, |text| + pos) ==>
             Tiled(text + req.data, a, u + queue, lo, |text| + |req.data|)
    ensures Layout(text + req.data, a, Extended(b, req.data, pos, concat) + queue, lo, ack, nxt, |text| + |req.data|)
  {
    hide Tiled, Layout;
    var u := Extended(b, req.data, pos, concat);
    var b' := u + queue;
    LayoutTiled(text, a, b, lo, ack, nxt, |text|);
    ExtendedTiled(text, a, b, lo, req.data, pos, concat);
    forall i | 0 <= i < |b'|
      ensures if i < |b| then b[i].Last() <= b'[i].Last() else |text| < b'[i].Last()
    {
      assert b'[i] == if i < |b| then u[i] else queue[i - |b|];
    }
    LayoutWritten(text, text + req.data, a, b, b', lo, ack, nxt);
  }

  /** Data added to a segment that is not the topmost one overlaps what is queued behind it. */
  lemma WrittenOverlaps(req: Request, text: seq<byte>, a: seq<Segment>, b: seq<Segment>, lo: int, ack: int, nxt: int,
                        pos: nat, concat: bool, queue: seq<Segment>)
    requires Layout(text, a, b, lo, ack, nxt, |text|) && 0 < pos <= |req.data|
    requires b != [] && b[|b| - 1].End() != |text|
    ensures !Layout(text + req.data, a, Extended(b, req.data, pos, concat) + queue, lo, ack, nxt, |text| + |req.data|)
  {
    hide Tiled, Layout;
    var n, b' := |b| - 1, Extended(b, req.data, pos, concat) + queue;
    LayoutTiled(text, a, b, lo, ack, nxt, |text|);
    assert b'[n] == Longer(b[n], req.data, pos, concat) && Cut(text, b[n]);
    OverlapIfNotTop(text, text + req.data, a, b, lo, |text|, b', lo, |text| + |req.data|, n);
    if Layout(text + req.data, a, b', lo, ack, nxt, |text| + |req.data|) {
      LayoutTiled(text + req.data, a, b', lo, ack, nxt, |text| + |req.data|);
    }
  }

  /** The queues after a successful write are a valid layout exactly when the write was appendable. */
  lemma WrittenLayout(req: Request, text: seq<byte>, a: seq<Segment>, b: seq<Segment>, lo: int, ack: int, nxt: int,
                      pos: nat, concat: bool, queue: seq<Segment>)
    requires Layout(text, a, b, lo, ack, nxt, |text|) && pos <= |req.data|
    requires b != [] ==> |b[|b| - 1].data| <= req.mssLocal && pos == Min(req.mssLocal - |b[|b| - 1].data|, |req.data|)
    requires pos == 0 ==> !concat
    requires b == [] ==> pos == 0
    requires AllBeyond(queue, |text|)
    requires var u := Extended(b, req.data, pos, concat);
             Tiled(text + req.data[..pos], a, u, lo, |text| + pos) ==>
             Tiled(text + req.data, a, u + queue, lo, |text| + |req.data|)
    ensures Layout(text + req.data, a, Extended(b, req.data, pos, concat) + queue, lo, ack, nxt, |text| + |req.data|)
            <==> Appendable(b, |text|, |req.data|, req.mssLocal)
  {
    hide Tiled, Layout, Extended, AllBeyond;
    if Appendable(b, |text|, |req.data|, req.mssLocal) {
      WrittenInOrder(req, text, a, b, lo, ack, nxt, pos, concat, queue);
    } else {
      WrittenOverlaps(req, text, a, b, lo, ack, nxt, pos, concat, queue);
    }
  }

  lemma WrittenTotals(req: Request, b: seq<Segment>, pos: nat, concat: bool, queue: seq<Segment>)
    requires pos <= |req.data| && (b == [] ==> pos == 0 && !concat)
    requires Payload(queue) == req.data[pos..] && Bytes(queue) == |req.data| - pos
    ensures var b' := Extended(b, req.data, pos, concat) + queue;
            && Payload(b') == Payload(b) + req.data && Bytes(b') == Bytes(b) + |req.data|
            && Pbufs(b') == Pbufs(b) + (if concat then 1 else 0) + Pbufs(queue)
  {
    hide Payload, Bytes, Pbufs;
    var u := Extended(b, req.data, pos, concat);
    TotalsConcat(u, queue);
    assert req.data == req.data[..pos] + req.data[pos..];
    if b == [] {
      NoTotals();
      assert [] + req.data == req.data;
    } else {
      var last := b[|b| - 1];
      var s := Longer(last, req.data, pos, concat);
      ReplaceTotals(b, s);
      var p := Payload(b[..|b| - 1]);
      Associates(p, last.data, req.data[..pos]);
      Associates(p + last.data, req.data[..pos], req.data[pos..]);
    }
  }

  lemma WrittenFits(req: Request, b: seq<Segment>, over: nat, pos: nat, concat: bool, queue: seq<Segment>, m: nat)
    requires pos <= |req.data| && req.mssLocal <= m
    requires Fits(b, m) && Fits(queue, req.mssLocal)
    requires b != [] ==> |b[|b| - 1].data| + pos <= m
    requires if queue == [] then (b != [] ==> |b[|b| - 1].data| + pos + over <= m) else RoomOk(queue, over, req.mssLocal)
    ensures var b' := Extended(b, req.data, pos, concat) + queue;
            && Fits(b', m) && RoomOk(b', over, m)
            && (b' == [] ==> b == [] && queue == [])
  {
    var u := Extended(b, req.data, pos, concat);
    var b' := u + queue;
    forall k | 0 <= k < |b'|
      ensures |b'[k].data| <= m && 0 < b'[k].pbufs
    {
      assert b'[k] == if k < |u| then u[k] else queue[k - |u|];
      assert k < |u| - 1 ==> u[k] == b[k];
    }
    if b' != [] {
      assert b'[|b'| - 1] == if queue == [] then u[|u| - 1] else queue[|queue| - 1];
    }
  }
}
