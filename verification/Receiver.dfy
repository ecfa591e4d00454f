/**
 * The receive side of a TCP connection: tcp_receive (data part), the hand-off to
 * the application in tcp_input, refused data, and the receive window.
 *
 * Positions count from the first byte after the peer's SYN; `irs + position` is
 * the sequence number. `stream` is everything the peer will ever send.
 */
module Receiver {
  import opened Common
  import opened SequenceNumbers
  import opened Segments
  import opened OutOfSequence
  import FirstEdge
  import Pbufs

  // ---------------------------------------------------------------- windows

  /** tcp_update_rcv_ann_wnd: the window to announce next; `step` is LWIP_MIN(TCP_WND / 2, mss). */
  function AnnounceableWindow(irs: u32, nxt: int, wnd: int, edge: int, step: int): int {
    if Geq(Wire(irs + nxt + wnd), Wire(irs + edge + step)) then wnd
    else if Gt(Wire(irs + nxt), Wire(irs + edge)) then 0
    else Sub(Wire(irs + edge), Wire(irs + nxt)) % 0x1_0000
  }

  /** How much window an update sent now would add: the return value of tcp_update_rcv_ann_wnd. */
  function WindowInflation(irs: u32, nxt: int, wnd: int, edge: int, step: int): int {
    if Geq(Wire(irs + nxt + wnd), Wire(irs + edge + step)) then Sub(Wire(irs + nxt + wnd), Wire(irs + edge)) else 0
  }

  /** The window to announce for the real right edge `right`, when the announced one is `edge`. */
  ghost function FairWindow(nxt: int, right: int, edge: int, step: int): int {
    if right - edge >= step then right - nxt else Max(0, edge - nxt)
  }

  /**
   * Whatever is announced next, the right edge does not move left of the announced
   * one and does not pass the real one. A gain below `step` is not announced.
   */
  lemma AnnounceNeverShrinks(irs: u32, nxt: int, wnd: int, edge: int, step: int)
    requires 0 <= wnd <= 0xFFFF && 0 <= step <= 0xFFFF
    requires edge <= nxt + wnd < edge + HALF - 0x1_0000
    ensures var w := AnnounceableWindow(irs, nxt, wnd, edge, step);
            && 0 <= w <= wnd && edge <= nxt + w
            && w == (if nxt + wnd - edge >= step then wnd else Max(0, edge - nxt))
    ensures WindowInflation(irs, nxt, wnd, edge, step) == if nxt + wnd - edge >= step then nxt + wnd - edge else 0
  {
    var w := AnnounceableWindow(irs, nxt, wnd, edge, step);
    assert Geq(Wire(irs + nxt + wnd), Wire(irs + edge + step)) <==> nxt + wnd >= edge + step by {
      WireCompare(irs + nxt + wnd, irs + edge + step);
    }
    if nxt + wnd >= edge + step {
      WireDistance(irs + nxt + wnd, irs + edge);
    } else {
      assert Gt(Wire(irs + nxt), Wire(irs + edge)) <==> nxt > edge by {
        WireCompare(irs + nxt, irs + edge);
      }
      if nxt <= edge {
        WireDistance(irs + edge, irs + nxt);
        assert w == edge - nxt;
      }
    }
  }

  // ------------------------------------------------------- stream arithmetic

  /** The number of data bytes before position `x`: the FIN is not one. */
  ghost function DataBelow(stream: seq<byte>, x: int): int { Min(x, |stream|) }

  ghost function Text(stream: seq<byte>, a: int, b: int): seq<byte>
    requires 0 <= a <= b
  {
    stream[DataBelow(stream, a)..DataBelow(stream, b)]
  }

  ghost function Above(s: iset<int>, x: int): iset<int> { iset p | p in s && p >= x }

  /** Everything in [a, b) is in `s`, and `b` is not. */
  ghost predicate FirstGap(s: iset<int>, a: int, b: int) {
    && a <= b && b !in s
    && (forall p :: a <= p < b ==> p in s)
  }

  /** Taking the first segment off a queue that starts at `x`. */
  lemma Pop(stream: seq<byte>, q: seq<Segment>, x: int, hi: int)
    requires Queue(stream, q, x, hi) && q != [] && q[0].off == x
    ensures Queue(stream, q[1..], q[0].Last(), hi)
    ensures Held(q[1..]) == Above(Held(q), q[0].Last())
    ensures forall p :: x <= p < q[0].Last() ==> p in Held(q)
    ensures q[0].data == Text(stream, x, q[0].Last())
    ensures q[0].fin <==> x <= |stream| < q[0].Last()
  {
    QueueTail(stream, q, x, hi);
    forall i | 0 <= i < |q[1..]|
      ensures q[0].Last() <= q[1..][i].off
    {
      assert q[1..][i] == q[i + 1];
    }
    forall p: int
      ensures p in Held(q[1..]) <==> p in Above(Held(q), q[0].Last())
    {
      HoldsTail(q, p);
    }
    assert Cut(stream, q[0]);
    forall p | x <= p < q[0].Last()
      ensures p in Held(q)
    {
      assert q[0].Covers(p);
    }
  }

  lemma TextConcat(stream: seq<byte>, a: int, b: int, c: int)
    requires 0 <= a <= b <= c
    ensures Text(stream, a, b) + Text(stream, b, c) == Text(stream, a, c)
  {
  }

  lemma StartEmpty(stream: seq<byte>, lo: int, hi: int, edge: int)
    ensures Queue(stream, [], lo, hi) && AllBelow(Held([]), edge) && Text(stream, 0, 0) == []
  {
  }

  lemma TextLength(stream: seq<byte>, a: int, b: int)
    requires 0 <= a <= b
    ensures |Text(stream, a, b)| == Min(b, |stream|) - Min(a, |stream|)
  {
  }

  lemma NoText(stream: seq<byte>, a: int)
    requires 0 <= a
    ensures Text(stream, a, a) == []
  {
  }

  /** Nothing at `x` is queued when the first segment starts above it. */
  lemma NotHeld(stream: seq<byte>, q: seq<Segment>, x: int, hi: int)
    requires Queue(stream, q, x, hi) && (q != [] ==> q[0].off != x)
    ensures x !in Held(q)
    ensures Queue(stream, q, x + 1, hi)
  {
    forall i | 0 <= i < |q|
      ensures x < q[i].off
    {
      if i > 0 {
        assert q[0].off < q[i].off;
      }
    }
  }

  /** `q` is what is left of queue `q0` after passing on `text` and perhaps the FIN, from position `a` up to `b`. */
  ghost predicate Drained(stream: seq<byte>, q0: seq<Segment>, a: int, q: seq<Segment>, b: int, hi: int, text: seq<byte>, fin: bool) {
    && 0 <= a <= b <= |stream| + 1
    && Queue(stream, q, b, hi)
    && Held(q) == Above(Held(q0), b)
    && (forall p :: a <= p < b ==> p in Held(q0))
    && text == Text(stream, a, b)
    && (fin <==> a <= |stream| < b)
  }

  lemma DrainOne(stream: seq<byte>, q0: seq<Segment>, a: int, q: seq<Segment>, b: int, hi: int, text: seq<byte>, fin: bool)
    requires Drained(stream, q0, a, q, b, hi, text, fin) && q != [] && q[0].off == b
    ensures Drained(stream, q0, a, q[1..], q[0].Last(), hi, text + q[0].data, fin || q[0].fin)
    ensures q[0].Last() - 1 in Held(q0)
  {
    Pop(stream, q, b, hi);
    TextConcat(stream, a, b, q[0].Last());
    assert Cut(stream, q[0]);
    forall p | b <= p < q[0].Last()
      ensures p in Held(q0)
    {
      assert p in Held(q);
    }
  }

  lemma DrainEnds(stream: seq<byte>, q0: seq<Segment>, a: int, q: seq<Segment>, b: int, hi: int, text: seq<byte>, fin: bool)
    requires Drained(stream, q0, a, q, b, hi, text, fin) && (q != [] ==> q[0].off != b)
    ensures FirstGap(Held(q0), a, b)
    ensures Queue(stream, q, b + 1, hi)
  {
    NotHeld(stream, q, b, hi);
    assert b in Held(q0) ==> b in Above(Held(q0), b);
  }

  lemma FirstOf(stream: seq<byte>, r: seq<Segment>, a: int, hi: int, edge: int)
    requires 0 <= a && Queue(stream, r, a, hi) && r != [] && r[0].off == a
    ensures Queue(stream, r[1..], r[0].Last(), hi) && r[0].Last() <= |stream| + 1
    ensures AllBelow(Held(r), edge) ==> r[0].Last() <= edge && AllBelow(Held(r[1..]), edge)
  {
    Pop(stream, r, a, hi);
    assert Cut(stream, r[0]);
    assert r[0].Last() - 1 in Held(r);
  }

  /** Passing on the first segment and then draining the rest is draining the whole. */
  lemma DrainAfterFirst(stream: seq<byte>, r: seq<Segment>, a: int, hi: int, q: seq<Segment>, b: int)
    requires 0 <= a && Queue(stream, r, a, hi) && r != [] && r[0].off == a
    requires FirstGap(Held(r[1..]), r[0].Last(), b) && Held(q) == Above(Held(r[1..]), b)
    ensures FirstGap(Held(r), a, b) && Held(q) == Above(Held(r), b)
    ensures r[0].data + Text(stream, r[0].Last(), b) == Text(stream, a, b)
    ensures r[0].fin || r[0].Last() <= |stream| < b <==> a <= |stream| < b
  {
    Pop(stream, r, a, hi);
    TextConcat(stream, a, r[0].Last(), b);
    forall p: int
      ensures p in Held(r) <==> p in Held(r[1..]) || a <= p < r[0].Last()
    {
      HoldsTail(r, p);
    }
  }

  /** The part of a segment from position `nxt` on, if it reaches below. */
  function From(s: Segment, nxt: int): Segment {
    if s.off < nxt < s.Last() then Segment(nxt, s.data[nxt - s.off..], s.fin) else s
  }

  lemma FromIsCut(stream: seq<byte>, s: Segment, nxt: int)
    requires Cut(stream, s)
    ensures Cut(stream, From(s, nxt)) && From(s, nxt).Last() == s.Last()
    ensures s.TcpLen() > 0 ==> From(s, nxt).TcpLen() > 0
  {
    var r := From(s, nxt);
    assert r.data == stream[r.off..r.End()];
  }

  /** Part of the segment is in sequence, and there is window for it. */
  predicate Continues(s: Segment, nxt: int, wnd: int) {
    s.TcpLen() > 0 && 0 < wnd && s.off <= nxt < s.Last()
  }

  /** The segment lies above rcv_nxt and begins inside the window. */
  predicate IsAhead(s: Segment, nxt: int, wnd: int) {
    s.TcpLen() > 0 && nxt < s.off < nxt + wnd
  }

  /**
   * How a segment moves rcv_nxt from `nxt` to `nxt'` and the queue from `q` to `q'`. In sequence,
   * rcv_nxt becomes the first position that neither the segment, as far as it fits the window,
   * nor the queue contains, and the queue keeps what lies above. Ahead, the segment is stored.
   */
  ghost predicate Taken(s: Segment, alloc: bool, nxt: int, wnd: int, q: seq<Segment>, nxt': int, q': seq<Segment>) {
    if Continues(s, nxt, wnd) then
      var seen := Span(Fit(From(s, nxt), nxt + wnd)) + Held(q);
      FirstGap(seen, nxt, nxt') && Held(q') == Above(seen, nxt')
    else
      nxt' == nxt && if IsAhead(s, nxt, wnd) then Stored(q, s, nxt + wnd, alloc, q') else q' == q
  }

  /** Passing on, position by position: all of the segment inside the window, and all of the queue, and nothing else. */
  lemma PassedOnPositions(s: Segment, alloc: bool, nxt: int, wnd: int, q: seq<Segment>, nxt': int, q': seq<Segment>, p: int)
    requires Taken(s, alloc, nxt, wnd, q, nxt', q') && Continues(s, nxt, wnd) && nxt <= p
    ensures nxt < nxt' && nxt' !in Held(q')
    ensures p < nxt' || p in Held(q') <==> (s.Covers(p) && p < nxt + wnd) || p in Held(q)
  {
    hide Held;
    FitSpan(From(s, nxt), nxt + wnd, p);
    FitSpan(From(s, nxt), nxt + wnd, nxt);
    assert From(s, nxt).Covers(p) <==> s.Covers(p);
    var seen := Span(Fit(From(s, nxt), nxt + wnd)) + Held(q);
    assert nxt in seen;
    assert p in seen <==> (s.Covers(p) && p < nxt + wnd) || p in Held(q);
    assert p in Held(q') <==> p in Above(seen, nxt');
  }

  /** Trimming the first edge changes nothing about what a segment does. */
  lemma TakenFrom(s: Segment, alloc: bool, nxt: int, wnd: int, q: seq<Segment>, nxt': int, q': seq<Segment>)
    requires s.TcpLen() > 0 && 0 <= wnd && Taken(From(s, nxt), alloc, nxt, wnd, q, nxt', q')
    ensures Taken(s, alloc, nxt, wnd, q, nxt', q')
  {
    if s.off < nxt < s.Last() {
      assert From(From(s, nxt), nxt) == From(s, nxt);
    }
  }

  /** The positions a segment brings: those in sequence, or those that are stored out of sequence. */
  ghost function Offered(s: Segment, alloc: bool, nxt: int, wnd: int, q: seq<Segment>): iset<int> {
    if Continues(s, nxt, wnd) then Span(Fit(From(s, nxt), nxt + wnd))
    else if IsAhead(s, nxt, wnd) && alloc && !Ditched(q, s) then Span(Effective(q, s, nxt + wnd))
    else iset{}
  }

  /** The queued positions that storing a segment forgets: behind its start, in the segment trimmed for it. */
  ghost function Forgotten(s: Segment, alloc: bool, nxt: int, wnd: int, q: seq<Segment>): iset<int> {
    if !Continues(s, nxt, wnd) && IsAhead(s, nxt, wnd) && alloc && !Ditched(q, s) then Held(q) - Survivors(q, s)
    else iset{}
  }

  /** What is offered, and what was there and is not forgotten, is passed on or queued. */
  lemma TakenKeeps(s: Segment, alloc: bool, nxt: int, wnd: int, q: seq<Segment>, nxt': int, q': seq<Segment>, p: int)
    requires Taken(s, alloc, nxt, wnd, q, nxt', q')
    ensures p in Offered(s, alloc, nxt, wnd, q) ==> p < nxt' || p in Held(q')
    ensures (p < nxt || p in Held(q)) && p !in Forgotten(s, alloc, nxt, wnd, q) ==> p < nxt' || p in Held(q')
  {
    hide Held, Span, Survivors, Ditched;
  }

  lemma ShorterCut(stream: seq<byte>, s: Segment, n: nat)
    requires Cut(stream, s) && n <= |s.data|
    ensures Cut(stream, Segment(s.off, s.data[..n], false))
  {
    var d, e := s.data[..n], stream[s.off..s.off + n];
    assert |d| == |e| && forall k :: 0 <= k < n ==> d[k] == s.data[k] == e[k];
  }

  lemma BelowMore(s: iset<int>, x: int)
    ensures AllBelow(s, x) ==> AllBelow(s, x + 1)
  {
  }

  /** Behind the FIN nothing can be queued. */
  lemma NothingBehindFin(stream: seq<byte>, q: seq<Segment>, lo: int, hi: int)
    requires Queue(stream, q, lo, hi)
    ensures q != [] ==> lo <= |stream|
  {
    if q != [] {
      assert Cut(stream, q[0]) && q[0].TcpLen() > 0;
    }
  }

  /**
   * Which ACKs go out: one sent at once, if there is memory, and one sent by the tcp_output at the
   * end, if it has something to send and there is memory.
   */
  datatype Acks = Acks(now: bool, later: bool)

  /** Where tcp_receive sends a trimmed segment. */
  datatype Placement = Outside | Next | Ahead

  /** What a state says: our FIN was sent, it was acknowledged, the peer's was received, we closed first. */
  predicate FinSent(st: TcpState) { !st.ESTABLISHED? && !st.CLOSE_WAIT? }
  predicate FinAcked(st: TcpState) { st.FIN_WAIT_2? || st.TIME_WAIT? }
  predicate FinReceived(st: TcpState) { st.CLOSE_WAIT? || st.CLOSING? || st.LAST_ACK? || st.TIME_WAIT? }
  predicate ClosedFirst(st: TcpState) { FinSent(st) && !st.LAST_ACK? }

  /** The state diagram of section 3.2 of RFC 793, by the peer's FIN and the acknowledgement of ours. */
  function NextState(st: TcpState, gotFin: bool, finAcked: bool): TcpState {
    match st
    case ESTABLISHED => if gotFin then CLOSE_WAIT else ESTABLISHED
    case FIN_WAIT_1 =>
      if gotFin then (if finAcked then TIME_WAIT else CLOSING) else if finAcked then FIN_WAIT_2 else FIN_WAIT_1
    case FIN_WAIT_2 => if gotFin then TIME_WAIT else FIN_WAIT_2
    case CLOSING => if finAcked then TIME_WAIT else CLOSING
    case _ => st
  }

  /**
   * A state is those four facts, and a segment adds to them just what it brings: the peer's FIN, and the ACK
   * of ours, which counts only for the side that closed first.
   */
  lemma NextStateFacts(st: TcpState, gotFin: bool, finAcked: bool, r: TcpState)
    ensures r == NextState(st, gotFin, finAcked) <==>
              && FinSent(r) == FinSent(st) && ClosedFirst(r) == ClosedFirst(st)
              && FinReceived(r) == (FinReceived(st) || gotFin)
              && FinAcked(r) == (FinAcked(st) || (ClosedFirst(st) && finAcked))
  {
    match st {
      case ESTABLISHED =>
      case CLOSE_WAIT =>
      case FIN_WAIT_1 =>
      case FIN_WAIT_2 =>
      case CLOSING =>
      case LAST_ACK =>
      case TIME_WAIT =>
    }
  }

  // ------------------------------------------------------------- control block

  class RecvPcb {
    const irs: u32
    const wndMax: int          // TCP_WND
    const mss: int
    const threshold: int       // TCP_WND_UPDATE_THRESHOLD
    const stream: seq<byte>    // what the peer sends, from first byte to FIN

    var state: TcpState
    var rcvNxt: int
    var rcvWnd: int
    var annWnd: int            // rcv_ann_wnd
    var annEdge: int           // rcv_ann_right_edge
    var ooseq: seq<Segment>
    var refused: seq<byte>     // refused_data; empty for NULL
    var refusedFin: bool       // PBUF_FLAG_TCP_FIN on refused_data
    var rxClosed: bool         // TF_RXCLOSED
    var alive: bool            // not yet aborted, reset or freed
    var overran: bool          // an assertion that what is passed on fits rcv_wnd has failed

    // observations
    var delivered: seq<byte>   // accepted by the recv callback
    var eof: bool              // TCP_EVENT_CLOSED raised
    var reported: nat          // sum of the arguments of tcp_recved
    ghost var kept: iset<int>  // positions that arrived and were not forgotten

    /** A synchronised connection: tcp_alloc, then the peer's SYN. */
    constructor (irs: u32, wndMax: int, mss: int, threshold: int, stream: seq<byte>)
      requires 0 < wndMax <= 0xFFFF && 0 < mss <= 0xFFFF
      ensures alive && Regular() && Fresh() && !rxClosed && state.ESTABLISHED?
      ensures this.stream == stream && this.wndMax == wndMax == rcvWnd && rcvNxt == 0
      ensures ooseq == [] && refused == [] && delivered == [] && annEdge == 0
    {
      this.irs, this.wndMax, this.mss, this.threshold, this.stream := irs, wndMax, mss, threshold, stream;
      state, rcvNxt, rcvWnd, annWnd, annEdge := ESTABLISHED, 0, wndMax, wndMax, 0;
      ooseq, refused, refusedFin, rxClosed, alive, overran := [], [], false, false, true, false;
      delivered, eof, reported := [], false, 0;
      kept := iset{};
      new;
      hide Queue, Held, Text, AllBelow;
      StartEmpty(stream, 1, 1 + SPAN, wndMax);
    }

    /** The out-of-sequence queue is in order and strictly above rcv_nxt. */
    ghost predicate QueueOk()
      reads this
    {
      && 0 < wndMax <= 0xFFFF && 0 < mss <= 0xFFFF
      && 0 <= rcvNxt <= |stream| + 1 && 0 <= rcvWnd <= 0xFFFF
      && Queue(stream, ooseq, rcvNxt + 1, rcvNxt + 1 + SPAN)
    }

    ghost predicate Announced()
      reads this
    {
      0 <= annWnd <= rcvWnd && annEdge <= rcvNxt + annWnd
    }

    /** The last announcement is less than half the number space behind. */
    ghost predicate Recent()
      reads this
    {
      rcvNxt + rcvWnd < annEdge + HALF - 0x1_0000
    }

    ghost predicate InWindow()
      reads this
    {
      AllBelow(Held(ooseq), rcvNxt + rcvWnd)
    }

    /** Announcement and queue are as they should be with a peer that stays inside the window, and no assertion on it failed. */
    ghost predicate Sound()
      reads this
    {
      Announced() && InWindow() && !overran
    }

    ghost predicate Healthy()
      reads this
    {
      Sound() && Recent()
    }

    /** The announced edge is less than half the number space, with room for a window, behind rcv_nxt. */
    predicate Fresh()
      reads this
    {
      rcvNxt + SPAN < annEdge + HALF
    }

    /** The least gain that is worth announcing. */
    function Step(): int { Min(wndMax / 2, mss) }

    /** The announcement is what tcp_update_rcv_ann_wnd makes it. */
    ghost predicate Fair()
      reads this
    {
      annWnd == FairWindow(rcvNxt, rcvNxt + rcvWnd, annEdge, Step())
    }

    /** tcp_update_rcv_ann_wnd. */
    method UpdateAnnouncedWindow() returns (inflation: int)
      requires 0 <= rcvWnd <= 0xFFFF && 0 < mss <= 0xFFFF && 0 < wndMax <= 0xFFFF
      modifies this`annWnd
      ensures annEdge <= rcvNxt + rcvWnd && Recent() ==>
                && Announced()
                && annWnd == FairWindow(rcvNxt, rcvNxt + rcvWnd, annEdge, Step())
                && inflation == (if rcvNxt + rcvWnd - annEdge >= Step() then rcvNxt + rcvWnd - annEdge else 0)
    {
      var step := Step();
      if annEdge <= rcvNxt + rcvWnd && Recent() {
        AnnounceNeverShrinks(irs, rcvNxt, rcvWnd, annEdge, step);
      }
      annWnd := AnnounceableWindow(irs, rcvNxt, rcvWnd, annEdge, step);
      inflation := WindowInflation(irs, rcvNxt, rcvWnd, annEdge, step);
    }

    /** rcv_nxt, rcv_wnd and the announcement after consuming `n` positions. */
    method Consume(n: nat)
      requires 0 <= rcvWnd <= 0xFFFF && 0 < mss <= 0xFFFF && 0 < wndMax <= 0xFFFF
      modifies this`overran, this`rcvNxt, this`rcvWnd, this`annWnd
      ensures rcvNxt == old(rcvNxt) + n && rcvWnd == (old(rcvWnd) - n) % 0x1_0000 && overran == (old(overran) || n > old(rcvWnd))
      ensures old(Announced() && Recent()) && n <= old(rcvWnd) ==> Announced() && Recent() && Fair()
    {
      overran := overran || n > rcvWnd;
      rcvNxt := rcvNxt + n;
      rcvWnd := (rcvWnd - n) % 0x1_0000;
      var inflation := UpdateAnnouncedWindow();
    }

    /** One turn of the loop: pass on the first queued segment. */
    method TakeFirst() returns (text: seq<byte>, fin: bool)
      requires 0 <= rcvWnd <= 0xFFFF && 0 < mss <= 0xFFFF && 0 < wndMax <= 0xFFFF
      requires ooseq != [] && ooseq[0].off == rcvNxt
      modifies this`overran, this`rcvNxt, this`rcvWnd, this`annWnd, this`ooseq, this`state
      ensures ooseq == old(ooseq)[1..] && rcvNxt == old(ooseq)[0].Last()
      ensures text == old(ooseq)[0].data && fin == old(ooseq)[0].fin
      ensures state == if fin && old(state).ESTABLISHED? then CLOSE_WAIT else old(state)
      ensures 0 <= rcvWnd <= 0xFFFF
      ensures rcvNxt <= old(rcvNxt + rcvWnd) ==> rcvNxt + rcvWnd == old(rcvNxt + rcvWnd) && overran == old(overran)
      ensures old(Announced() && Recent()) && rcvNxt <= old(rcvNxt + rcvWnd) ==> Announced() && Recent() && Fair()
    {
      var cseg := ooseq[0];
      Consume(cseg.TcpLen());
      text, fin := cseg.data, cseg.fin;
      if fin && state.ESTABLISHED? {
        state := CLOSE_WAIT;
      }
      ooseq := ooseq[1..];
    }

    /** Pass on the queued segments that have come into sequence. */
    method Drain(ghost hi: int) returns (more: seq<byte>, fin: bool)
      requires 0 <= rcvWnd <= 0xFFFF && 0 < mss <= 0xFFFF && 0 < wndMax <= 0xFFFF
      requires 0 <= rcvNxt <= |stream| + 1 && Queue(stream, ooseq, rcvNxt, hi) && hi <= rcvNxt + 1 + SPAN
      modifies this`overran, this`rcvNxt, this`rcvWnd, this`annWnd, this`ooseq, this`state
      ensures QueueOk()
      ensures FirstGap(old(Held(ooseq)), old(rcvNxt), rcvNxt)
      ensures Held(ooseq) == Above(old(Held(ooseq)), rcvNxt)
      ensures more == Text(stream, old(rcvNxt), rcvNxt)
      ensures fin <==> old(rcvNxt) <= |stream| < rcvNxt
      ensures state == if fin && old(state).ESTABLISHED? then CLOSE_WAIT else old(state)
      ensures old(Healthy()) ==>
                Healthy() && rcvNxt + rcvWnd == old(rcvNxt + rcvWnd) && (old(Fair()) ==> Fair())
    {
      more, fin := [], false;
      ghost var q0, nxt0, edge := ooseq, rcvNxt, rcvNxt + rcvWnd;
      while ooseq != [] && Wire(irs + ooseq[0].off) == Wire(irs + rcvNxt)
        invariant Drained(stream, q0, nxt0, ooseq, rcvNxt, hi, more, fin) && 0 <= rcvWnd <= 0xFFFF
        invariant state == if fin && old(state).ESTABLISHED? then CLOSE_WAIT else old(state)
        invariant old(Announced() && Recent()) && AllBelow(Held(q0), edge) ==>
                    && Announced() && Recent() && rcvNxt + rcvWnd == edge && overran == old(overran)
                    && (old(Fair()) ==> Fair())
        decreases |ooseq|
      {
        WireCompare(irs + ooseq[0].off, irs + rcvNxt);
        DrainOne(stream, q0, nxt0, ooseq, rcvNxt, hi, more, fin);
        var text, f := TakeFirst();
        more, fin := more + text, fin || f;
      }
      if ooseq != [] {
        WireCompare(irs + ooseq[0].off, irs + rcvNxt);
      }
      DrainEnds(stream, q0, nxt0, ooseq, rcvNxt, hi, more, fin);
    }

    /**
     * Cut an in-sequence segment at the window edge and merge it with the queue: what it
     * covers is removed, a FIN found there is taken over, and its end is trimmed to what remains.
     */
    method MergeInSequence(s: Segment) returns (r: seq<Segment>)
      requires QueueOk() && 0 < rcvWnd
      requires s.off == rcvNxt && Cut(stream, s) && s.TcpLen() > 0
      ensures Queue(stream, r, rcvNxt, rcvNxt + 1 + SPAN) && r != [] && r[0].off == rcvNxt
      ensures Held(r) == Span(Fit(s, rcvNxt + rcvWnd)) + Held(ooseq)
      ensures InWindow() ==> AllBelow(Held(r), rcvNxt + rcvWnd)
    {
      var e := s;
      if s.TcpLen() > rcvWnd {
        // the other end overran the receive window: the FIN goes with the trimmed positions
        e := Segment(s.off, s.data[..rcvWnd], false);
        ShorterCut(stream, s, rcvWnd);
      }
      assert e == Fit(s, rcvNxt + rcvWnd);
      r := OosInsertSegment(irs, e, ooseq, stream, rcvNxt + 1 + SPAN);
    }

    /** Pass on the merged segment and then whatever has come into sequence behind it. */
    method PassOn(r: seq<Segment>) returns (text: seq<byte>, fin: bool)
      requires QueueOk()
      requires Queue(stream, r, rcvNxt, rcvNxt + 1 + SPAN) && r != [] && r[0].off == rcvNxt
      modifies this`overran, this`rcvNxt, this`rcvWnd, this`annWnd, this`ooseq, this`state
      ensures QueueOk()
      ensures FirstGap(Held(r), old(rcvNxt), rcvNxt) && Held(ooseq) == Above(Held(r), rcvNxt)
      ensures text == Text(stream, old(rcvNxt), rcvNxt)
      ensures fin <==> old(rcvNxt) <= |stream| < rcvNxt
      ensures state == old(state) || (fin && old(state).ESTABLISHED? && state.CLOSE_WAIT?)
      ensures old(Announced() && Recent() && !overran) && AllBelow(Held(r), old(rcvNxt + rcvWnd)) ==>
                Healthy() && rcvNxt + rcvWnd == old(rcvNxt + rcvWnd) && Fair()
    {
      hide Queue, Held, Text;
      ghost var hi, nxt0 := rcvNxt + 1 + SPAN, rcvNxt;
      FirstOf(stream, r, rcvNxt, hi, rcvNxt + rcvWnd);
      ooseq := r[1..];
      Consume(r[0].TcpLen());
      var more, f := Drain(hi);
      text, fin := r[0].data + more, r[0].fin || f;
      DrainAfterFirst(stream, r, nxt0, hi, ooseq, rcvNxt);
    }

    /**
     * A segment that begins at rcv_nxt. Afterwards rcv_nxt is the first position that
     * neither this segment, as far as it fits the window, nor the queue contains.
     */
    method InSequence(s: Segment) returns (text: seq<byte>, fin: bool)
      requires QueueOk() && 0 < rcvWnd
      requires s.off == rcvNxt && Cut(stream, s) && s.TcpLen() > 0
      modifies this`overran, this`rcvNxt, this`rcvWnd, this`annWnd, this`ooseq, this`state
      ensures QueueOk()
      ensures var seen := Span(Fit(s, old(rcvNxt + rcvWnd))) + old(Held(ooseq));
              FirstGap(seen, old(rcvNxt), rcvNxt) && Held(ooseq) == Above(seen, rcvNxt)
      ensures text == Text(stream, old(rcvNxt), rcvNxt)
      ensures fin <==> old(rcvNxt) <= |stream| < rcvNxt
      ensures state == old(state) || (fin && old(state).ESTABLISHED? && state.CLOSE_WAIT?)
      ensures old(Healthy()) ==>
                Healthy() && rcvNxt + rcvWnd == old(rcvNxt + rcvWnd) && Fair()
    {
      var r := MergeInSequence(s);
      text, fin := PassOn(r);
    }

    /** tcp_send_empty_ack: if there is memory for a header, the window is announced. */
    method SendEmptyAck(mem: bool)
      modifies this`annEdge
      ensures annEdge == if mem then rcvNxt + annWnd else old(annEdge)
      ensures old(Announced()) ==> Announced() && old(annEdge) <= annEdge <= rcvNxt + rcvWnd
      ensures old(Announced() && Recent()) ==> Recent()
    {
      if mem {
        annEdge := rcvNxt + annWnd;
      }
    }

    /** The segment comes from the peer, a bare ACK from anywhere, and its sequence number is not ambiguous. */
    predicate Arrives(s: Segment)
      reads this
    {
      && (Cut(stream, s) || s.TcpLen() == 0) && |s.data| < 0xFFFF
      && -HALF + 2 * SPAN < s.off - rcvNxt < HALF - 2 * SPAN
    }

    /** The assertion of tcp_receive on a segment whose first edge has to be trimmed. */
    predicate Asserted(s: Segment)
      reads this
    {
      state.Receiving() && s.off < rcvNxt < s.Last() ==> rcvNxt - s.off < 0x7FFF
    }

    /** The first edge of a segment that reaches below rcv_nxt is trimmed, on pbufs as in FirstEdge. */
    method TrimFirstEdge(s: Segment) returns (r: Segment)
      requires QueueOk() && Arrives(s) && s.TcpLen() > 0 && state.Receiving() && Asserted(s)
      ensures r == From(s, rcvNxt)
    {
      r := s;
      WireBetween(irs + rcvNxt, irs + s.off + 1, irs + s.Last() - 1);
      if Between(Wire(irs + rcvNxt), Wire(irs + s.off + 1), Wire(irs + s.Last() - 1)) {
        WireDistance(irs + rcvNxt, irs + s.off);
        var off := Sub(Wire(irs + rcvNxt), Wire(irs + s.off));
        assert off < 0x7FFF;
        r := Segment(rcvNxt, s.data[off..], s.fin);
      }
    }

    /** The two window tests of tcp_receive. */
    method Place(s: Segment) returns (p: Placement)
      requires 0 <= rcvWnd <= 0xFFFF && -HALF + SPAN < s.off - rcvNxt < HALF - SPAN
      ensures p == if !(rcvNxt <= s.off < rcvNxt + rcvWnd) then Outside else if s.off == rcvNxt then Next else Ahead
    {
      WireBetween(irs + s.off, irs + rcvNxt, irs + rcvNxt + rcvWnd - 1);
      WireCompare(irs + rcvNxt, irs + s.off);
      if !Between(Wire(irs + s.off), Wire(irs + rcvNxt), Wire(irs + rcvNxt + rcvWnd - 1)) {
        return Outside;
      }
      return if Wire(irs + rcvNxt) == Wire(irs + s.off) then Next else Ahead;
    }

    /** A segment that begins above rcv_nxt but inside the window is acknowledged and queued. */
    method OutOfOrder(s: Segment, alloc: bool, mem: bool)
      requires QueueOk()
      requires Cut(stream, s) && 0 < s.TcpLen() <= 0xFFFF && rcvNxt < s.off < rcvNxt + rcvWnd
      modifies this`annEdge, this`ooseq
      ensures QueueOk() && Stored(old(ooseq), s, rcvNxt + rcvWnd, alloc, ooseq)
      ensures annEdge == if mem then rcvNxt + annWnd else old(annEdge)
      ensures old(Announced() && Recent()) ==> Announced() && Recent() && old(annEdge) <= annEdge
      ensures old(InWindow()) && s.Last() <= rcvNxt + rcvWnd ==> InWindow()
    {
      hide Stored, Queue, Held, AllBelow;
      SendEmptyAck(mem);
      var r := Enqueue(irs, ooseq, s, rcvNxt + rcvWnd, alloc, stream, rcvNxt + 1);
      StoredInWindow(ooseq, s, rcvNxt + rcvWnd, alloc, r);
      ooseq := r;
    }

    /** tcp_receive for a segment whose first edge has been trimmed. */
    method ReceiveTrimmed(s: Segment, alloc: bool, mem: bool) returns (text: seq<byte>, fin: bool)
      requires QueueOk() && Cut(stream, s) && 0 < s.TcpLen() <= 0xFFFF && From(s, rcvNxt) == s
      requires -HALF + SPAN < s.off - rcvNxt < HALF - SPAN
      modifies this`overran, this`rcvNxt, this`rcvWnd, this`annWnd, this`annEdge, this`ooseq, this`state
      ensures QueueOk() && old(rcvNxt) <= rcvNxt
      ensures text == Text(stream, old(rcvNxt), rcvNxt)
      ensures fin <==> old(rcvNxt) <= |stream| < rcvNxt
      ensures state == old(state) || (fin && old(state).ESTABLISHED? && state.CLOSE_WAIT?)
      ensures Taken(s, alloc, old(rcvNxt), old(rcvWnd), old(ooseq), rcvNxt, ooseq)
      ensures rcvNxt == old(rcvNxt) ==> annWnd == old(annWnd)
      ensures annEdge == if mem && old(!Continues(s, rcvNxt, rcvWnd)) then rcvNxt + annWnd else old(annEdge)
      ensures old(Healthy()) && s.Last() <= old(rcvNxt + rcvWnd) ==>
                && Healthy() && rcvNxt + rcvWnd == old(rcvNxt + rcvWnd) && old(annEdge) <= annEdge
                && (rcvNxt > old(rcvNxt) ==> annWnd == FairWindow(rcvNxt, old(rcvNxt + rcvWnd), old(annEdge), Step()))
    {
      hide Queue, Held, AllBelow, FirstGap, Stored;
      text, fin := [], false;
      var p := Place(s);
      match p {
        case Next => text, fin := InSequence(s);
        case Ahead => OutOfOrder(s, alloc, mem);
        case Outside => SendEmptyAck(mem);
      }
    }

    /** A segment with data or FIN of which nothing is passed on is answered with an ACK at once. */
    predicate AnsweredAtOnce(s: Segment)
      reads this
    {
      state.Receiving() && s.TcpLen() > 0 && !Continues(s, rcvNxt, rcvWnd)
    }

    /**
     * The data part of tcp_receive; `alloc` says whether a copy for the queue can be allocated, and
     * `mem` whether there is memory for an ACK.
     */
    method Receive(inseg: Segment, alloc: bool, mem: bool) returns (text: seq<byte>, fin: bool)
      requires QueueOk() && Arrives(inseg) && Asserted(inseg)
      modifies this`overran, this`rcvNxt, this`rcvWnd, this`annWnd, this`annEdge, this`ooseq, this`state
      ensures QueueOk() && old(rcvNxt) <= rcvNxt
      ensures text == Text(stream, old(rcvNxt), rcvNxt)
      ensures fin <==> old(rcvNxt) <= |stream| < rcvNxt
      ensures state == old(state) || (fin && old(state).ESTABLISHED? && state.CLOSE_WAIT?)
      ensures inseg.TcpLen() == 0 ==> rcvNxt == old(rcvNxt)
      ensures if old(state).Receiving() then Taken(inseg, alloc, old(rcvNxt), old(rcvWnd), old(ooseq), rcvNxt, ooseq)
              else rcvNxt == old(rcvNxt) && ooseq == old(ooseq)
      ensures rcvNxt == old(rcvNxt) ==> annWnd == old(annWnd)
      ensures annEdge == if mem && old(AnsweredAtOnce(inseg)) then rcvNxt + annWnd else old(annEdge)
      ensures old(Healthy()) && inseg.Last() <= old(rcvNxt + rcvWnd) ==>
                && Healthy() && rcvNxt + rcvWnd == old(rcvNxt + rcvWnd) && old(annEdge) <= annEdge
                && (rcvNxt > old(rcvNxt) ==> annWnd == FairWindow(rcvNxt, old(rcvNxt + rcvWnd), old(annEdge), Step()))
    {
      text, fin := [], false;
      if inseg.TcpLen() > 0 && state.Receiving() {
        var s := TrimFirstEdge(inseg);
        FromIsCut(stream, inseg, rcvNxt);
        ghost var nxt, wnd, q := rcvNxt, rcvWnd, ooseq;
        text, fin := ReceiveTrimmed(s, alloc, mem);
        TakenFrom(inseg, alloc, nxt, wnd, q, rcvNxt, ooseq);
      }
    }

    /**
     * The reassembly invariant. What the application accepted, followed by what it refused, is the
     * stream up to rcv_nxt; the end of the stream is signalled, or waits behind the refused data,
     * exactly when the FIN has been received.
     */
    ghost predicate Valid()
      reads this
    {
      && QueueOk()
      && delivered + refused == Text(stream, 0, rcvNxt)
      && (state.Receiving() <==> rcvNxt <= |stream|)
      && (rcvNxt == |stream| + 1 <==> eof || refusedFin)
      && (refusedFin ==> refused != [] && !eof)
      && (eof ==> refused == [])
      && KeptOk()
    }

    /** Whatever arrived and was not forgotten has been passed on or is queued. */
    ghost predicate KeptOk()
      reads this`kept, this`rcvNxt, this`ooseq
    {
      forall p :: p in kept ==> p < rcvNxt || p in Held(ooseq)
    }

    /** Everything before `x` arrived and was not forgotten. */
    ghost predicate AllKept(x: int)
      reads this
    {
      forall p :: 0 <= p < x ==> p in kept
    }

    /** Delivery: rcv_nxt is beyond everything that has arrived without a gap. */
    lemma KeptIsPassedOn(x: int)
      requires Valid() && AllKept(x)
      ensures x <= rcvNxt
    {
      if rcvNxt < x {
        assert rcvNxt in kept;
        NotQueued();
      }
    }

    lemma NotQueued()
      requires QueueOk()
      ensures rcvNxt !in Held(ooseq)
    {
    }

    /** tcp_slowtmr drops what an idle connection has queued out of sequence, and pbuf_free_ooseq does when pbufs run out. */
    method DropQueue()
      requires Valid()
      modifies this`ooseq, this`kept
      ensures Valid() && ooseq == [] && kept == old(kept - Held(ooseq)) && (old(Sound()) ==> Sound())
    {
      hide Queue, Held, AllBelow, Text;
      StartEmpty(stream, rcvNxt + 1, rcvNxt + 1 + SPAN, rcvNxt + rcvWnd);
      kept := kept - Held(ooseq);
      ooseq := [];
    }

    /** Window conservation: what is neither free window nor reported as read is held by the application or refused. */
    ghost predicate Conserved()
      reads this
    {
      && reported <= |delivered|
      && rcvWnd + (|delivered| + |refused| - reported) + (if refusedFin then 1 else 0) == wndMax
    }

    /** TCP_EVENT_CLOSED, giving back the position of the FIN, for which the application will not call tcp_recved. */
    method SignalEof()
      modifies this`rcvWnd, this`eof
      ensures eof && rcvWnd == if old(rcvWnd) != wndMax then (old(rcvWnd) + 1) % 0x1_0000 else wndMax
    {
      if rcvWnd != wndMax {
        rcvWnd := (rcvWnd + 1) % 0x1_0000;
      }
      eof := true;
    }

    /** tcp_process_refused_data; `accept` is the answer of the recv callback. */
    method ProcessRefused(accept: bool)
      requires Valid() && refused != []
      modifies this`refused, this`refusedFin, this`delivered, this`rcvWnd, this`eof
      ensures Valid()
      ensures delivered == if accept then old(delivered + refused) else old(delivered)
      ensures refused == if accept then [] else old(refused)
      ensures eof == (accept && old(refusedFin)) && (!old(refusedFin) ==> rcvWnd == old(rcvWnd))
      ensures old(Conserved()) ==> Conserved()
      ensures old(Sound() && Conserved()) ==> Sound()
    {
      if accept {
        delivered := delivered + refused;
        refused := [];
        if refusedFin {
          refusedFin := false;
          SignalEof();
        }
      }
    }

    /** The treatment of refused data at the beginning of tcp_input. */
    method RetryRefused(again: bool)
      requires Valid()
      modifies this`refused, this`refusedFin, this`delivered, this`rcvWnd, this`eof
      ensures Valid()
      ensures delivered == if again then old(delivered + refused) else old(delivered)
      ensures refused == if again then [] else old(refused)
      ensures state.Receiving() ==> rcvWnd == old(rcvWnd)
      ensures old(Conserved()) ==> Conserved()
      ensures old(Sound() && Conserved()) ==> Sound()
      ensures !again ==> eof == old(eof)
    {
      assert delivered + [] == delivered;
      if refused != [] {
        ProcessRefused(again);
      }
    }

    /** tcp_pcb_purge, as far as the receive side goes: refused data and the queue are freed. */
    method Purge()
      modifies this`refused, this`refusedFin, this`ooseq
      ensures refused == [] && !refusedFin && ooseq == []
    {
      refused, refusedFin, ooseq := [], false, [];
    }

    /**
     * tcp_process after tcp_receive: the FIN moves the connection on, and entering TIME_WAIT purges it.
     * `finAcked`: the segment acknowledges our FIN; `closed`: TF_CLOSED.
     */
    method StateAfterReceive(gotFin: bool, finAcked: bool) returns (closed: bool)
      modifies this`state, this`refused, this`refusedFin, this`ooseq
      ensures state == NextState(old(state), gotFin, finAcked)
      ensures closed <==> old(state).LAST_ACK? && finAcked
      ensures if state.TIME_WAIT? && !old(state).TIME_WAIT? then refused == [] && !refusedFin && ooseq == []
              else unchanged(`refused, `refusedFin, `ooseq)
    {
      closed := false;
      match state {
        case ESTABLISHED | CLOSE_WAIT =>
          if gotFin {
            state := CLOSE_WAIT;
          }
        case FIN_WAIT_1 =>
          if gotFin {
            if finAcked {
              Purge();
              state := TIME_WAIT;
            } else {
              state := CLOSING;
            }
          } else if finAcked {
            state := FIN_WAIT_2;
          }
        case FIN_WAIT_2 =>
          if gotFin {
            Purge();
            state := TIME_WAIT;
          }
        case CLOSING =>
          if finAcked {
            Purge();
            state := TIME_WAIT;
          }
        case LAST_ACK =>
          closed := finAcked;
        case TIME_WAIT =>
      }
    }

    /**
     * What tcp_process does: it passes on `text`, the stream between the old and the new rcv_nxt, moves the
     * connection on by the FIN, and frees refused data on entering TIME_WAIT.
     */
    twostate predicate Moved(s: Segment, alloc: bool, mem: bool, finAcked: bool, text: seq<byte>, fin: bool, closed: bool)
      reads this
    {
      && QueueOk() && 0 <= old(rcvNxt) <= rcvNxt && (state.Receiving() <==> rcvNxt <= |stream|)
      && text == Text(stream, old(rcvNxt), rcvNxt)
      && (fin <==> old(rcvNxt) <= |stream| < rcvNxt)
      && (s.TcpLen() == 0 ==> rcvNxt == old(rcvNxt))
      && (if old(state).Receiving() then Taken(s, alloc, old(rcvNxt), old(rcvWnd), old(ooseq), rcvNxt, ooseq)
          else rcvNxt == old(rcvNxt) && ooseq == old(ooseq))
      && (closed <==> old(state).LAST_ACK? && finAcked)
      && (if state.TIME_WAIT? then refused == [] && !refusedFin else unchanged(`refused, `refusedFin))
      && state == NextState(old(state), fin, finAcked)
      && (rcvNxt == old(rcvNxt) ==> annWnd == old(annWnd))
      && annEdge == (if mem && old(AnsweredAtOnce(s)) then rcvNxt + annWnd else old(annEdge))
      && (old(Healthy()) && s.Last() <= old(rcvNxt + rcvWnd) ==>
            && Sound() && rcvNxt + rcvWnd == old(rcvNxt + rcvWnd) && old(annEdge) <= annEdge
            && (rcvNxt > old(rcvNxt) ==> annWnd == FairWindow(rcvNxt, old(rcvNxt + rcvWnd), old(annEdge), Step())))
    }

    /** tcp_process for a segment without SYN or RST. */
    method Process(s: Segment, alloc: bool, mem: bool, finAcked: bool) returns (text: seq<byte>, fin: bool, closed: bool)
      requires QueueOk() && Arrives(s) && Asserted(s) && (state.Receiving() <==> rcvNxt <= |stream|) && !state.TIME_WAIT?
      modifies this`overran, this`rcvNxt, this`rcvWnd, this`annWnd, this`annEdge, this`ooseq, this`state, this`refused, this`refusedFin
      ensures Moved(s, alloc, mem, finAcked, text, fin, closed)
    {
      hide Taken, Queue, Text, Held, AllBelow, FirstGap, Stored;
      text, fin := Receive(s, alloc, mem);
      if rcvNxt == |stream| + 1 {
        NothingBehindFin(stream, ooseq, rcvNxt + 1, rcvNxt + 1 + SPAN);
      }
      closed := StateAfterReceive(fin, finAcked);
    }

    /** The end of tcp_input: offer new data to the application, then signal or postpone the end of the stream. */
    method HandOff(text: seq<byte>, fin: bool, accept: bool)
      requires text != [] || fin ==> refused == [] && !refusedFin && !eof
      modifies this`refused, this`refusedFin, this`delivered, this`rcvWnd, this`eof, this`alive
      ensures text != [] && rxClosed ==> !alive && unchanged(`refused, `refusedFin, `delivered, `rcvWnd, `eof)
      ensures text == [] && !fin ==> unchanged(this)
      ensures (text != [] || fin) && (text == [] || !rxClosed) ==>
        && alive == old(alive)
        && delivered == (if accept then old(delivered) + text else old(delivered))
        && refused == (if accept then [] else text)
        && refusedFin == (fin && refused != []) && eof == (fin && refused == [])
        && rcvWnd == if eof && old(rcvWnd) != wndMax then (old(rcvWnd) + 1) % 0x1_0000 else old(rcvWnd)
    {
      if text != [] {
        if rxClosed {
          // received data although already closed: tcp_abort
          alive := false;
          return;
        }
        if accept {
          delivered := delivered + text;
        } else {
          refused := text;
        }
      }
      if fin {
        if refused != [] {
          refusedFin := true;
        } else {
          SignalEof();
        }
      }
    }

    /** Between tcp_process and the hand-off: `lost` has been freed, `text` is still to be offered. */
    ghost predicate Waiting(lost: seq<byte>, text: seq<byte>, fin: bool)
      reads this
    {
      && QueueOk() && KeptOk() && (state.Receiving() <==> rcvNxt <= |stream|)
      && |delivered + lost + refused + text| == |Text(stream, 0, rcvNxt)|
      && (lost == [] ==> delivered + refused + text == Text(stream, 0, rcvNxt))
      && (lost != [] || text != [] || fin ==> refused == [] && !refusedFin && !eof)
      && (lost != [] ==> text == [] && !fin)
      && (lost == [] ==> (rcvNxt == |stream| + 1 <==> eof || refusedFin || fin))
      && (refusedFin ==> refused != [] && !eof) && (eof ==> refused == [])
    }

    /** Window conservation there. */
    ghost predicate Owed(text: seq<byte>, fin: bool)
      reads this
    {
      && reported <= |delivered|
      && rcvWnd + (|delivered| + |refused| + |text| - reported) + (if refusedFin || fin then 1 else 0) == wndMax
    }

    /** The hand-off completes reassembly and conservation, if nothing was lost. */
    method Offer(text: seq<byte>, fin: bool, accept: bool, ghost lost: seq<byte>)
      requires Waiting(lost, text, fin) && alive
      modifies this`refused, this`refusedFin, this`delivered, this`rcvWnd, this`eof, this`alive
      ensures alive <==> !(text != [] && rxClosed)
      ensures alive ==> (Valid() <==> lost == [])
      ensures delivered == if alive && accept then old(delivered) + text else old(delivered)
      ensures alive ==> refused == if text != [] && !accept then text else old(refused)
      ensures text == [] && !fin ==> eof == old(eof)
      ensures alive && lost == [] && old(Owed(text, fin)) ==> Conserved()
      ensures fin ==> old(rcvWnd) < 0xFFFF ==> old(rcvWnd) <= rcvWnd <= old(rcvWnd) + 1
      ensures !fin ==> rcvWnd == old(rcvWnd)
    {
      hide Queue, Text, Held, KeptOk;
      HandOff(text, fin, accept);
    }

    /** Segments that are in or ahead of sequence leave their mark on what has arrived. */
    ghost function KeptWith(s: Segment, alloc: bool): iset<int>
      reads this
    {
      if state.Receiving() then kept - Forgotten(s, alloc, rcvNxt, rcvWnd, ooseq) + Offered(s, alloc, rcvNxt, rcvWnd, ooseq)
      else kept
    }

    /** tcp_process, and the account of what has arrived. */
    method ProcessKept(s: Segment, alloc: bool, mem: bool, finAcked: bool) returns (text: seq<byte>, fin: bool, closed: bool)
      requires QueueOk() && KeptOk() && Arrives(s) && Asserted(s)
      requires (state.Receiving() <==> rcvNxt <= |stream|) && !state.TIME_WAIT?
      modifies this`overran, this`rcvNxt, this`rcvWnd, this`annWnd, this`annEdge, this`ooseq, this`state,
               this`refused, this`refusedFin, this`kept
      ensures KeptOk() && kept == old(KeptWith(s, alloc)) && Moved(s, alloc, mem, finAcked, text, fin, closed)
    {
      hide Taken, Queue, Text, Held, AllBelow, FirstGap, Stored, Forgotten, Offered;
      ghost var nxt0, wnd0, q0, receiving := rcvNxt, rcvWnd, ooseq, state.Receiving();
      ghost var kept1 := KeptWith(s, alloc);
      text, fin, closed := Process(s, alloc, mem, finAcked);
      if receiving {
        forall p | p in kept1
          ensures p < rcvNxt || p in Held(ooseq)
        {
          TakenKeeps(s, alloc, nxt0, wnd0, q0, rcvNxt, ooseq, p);
        }
      }
      kept := kept1;
    }

    /** What tcp_input does behind the treatment of refused data. */
    twostate predicate HandedOff(s: Segment, alloc: bool, accept: bool, finAcked: bool)
      reads this
    {
      && 0 <= old(rcvNxt) <= rcvNxt
      && (alive <==> !(old(state).LAST_ACK? && finAcked) && !(rxClosed && Text(stream, old(rcvNxt), rcvNxt) != []))
      && (alive ==> (Valid() <==> !(old(state).CLOSING? && finAcked && old(refused) != [])))
      && rxClosed == old(rxClosed) && reported == old(reported)
      && (if old(state).Receiving() then Taken(s, alloc, old(rcvNxt), old(rcvWnd), old(ooseq), rcvNxt, ooseq)
          else rcvNxt == old(rcvNxt) && ooseq == old(ooseq))
      && (s.TcpLen() == 0 ==> rcvNxt == old(rcvNxt))
      && kept == old(KeptWith(s, alloc))
      && delivered == old(delivered) + (if alive && accept then Text(stream, old(rcvNxt), rcvNxt) else [])
      && (alive ==> refused == if rcvNxt > old(rcvNxt) then (if accept then [] else Text(stream, old(rcvNxt), rcvNxt))
                               else if state.TIME_WAIT? then [] else old(refused))
      && (rcvNxt == old(rcvNxt) ==> eof == old(eof) && annWnd == old(annWnd))
      && state == NextState(old(state), old(rcvNxt) <= |stream| < rcvNxt, finAcked)
    }

    /** tcp_process brings the connection to where the hand-off takes over. */
    method ProcessToOffer(s: Segment, alloc: bool, mem: bool, finAcked: bool)
      returns (text: seq<byte>, fin: bool, closed: bool, ghost lost: seq<byte>)
      requires Valid() && Arrives(s) && Asserted(s) && !state.TIME_WAIT? && (s.TcpLen() > 0 ==> refused == [])
      modifies this`overran, this`rcvNxt, this`rcvWnd, this`annWnd, this`annEdge, this`ooseq, this`state,
               this`refused, this`refusedFin, this`kept
      ensures Moved(s, alloc, mem, finAcked, text, fin, closed) && kept == old(KeptWith(s, alloc)) && Waiting(lost, text, fin)
      ensures lost != [] <==> old(state).CLOSING? && finAcked && old(refused) != []
      ensures old(Healthy() && Conserved()) && s.Last() <= old(rcvNxt + rcvWnd) && lost == [] ==> Owed(text, fin)
    {
      hide Taken, Queue, Held, AllBelow, FirstGap, Stored, KeptWith, KeptOk, Text;
      ghost var nxt0, refused0 := rcvNxt, refused;
      text, fin, closed := ProcessKept(s, alloc, mem, finAcked);
      TextConcat(stream, 0, nxt0, rcvNxt);
      TextLength(stream, nxt0, rcvNxt);
      lost := if state.TIME_WAIT? then refused0 else [];
    }

    /** The part of tcp_input behind the treatment of refused data. */
    method ProcessAndHandOff(s: Segment, alloc: bool, mem: bool, accept: bool, finAcked: bool)
      requires alive && Valid() && Arrives(s) && Asserted(s) && !state.TIME_WAIT? && (s.TcpLen() > 0 ==> refused == [])
      modifies this
      ensures HandedOff(s, alloc, accept, finAcked)
      ensures annEdge == if mem && old(AnsweredAtOnce(s)) then rcvNxt + annWnd else old(annEdge)
      ensures alive && old(Healthy()) && s.Last() <= old(rcvNxt + rcvWnd) ==>
                && Announced() && old(annEdge) <= annEdge && rcvNxt <= old(rcvNxt + rcvWnd)
                && (rcvNxt > old(rcvNxt) ==> annWnd == FairWindow(rcvNxt, old(rcvNxt + rcvWnd), old(annEdge), Step()))
                && (old(Conserved()) && Valid() ==> Conserved() && Sound())
    {
      hide Taken, Queue, Held, AllBelow, FirstGap, Stored, KeptWith, KeptOk, Text, Waiting, Owed;
      ghost var nxt0 := rcvNxt;
      var text, fin, closed;
      ghost var lost;
      text, fin, closed, lost := ProcessToOffer(s, alloc, mem, finAcked);
      BelowMore(Held(ooseq), rcvNxt + rcvWnd);
      TextLength(stream, nxt0, rcvNxt);
      if closed {
        // TF_CLOSED: the pcb is freed
        alive := false;
      } else {
        Offer(text, fin, accept, lost);
      }
    }

    /** All that holds between calls with an honest application and a peer that stays inside the window. */
    ghost predicate Regular()
      reads this
    {
      Valid() && Sound() && Conserved()
    }

    /** The segment gets as far as tcp_process: refused data does not stop it. */
    predicate Processed(s: Segment, again: bool)
      reads this
    {
      !state.TIME_WAIT? && (refused == [] || again || s.TcpLen() == 0)
    }

    /** The ACK of our FIN ends a connection whose application still refuses data: the data is freed. */
    predicate FreesRefused(s: Segment, again: bool, finAcked: bool)
      reads this
    {
      (state.CLOSING? || state.LAST_ACK?) && finAcked && refused != [] && !again && s.TcpLen() == 0
    }

    /** The same with the tcp_output at the end. */
    method ProcessAndAnswer(s: Segment, alloc: bool, acks: Acks, accept: bool, finAcked: bool)
      requires alive && Valid() && Arrives(s) && Asserted(s) && !state.TIME_WAIT? && (s.TcpLen() > 0 ==> refused == [])
      modifies this
      ensures HandedOff(s, alloc, accept, finAcked)
      ensures alive && old(Regular() && Fresh()) && s.Last() <= old(rcvNxt + rcvWnd) && Valid() ==>
                && Regular() && old(annEdge) <= annEdge && rcvNxt <= old(rcvNxt + rcvWnd)
                && (rcvNxt > old(rcvNxt) ==> annWnd == FairWindow(rcvNxt, old(rcvNxt + rcvWnd), old(annEdge), Step()))
      ensures annEdge == if (acks.later && alive) || (acks.now && old(AnsweredAtOnce(s))) then rcvNxt + annWnd else old(annEdge)
    {
      hide Taken, Queue, Text, Held, AllBelow, FirstGap, Stored, KeptWith, KeptOk, NextState;
      ProcessAndHandOff(s, alloc, acks.now, accept, finAcked);
      if alive {
        SendEmptyAck(acks.later);
      }
    }

    /** tcp_input outside TIME_WAIT: refused data is offered again, then the segment is processed. */
    method InputActive(s: Segment, alloc: bool, acks: Acks, again: bool, accept: bool, finAcked: bool)
      requires alive && Valid() && Arrives(s) && (Processed(s, again) ==> Asserted(s)) && !state.TIME_WAIT?
      modifies this
      ensures old(rcvNxt) <= rcvNxt
      ensures alive <==> !(old(state).LAST_ACK? && finAcked && old(Processed(s, again)))
                         && !(rxClosed && Text(stream, old(rcvNxt), rcvNxt) != [])
      ensures alive ==> (Valid() <==> !old(FreesRefused(s, again, finAcked)))
      ensures rxClosed == old(rxClosed) && reported == old(reported)
      ensures if old(Processed(s, again) && state.Receiving())
              then Taken(s, alloc, old(rcvNxt), old(rcvWnd), old(ooseq), rcvNxt, ooseq)
              else rcvNxt == old(rcvNxt) && ooseq == old(ooseq)
      ensures kept == if old(Processed(s, again)) then old(KeptWith(s, alloc)) else old(kept)
      ensures state == if old(Processed(s, again)) then NextState(old(state), old(rcvNxt) <= |stream| < rcvNxt, finAcked) else old(state)
      ensures delivered == (if again then old(delivered + refused) else old(delivered))
                           + (if alive && accept then Text(stream, old(rcvNxt), rcvNxt) else [])
      ensures alive ==> refused == if rcvNxt > old(rcvNxt) then (if accept then [] else Text(stream, old(rcvNxt), rcvNxt))
                                   else if again || state.TIME_WAIT? then [] else old(refused)
      ensures alive && old(FreesRefused(s, again, finAcked)) ==> !eof
      ensures annEdge == if old(Processed(s, again)) && ((alive && acks.later) || (acks.now && old(AnsweredAtOnce(s))))
                         then rcvNxt + annWnd else old(annEdge)
      ensures rcvNxt == old(rcvNxt) ==> annWnd == old(annWnd)
      ensures alive && old(Regular() && Fresh() && !FreesRefused(s, again, finAcked)) && s.Last() <= old(rcvNxt + rcvWnd) ==>
                && Regular() && old(annEdge) <= annEdge && rcvNxt <= old(rcvNxt + rcvWnd)
                && (rcvNxt > old(rcvNxt) ==> annWnd == FairWindow(rcvNxt, old(rcvNxt + rcvWnd), old(annEdge), Step()))
    {
      hide Taken, Queue, Text, Held, AllBelow, FirstGap, Stored, Offered, Forgotten, KeptOk, FairWindow;
      NoText(stream, rcvNxt);
      RetryRefused(again);
      if refused == [] || s.TcpLen() == 0 {
        ProcessAndAnswer(s, alloc, acks, accept, finAcked);
      }
    }

    /**
     * tcp_input for a segment of this connection without SYN or RST. `again` and `accept` are the
     * answers of the recv callback to refused and to new data. Required is the code's own assertion.
     * The window announced after data was passed on is the least that does not shrink, or the whole
     * window when that adds a segment or half the maximum.
     * Reassembly holds afterwards unless the ACK of our FIN frees refused data, and exactly then it does
     * not. A peer inside the window never makes more than a window be passed on at once.
     */
    method Input(s: Segment, alloc: bool, acks: Acks, again: bool, accept: bool, finAcked: bool)
      requires alive && Valid() && Arrives(s) && (Processed(s, again) ==> Asserted(s))
      modifies this
      ensures old(rcvNxt) <= rcvNxt
      ensures alive <==> !(old(state).LAST_ACK? && finAcked && old(Processed(s, again)))
                         && !(rxClosed && Text(stream, old(rcvNxt), rcvNxt) != [])
      ensures alive ==> (Valid() <==> !old(FreesRefused(s, again, finAcked)))
      ensures rxClosed == old(rxClosed) && reported == old(reported)
      ensures if old(Processed(s, again) && state.Receiving())
              then Taken(s, alloc, old(rcvNxt), old(rcvWnd), old(ooseq), rcvNxt, ooseq)
              else rcvNxt == old(rcvNxt) && ooseq == old(ooseq)
      ensures kept == if old(Processed(s, again)) then old(KeptWith(s, alloc)) else old(kept)
      ensures state == if old(Processed(s, again)) then NextState(old(state), old(rcvNxt) <= |stream| < rcvNxt, finAcked) else old(state)
      ensures delivered == (if again && !old(state).TIME_WAIT? then old(delivered + refused) else old(delivered))
                           + (if alive && accept then Text(stream, old(rcvNxt), rcvNxt) else [])
      ensures alive && rcvNxt > old(rcvNxt) ==> refused == if accept then [] else Text(stream, old(rcvNxt), rcvNxt)
      ensures alive && rcvNxt == old(rcvNxt) ==>
                refused == if !old(state).TIME_WAIT? && (again || state.TIME_WAIT?) then [] else old(refused)
      ensures alive && old(FreesRefused(s, again, finAcked)) ==> refused == [] && !eof
      ensures annEdge == if || (alive && acks.later && old(Processed(s, again) || (state.TIME_WAIT? && s.TcpLen() > 0)))
                            || (acks.now && old(Processed(s, again) && AnsweredAtOnce(s)))
                         then rcvNxt + annWnd else old(annEdge)
      ensures rcvNxt == old(rcvNxt) ==> annWnd == old(annWnd)
      ensures alive && old(Regular() && Fresh() && !FreesRefused(s, again, finAcked)) && s.Last() <= old(rcvNxt + rcvWnd) ==>
                && Regular() && old(annEdge) <= annEdge && rcvNxt <= old(rcvNxt + rcvWnd)
                && (rcvNxt > old(rcvNxt) ==>
                      annWnd == if old(rcvNxt + rcvWnd - annEdge) >= Min(wndMax / 2, mss) then old(rcvNxt + rcvWnd) - rcvNxt
                                else Max(0, old(annEdge) - rcvNxt))
    {
      hide Taken, Queue, Text, Held, AllBelow, FirstGap, Stored, Offered, Forgotten, KeptOk;
      NoText(stream, rcvNxt);
      if state.TIME_WAIT? {
        // tcp_timewait_input
        if s.TcpLen() > 0 {
          SendEmptyAck(acks.later);
        }
        return;
      }
      InputActive(s, alloc, acks, again, accept, finAcked);
    }

    /** The one honest call of tcp_recved that loses count: nothing reported, no window left, passive close. */
    predicate WindowReset(len: nat)
      reads this
    {
      len == 0 && rcvWnd == 0 && (state.CLOSE_WAIT? || state.LAST_ACK?)
    }

    /** rcv_wnd after a report, with its 16-bit overflow. */
    method Credit(len: nat) returns (asserted: bool)
      requires 0 <= rcvWnd <= 0xFFFF && 0 < wndMax <= 0xFFFF
      modifies this`rcvWnd
      ensures 0 <= rcvWnd <= 0xFFFF
      ensures !asserted <==> (old(rcvWnd) + len) % 0x1_0000 == 0 && !state.CLOSE_WAIT? && !state.LAST_ACK?
      ensures old(rcvWnd) + len <= wndMax ==> rcvWnd == if old(WindowReset(len)) then wndMax else old(rcvWnd) + len
    {
      asserted := true;
      rcvWnd := (rcvWnd + len) % 0x1_0000;
      if rcvWnd > wndMax {
        rcvWnd := wndMax;
      } else if rcvWnd == 0 {
        // rcv_wnd overflowed
        if state.CLOSE_WAIT? || state.LAST_ACK? {
          rcvWnd := wndMax;
        } else {
          asserted := false;
        }
      }
    }

    /**
     * tcp_recved: the application reports that it has read `len` bytes. `asserted`: the assertion on the window
     * holds; honest reports fail it only by reporting nothing at window zero, where it protects nothing.
     */
    method Recved(len: nat, mem: bool) returns (asserted: bool)
      requires alive && Valid() && len <= 0xFFFF
      modifies this`rcvWnd, this`annWnd, this`annEdge, this`reported
      ensures Valid() && reported == old(reported) + len
      ensures old(Conserved()) && reported <= |delivered| ==> (Conserved() <==> !old(WindowReset(len)))
      ensures old(Conserved()) && reported <= |delivered| ==>
                (!asserted <==> len == 0 && old(rcvWnd) == 0 && !state.CLOSE_WAIT? && !state.LAST_ACK?)
      ensures old(Regular() && Fresh()) && reported <= |delivered| ==>
                var gain := rcvNxt + rcvWnd - old(annEdge);
                && Sound() && old(annEdge) <= annEdge
                && annWnd == (if gain >= Min(wndMax / 2, mss) then rcvWnd else Max(0, old(annEdge) - rcvNxt))
                && annEdge == (if mem && (if gain >= Min(wndMax / 2, mss) then gain else 0) >= threshold then rcvNxt + annWnd
                               else old(annEdge))
    {
      hide Taken, Queue, Text, Held, FirstGap, Stored;
      asserted := Credit(len);
      reported := reported + len;
      var inflation := UpdateAnnouncedWindow();
      if inflation >= threshold {
        SendEmptyAck(mem);
      }
    }

    /**
     * The receive side of tcp_close_shutdown. A RST goes out instead of a FIN when `strict` and not
     * everything received was reported as read; the connection is purged and, from ESTABLISHED, waits in
     * TIME_WAIT. `finOk`: tcp_send_fin found memory.
     */
    method CloseShutdown(strict: bool, finOk: bool) returns (rst: bool, ok: bool)
      requires alive && Valid()
      modifies this`state, this`alive, this`refused, this`refusedFin, this`ooseq
      ensures rst <==> old(strict && (state.ESTABLISHED? || state.CLOSE_WAIT?) && (refused != [] || rcvWnd != wndMax))
      ensures alive <==> !rst
      ensures alive ==> Valid()
      ensures ok <==> rst || finOk || !old(state.ESTABLISHED? || state.CLOSE_WAIT?)
      ensures if rst then refused == [] && !refusedFin && ooseq == [] else unchanged(`refused, `refusedFin, `ooseq)
      ensures rst ==> state == if old(state).ESTABLISHED? then TIME_WAIT else old(state)
      ensures !rst ==> state == match old(state)
                                case ESTABLISHED => if ok then FIN_WAIT_1 else ESTABLISHED
                                case CLOSE_WAIT => if ok then LAST_ACK else CLOSE_WAIT
                                case st => st
    {
      rst, ok := false, true;
      if strict && (state.ESTABLISHED? || state.CLOSE_WAIT?) && (refused != [] || rcvWnd != wndMax) {
        rst, alive := true, false;
        Purge();
        if state.ESTABLISHED? {
          state := TIME_WAIT;
        }
        return;
      }
      match state {
        case ESTABLISHED =>
          ok := finOk;
          if ok {
            state := FIN_WAIT_1;
          }
        case CLOSE_WAIT =>
          ok := finOk;
          if ok {
            state := LAST_ACK;
          }
        case _ =>
      }
    }

    /**
     * The receive side of tcp_close: a RST goes out instead of a FIN exactly when some byte was
     * received that the application has not reported as read.
     */
    method Close(finOk: bool) returns (rst: bool, ok: bool)
      requires alive && Valid()
      modifies this`rxClosed, this`state, this`alive, this`refused, this`refusedFin, this`ooseq
      ensures rxClosed && (alive <==> !rst) && (alive ==> Valid())
      ensures !rst ==> unchanged(`refused, `refusedFin, `ooseq)
      ensures old(Conserved()) && old(state.ESTABLISHED? || state.CLOSE_WAIT?) ==>
                (rst <==> old(reported < |delivered| + |refused|))
      ensures !rst ==> state == match old(state)
                                case ESTABLISHED => if finOk then FIN_WAIT_1 else ESTABLISHED
                                case CLOSE_WAIT => if finOk then LAST_ACK else CLOSE_WAIT
                                case st => st
    {
      rxClosed := true;
      rst, ok := CloseShutdown(true, finOk);
    }

    /**
     * tcp_shutdown. Shutting down the receive side alone frees refused data; otherwise reassembly goes
     * on, also when only the send side is shut down.
     */
    method Shutdown(rx: bool, tx: bool, finOk: bool) returns (rst: bool, ok: bool)
      requires alive && Valid()
      modifies this`rxClosed, this`state, this`alive, this`refused, this`refusedFin, this`ooseq
      ensures rxClosed == (old(rxClosed) || rx)
      ensures rst ==> rx && tx
      ensures alive <==> !rst
      ensures alive ==> (Valid() <==> !(rx && !tx && old(refused) != []))
      ensures if rst || (rx && !tx) then refused == [] else unchanged(`refused, `refusedFin)
      ensures !rst ==> ooseq == old(ooseq)
      ensures !tx ==> state == old(state)
      ensures tx && !rst ==> state == match old(state)
                                      case ESTABLISHED => if finOk then FIN_WAIT_1 else ESTABLISHED
                                      case CLOSE_WAIT => if finOk then LAST_ACK else CLOSE_WAIT
                                      case st => st
    {
      rst, ok := false, true;
      if rx {
        rxClosed := true;
        if tx {
          rst, ok := CloseShutdown(true, finOk);
          return;
        }
        refused, refusedFin := [], if refused != [] then false else refusedFin;
      }
      if tx {
        if state.ESTABLISHED? || state.CLOSE_WAIT? {
          rst, ok := CloseShutdown(rx, finOk);
        } else {
          ok := false;
        }
      }
    }
  }

  // -------------------------------------------------------------------- runs

  datatype Event =
    | Arrival(s: Segment, alloc: bool, acks: Acks, again: bool, accept: bool, finAcked: bool)
    | Report(len: nat, mem: bool)
    | Retry(accept: bool)
    | Announce(mem: bool)
    | Idle
    | Closing(finOk: bool)
    | ShuttingDown(rx: bool, tx: bool, finOk: bool)

  /**
   * The event can happen here and frees no refused data: the peer cut the segment from its stream,
   * inside the window; the application reads what it got; only active connections are retried.
   */
  predicate Admissible(pcb: RecvPcb, e: Event)
    reads pcb
  {
    && pcb.alive && pcb.Fresh()
    && match e
       case Arrival(s, _, _, again, _, finAcked) =>
         && pcb.Arrives(s) && (pcb.Processed(s, again) ==> pcb.Asserted(s)) && s.Last() <= pcb.rcvNxt + pcb.rcvWnd
         && !(pcb.state.CLOSING? && pcb.FreesRefused(s, again, finAcked))
       case Report(len, _) => len <= 0xFFFF && pcb.reported + len <= |pcb.delivered| && !pcb.WindowReset(len)
       case Retry(_) => pcb.refused != [] && !pcb.state.TIME_WAIT?
       case Announce(_) => true
       case Idle => !pcb.state.TIME_WAIT?
       case Closing(_) => true
       case ShuttingDown(rx, tx, _) => rx && !tx ==> pcb.refused == []
  }

  /** One event. */
  method Happen(pcb: RecvPcb, e: Event)
    requires pcb.Regular() && Admissible(pcb, e)
    modifies pcb
    ensures old(pcb.delivered) <= pcb.delivered
    ensures pcb.alive ==> pcb.Regular() && old(pcb.annEdge) <= pcb.annEdge
    ensures e.Arrival? ==> pcb.kept == if old(pcb.Processed(e.s, e.again)) then old(pcb.KeptWith(e.s, e.alloc)) else old(pcb.kept)
    ensures !e.Arrival? ==> pcb.kept == old(if e.Idle? then pcb.kept - Held(pcb.ooseq) else pcb.kept)
  {
    hide Taken, Queue, Text, Held, FirstGap, Stored, Forgotten, Offered;
    match e {
      case Arrival(s, alloc, acks, again, accept, finAcked) => pcb.Input(s, alloc, acks, again, accept, finAcked);
      case Report(len, mem) =>
        var asserted := pcb.Recved(len, mem);
      case Retry(accept) => pcb.ProcessRefused(accept);
      case Announce(mem) => pcb.SendEmptyAck(mem);
      case Idle => pcb.DropQueue();
      case Closing(finOk) =>
        var rst, ok := pcb.Close(finOk);
      case ShuttingDown(rx, tx, finOk) =>
        var rst, ok := pcb.Shutdown(rx, tx, finOk);
    }
  }

  /**
   * Every run. Whatever arrives, in whatever order, cut up and repeated in whatever way, the
   * application has got a prefix of the stream, all of it before the end of stream is signalled;
   * what has arrived without a gap is below rcv_nxt; no window is lost or invented, and the
   * announced right edge has never moved left. The run stops at the first event that is not admissible.
   */
  method Run(pcb: RecvPcb, events: seq<Event>)
    requires pcb.alive && pcb.Regular()
    modifies pcb
    ensures old(pcb.delivered) <= pcb.delivered
    ensures pcb.alive ==> pcb.Regular() && pcb.delivered <= pcb.stream
    ensures pcb.alive && pcb.eof ==> pcb.delivered == pcb.stream
    ensures pcb.alive ==> old(pcb.annEdge) <= pcb.annEdge <= pcb.rcvNxt + pcb.rcvWnd
    ensures pcb.alive ==> forall x :: pcb.AllKept(x) ==> x <= pcb.rcvNxt
  {
    var i := 0;
    while i < |events| && Admissible(pcb, events[i])
      invariant pcb.alive ==> pcb.Regular() && old(pcb.annEdge) <= pcb.annEdge
      invariant old(pcb.delivered) <= pcb.delivered
    {
      Happen(pcb, events[i]);
      i := i + 1;
    }
    if pcb.alive {
      forall x | pcb.AllKept(x)
        ensures x <= pcb.rcvNxt
      {
        pcb.KeptIsPassedOn(x);
      }
    }
  }

  /**
   * Reassembly fails for a connection whose send side alone was shut down. The peer's last byte and FIN
   * are refused; when the ACK of our own FIN comes first, entering TIME_WAIT frees them.
   */
  method LostInTimeWait() returns (pcb: RecvPcb)
    ensures pcb.alive && pcb.state.TIME_WAIT? && !pcb.Valid()
    ensures pcb.stream == [7] && pcb.rcvNxt == 2 && pcb.delivered == [] && pcb.refused == [] && !pcb.eof
  {
    hide Taken, Queue, Text, Held, AllBelow, FirstGap, Stored, Offered, Forgotten;
    pcb := new RecvPcb(0, 2, 1, 1, [7]);
    var rst, ok := pcb.Shutdown(false, true, true);
    RefusedByte(pcb);
    pcb.Input(Segment(2, [], false), true, Acks(true, true), false, false, true);
  }

  lemma ByteAndFin(s: Segment, nxt: int, q: seq<Segment>)
    requires s == Segment(0, [7], true) && Taken(s, true, 0, 2, [], nxt, q)
    ensures nxt == 2 && Text([7], 0, 2) == [7]
  {
    assert Held([]) == iset{};
    assert From(s, 0) == s == Fit(s, 2);
    assert 0 in Span(s) && 1 in Span(s) && 2 !in Span(s);
  }

  /** The one byte of the stream arrives with the FIN and is refused. */
  method RefusedByte(pcb: RecvPcb)
    requires pcb.alive && pcb.Regular() && pcb.Fresh() && pcb.stream == [7] && (pcb.state.ESTABLISHED? || pcb.state.FIN_WAIT_1?)
    requires pcb.rcvNxt == 0 && pcb.rcvWnd == 2 && pcb.ooseq == [] && pcb.refused == [] && pcb.delivered == [] && !pcb.rxClosed
    modifies pcb
    ensures pcb.alive && pcb.Regular() && pcb.rcvNxt == 2 && pcb.delivered == [] && pcb.refused == [7] && pcb.refusedFin
    ensures !pcb.rxClosed && pcb.state == if old(pcb.state).ESTABLISHED? then CLOSE_WAIT else CLOSING
  {
    hide Taken, Queue, Text, Held, AllBelow, FirstGap, Stored, Offered, Forgotten;
    var s := Segment(0, [7], true);
    ghost var st := pcb.state;
    assert s.data == pcb.stream[..1];
    pcb.Input(s, true, Acks(true, true), false, false, false);
    ByteAndFin(s, pcb.rcvNxt, pcb.ooseq);
  }

  /** The same in LAST_ACK: the connection is freed together with the data. */
  method LostInLastAck() returns (pcb: RecvPcb)
    ensures !pcb.alive && pcb.stream == [7] && pcb.rcvNxt == 2 && pcb.delivered == []
  {
    hide Taken, Queue, Text, Held, AllBelow, FirstGap, Stored, Offered, Forgotten;
    pcb := new RecvPcb(0, 2, 1, 1, [7]);
    RefusedByte(pcb);
    var rst, ok := pcb.Shutdown(false, true, true);
    pcb.Input(Segment(2, [], false), true, Acks(true, true), false, false, true);
  }

  lemma InSequenceOnly(s: Segment, nxt: int, wnd: int, q: seq<Segment>)
    requires s.off == 0 && 0 < s.TcpLen() <= wnd && Taken(s, true, 0, wnd, [], nxt, q)
    ensures nxt == s.Last() && Held(q) == iset{}
  {
    assert Held([]) == iset{} && From(s, 0) == s == Fit(s, wnd);
    assert forall p :: p in Span(s) <==> 0 <= p < s.Last();
    OneGap(Span(s) + Held([]), 0, nxt, s.Last());
  }

  lemma OneGap(s: iset<int>, a: int, b: int, c: int)
    requires FirstGap(s, a, b) && FirstGap(s, a, c)
    ensures b == c
  {
  }

  lemma TextStart(stream: seq<byte>, n: nat)
    requires n <= |stream|
    ensures Text(stream, 0, n) == stream[..n]
  {
  }

  /**
   * With assertions compiled out, a segment whose first edge could not be cut (FirstEdge.NothingCut) gets its
   * length corrected all the same: the application is given bytes again that it already has.
   */
  method ReceiveUncut(pcb: RecvPcb, s: Segment)
    requires pcb.alive && pcb.Valid() && pcb.state.ESTABLISHED? && !pcb.rxClosed && pcb.ooseq == [] && pcb.refused == []
    requires pcb.Arrives(s) && !s.fin && s.off < pcb.rcvNxt < s.Last() <= pcb.rcvNxt + pcb.rcvWnd
    modifies pcb
    ensures pcb.rcvNxt == s.Last() && pcb.delivered == old(pcb.delivered) + s.data
    ensures !pcb.Valid()
  {
    hide Queue, Held;
    pcb.Consume(s.Last() - pcb.rcvNxt);
    pcb.HandOff(s.data, false, true);
    assert |pcb.delivered| > pcb.rcvNxt;
  }

  lemma StartIsCut(stream: seq<byte>, n: nat)
    requires n <= |stream|
    ensures Cut(stream, Segment(0, stream[..n], false))
  {
  }

  lemma FirstArrival(stream: seq<byte>, s: Segment, wnd: int, nxt: int, q: seq<Segment>, hi: int)
    requires Cut(stream, s) && s.off == 0 && !s.fin && 0 < s.TcpLen() <= wnd
    requires Taken(s, true, 0, wnd, [], nxt, q) && Queue(stream, q, nxt + 1, hi)
    ensures nxt == |s.data| && q == [] && Text(stream, 0, nxt) == s.data
  {
    hide Taken, Queue, Text, Held;
    InSequenceOnly(s, nxt, wnd, q);
    TextStart(stream, |s.data|);
    HoldsNothing(stream, q, nxt + 1, hi);
  }

  /** The first bytes of the stream arrive in one segment and are accepted. */
  method AcceptStart(pcb: RecvPcb, s: Segment)
    requires pcb.alive && pcb.Regular() && pcb.Fresh() && pcb.state.ESTABLISHED? && !pcb.rxClosed
    requires pcb.rcvNxt == 0 && pcb.ooseq == [] && pcb.refused == [] && pcb.delivered == []
    requires Cut(pcb.stream, s) && s.off == 0 && !s.fin && 0 < |s.data| <= pcb.rcvWnd && |s.data| < 0xFFFF
    modifies pcb
    ensures pcb.alive && pcb.Regular() && pcb.state.ESTABLISHED? && !pcb.rxClosed && pcb.annEdge >= 0
    ensures pcb.rcvNxt == |s.data| && pcb.ooseq == [] && pcb.refused == [] && pcb.delivered == s.data
    ensures pcb.rcvWnd == old(pcb.rcvWnd) - |s.data|
  {
    hide Taken, Queue, Text, Held, AllBelow, FirstGap, Stored, Offered, Forgotten, RecvPcb.KeptOk;
    assert pcb.delivered + pcb.refused == [];
    pcb.Input(s, true, Acks(true, true), true, true, false);
    FirstArrival(pcb.stream, s, old(pcb.rcvWnd), pcb.rcvNxt, pcb.ooseq, pcb.rcvNxt + 1 + SPAN);
  }

  /** A run that ends with such a segment: 40000 bytes have arrived, and 50000 from the beginning on come again. */
  method FarBelow(stream: seq<byte>) returns (pcb: RecvPcb, s: Segment)
    requires |stream| == 50000
    ensures fresh(pcb) && pcb.alive && pcb.Regular() && pcb.Fresh() && pcb.stream == stream && pcb.delivered == stream[..40000]
    ensures s == Segment(0, stream, false) && pcb.Arrives(s) && s.Last() <= pcb.rcvNxt + pcb.rcvWnd
    ensures pcb.Processed(s, false) && !pcb.Asserted(s)
    ensures pcb.state.ESTABLISHED? && !pcb.rxClosed && pcb.ooseq == [] && pcb.refused == [] && pcb.rcvNxt == 40000
  {
    hide Taken, Queue, Text, Held, AllBelow, FirstGap, Stored, Offered, Forgotten;
    pcb := new RecvPcb(0, 0xFFFF, 1000, 1, stream);
    StartIsCut(stream, 40000);
    AcceptStart(pcb, Segment(0, stream[..40000], false));
    s := Segment(0, stream, false);
  }

  lemma HoldsNothing(stream: seq<byte>, q: seq<Segment>, lo: int, hi: int)
    requires Queue(stream, q, lo, hi)
    ensures Held(q) == iset{} ==> q == []
  {
    if q != [] {
      assert q[0].TcpLen() > 0;
      assert q[0].Covers(q[0].off);
      assert q[0].off in Held(q);
    }
  }

  /** What comes of it: all 50000 bytes are still in their pbuf and are given to the application again. */
  method BytesGivenTwice(stream: seq<byte>, headers: seq<byte>) returns (pcb: RecvPcb)
    requires |stream| == 50000 && |headers| == 54
    ensures fresh(pcb) && !pcb.Valid() && pcb.rcvNxt == 50000 && pcb.delivered == stream[..40000] + stream
  {
    hide Taken, Queue, Text, Held, AllBelow, FirstGap, Stored, Offered, Forgotten;
    var s;
    pcb, s := FarBelow(stream);
    var p := FirstEdge.NothingCut(headers + stream);
    assert Pbufs.Flat([p]) == s.data;
    ReceiveUncut(pcb, s);
  }

  /** Conservation fails when nothing is reported while a refused FIN fills the window. */
  method ReportingNothing() returns (pcb: RecvPcb)
    ensures pcb.alive && pcb.Valid() && !pcb.Conserved()
  {
    hide Taken, Queue, Text, Held, AllBelow, FirstGap, Stored, Offered, Forgotten;
    pcb := new RecvPcb(0, 2, 1, 1, [7]);
    RefusedByte(pcb);
    var asserted := pcb.Recved(0, true);
  }
}
