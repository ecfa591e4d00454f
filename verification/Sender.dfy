/**
 * The send side of a TCP connection: tcp_write, tcp_send_fin, tcp_output, the
 * retransmissions, ACK processing in tcp_receive and the closing states.
 *
 * Positions count from the first data byte; `iss + position` is the sequence number.
 */
module Sender {
  import opened Common
  import opened SequenceNumbers
  import opened Segments
  import opened SendQueues
  import opened Segmentation

  lemma FitsInserted(a: seq<Segment>, b: seq<Segment>, i: nat, m: nat)
    requires a != [] && i <= |b| && Fits(a, m) && Fits(b, m)
    ensures Fits(a[1..], m) && Fits(InsertedAt(b, a[0], i), m) && InsertedAt(b, a[0], i) != []
  {
    var r := InsertedAt(b, a[0], i);
    assert forall k :: 0 <= k < |r| ==> r[k] == if k < i then b[k] else if k == i then a[0] else b[k - 1];
    assert forall k :: 0 <= k < |a[1..]| ==> a[1..][k] == a[k + 1];
  }

  /** Sending the first unsent segment keeps every limit. */
  lemma LimitedSent(unacked: seq<Segment>, unsent: seq<Segment>, i: nat, oversize: nat)
    requires unsent != [] && i <= |unacked|
    ensures forall m :: Limited(unacked, unsent, oversize, m) ==>
              Limited(InsertedAt(unacked, unsent[0], i), unsent[1..], oversize, m)
  {
    forall m | Limited(unacked, unsent, oversize, m)
      ensures Limited(InsertedAt(unacked, unsent[0], i), unsent[1..], oversize, m)
    {
      FitsInserted(unsent, unacked, i, m);
    }
  }

  /** So does taking the first unacked segment back. */
  lemma LimitedBack(unacked: seq<Segment>, unsent: seq<Segment>, i: nat, oversize: nat)
    requires unacked != [] && i <= |unsent|
    ensures InsertedAt(unsent, unacked[0], i) != []
    ensures forall m :: Limited(unacked, unsent, oversize, m) ==>
              Limited(unacked[1..], InsertedAt(unsent, unacked[0], i), if i == |unsent| then 0 else oversize, m)
  {
    forall m | Limited(unacked, unsent, oversize, m)
      ensures Limited(unacked[1..], InsertedAt(unsent, unacked[0], i), if i == |unsent| then 0 else oversize, m)
    {
      FitsInserted(unacked, unsent, i, m);
    }
  }

  lemma LimitedConcat(a: seq<Segment>, b: seq<Segment>, oversize: nat)
    requires b == [] ==> oversize == 0
    ensures forall m :: Limited(a, b, oversize, m) ==> Limited([], a + b, oversize, m)
  {
    assert forall k :: 0 <= k < |a + b| ==> (a + b)[k] == if k < |a| then a[k] else b[k - |a|];
  }

  lemma LimitedRemaining(a: seq<Segment>, b: seq<Segment>, ack: int, a': seq<Segment>, b': seq<Segment>, oversize: nat)
    requires Remaining(a, ack, a') && Remaining(b, ack, b')
    ensures forall m :: Limited(a, b, oversize, m) ==> Limited(a', b', if b' == [] then 0 else oversize, m)
  {
    assert forall k :: 0 <= k < |a'| ==> a'[k] == a[|a| - |a'| + k];
    assert forall k :: 0 <= k < |b'| ==> b'[k] == b[|b| - |b'| + k];
  }

  lemma LimitedEmptied(a: seq<Segment>, oversize: nat)
    ensures forall m :: Limited(a, [], oversize, m) ==> Limited(a, [], 0, m)
  {
  }

  lemma LimitedMore(a: seq<Segment>, b: seq<Segment>, oversize: nat, m: nat, m': nat)
    requires Limited(a, b, oversize, m) && m <= m'
    ensures Limited(a, b, oversize, m')
  {
  }

  lemma LastWithin(b: seq<Segment>, oversize: nat, m: nat)
    requires RoomOk(b, oversize, m)
    ensures b != [] ==> |b[|b| - 1].data| + oversize <= m
  {
  }

  /** Without a FIN queued, every queued segment carries data. */
  lemma LastHasData(text: seq<byte>, a: seq<Segment>, b: seq<Segment>, lo: int, ack: int, nxt: int)
    requires Layout(text, a, b, lo, ack, nxt, |text|) && b != []
    ensures b[|b| - 1].data != []
  {
    var last := b[|b| - 1];
    assert Cut(text, last) && last.TcpLen() > 0;
  }

  /** What is left of a queue after taking from its front. */
  ghost predicate IsSuffix(a: seq<Segment>, b: seq<Segment>) {
    |a| <= |b| && a == b[|b| - |a|..]
  }

  lemma SuffixSelf(a: seq<Segment>)
    ensures IsSuffix(a, a)
  {
  }

  lemma SuffixTail(a: seq<Segment>, b: seq<Segment>)
    requires IsSuffix(a, b) && a != []
    ensures IsSuffix(a[1..], b) && |a| <= |b| && a[0] == b[|b| - |a|]
  {
  }

  /** snd_nxt after sending `sent`: the furthest end. */
  ghost function Furthest(nxt: int, sent: seq<Segment>): int {
    if sent == [] then nxt else Max(Furthest(nxt, sent[..|sent| - 1]), sent[|sent| - 1].Last())
  }

  lemma FurthestNone(nxt: int, q: seq<Segment>)
    ensures Furthest(nxt, q[..0]) == nxt
  {
  }

  lemma FurthestNext(nxt: int, q: seq<Segment>, n: nat)
    requires n < |q|
    ensures Furthest(nxt, q[..n + 1]) == Max(Furthest(nxt, q[..n]), q[n].Last())
  {
    assert q[..n + 1][..n] == q[..n];
  }

  /** No segment of one queue begins where one of the other does. */
  lemma HeadsDiffer(text: seq<byte>, a: seq<Segment>, b: seq<Segment>, lo: int, ack: int, nxt: int, hi: int)
    requires Layout(text, a, b, lo, ack, nxt, hi)
    ensures Ordered(a) && Ordered(b)
    ensures forall i, j :: 0 <= i < |a| && 0 <= j < |b| ==> a[i].off != b[j].off
    ensures Unacknowledged(a, ack) && Unacknowledged(b, ack)
  {
    forall i, j | 0 <= i < |a| && 0 <= j < |b|
      ensures a[i].off != b[j].off
    {
      assert a[i].off in Held(a) by {
        assert a[i].Covers(a[i].off);
      }
      assert b[j].off in Held(b) by {
        assert b[j].Covers(b[j].off);
      }
    }
  }

  /** Put a transmitted segment on the unacked list: at the tail, or sorted in before it after a fast retransmission. */
  method Enlist(iss: u32, q: seq<Segment>, s: Segment) returns (r: seq<Segment>, i: nat)
    requires Ordered(q) && forall k :: 0 <= k < |q| ==> Near(q[k].off, s.off) && Near(s.off, q[k].off) && q[k].off != s.off
    ensures Slot(q, s, i) && r == InsertedAt(q, s, i)
  {
    if q == [] {
      r, i := [s], 0;
    } else {
      WireCompare(iss + s.off, iss + q[|q| - 1].off);
      if Lt(Wire(iss + s.off), Wire(iss + q[|q| - 1].off)) {
        i := FindSlot(iss, q, s);
        r := InsertedAt(q, s, i);
      } else {
        r, i := q + [s], |q|;
      }
    }
  }

  /** A FIN on the last unsent segment, or alone on a new one, keeps limits and totals. */
  lemma LimitedFin(a: seq<Segment>, b: seq<Segment>, oversize: nat)
    requires b != []
    ensures var r := ReplaceLast(b, b[|b| - 1].(fin := true));
            && Bytes(r) == Bytes(b) && Pbufs(r) == Pbufs(b)
            && forall m :: Limited(a, b, oversize, m) ==> Limited(a, r, oversize, m)
  {
    var r := ReplaceLast(b, b[|b| - 1].(fin := true));
    ReplaceTotals(b, b[|b| - 1].(fin := true));
    assert forall k :: 0 <= k < |r| - 1 ==> r[k] == b[k];
  }

  lemma LimitedFinAlone(a: seq<Segment>, f: Segment)
    requires f.data == [] && f.pbufs == 1
    ensures Bytes([]) == 0 == Pbufs([]) && Bytes([f]) == 0 && Pbufs([f]) == 1
    ensures forall m :: Limited(a, [], 0, m) ==> Limited(a, [f], 0, m)
  {
    TotalsOne(f);
  }

  datatype WriteResult = ERR_OK | ERR_MEM | ERR_CONN

  /**
   * What tcp_output finds: whether it is called from input processing, whether an ACK is due at once,
   * whether there is a route, and how many segments IP accepts before it refuses one.
   */
  datatype Surroundings = Surroundings(busy: bool, ackNow: bool, route: bool, accepts: nat)

  class SendPcb {
    const iss: u32
    const sndBufMax: nat      // TCP_SND_BUF
    const queueMax: nat       // TCP_SND_QUEUELEN
    const mss: nat
    const overAlloc: nat      // TCP_OVERSIZE
    const align: nat          // MEM_ALIGNMENT

    var state: TcpState
    var unacked: seq<Segment>
    var unsent: seq<Segment>
    var lastAck: int
    var sndNxt: int
    var sndLbb: int
    var sndBuf: int
    var queueLen: int         // snd_queuelen
    var oversize: nat         // unsent_oversize
    var sndWnd: nat
    var sndWndMax: nat
    var cwnd: nat
    var noDelay: bool         // TF_NODELAY
    var inFastRecovery: bool  // TF_INFR
    var memErr: bool          // TF_NAGLEMEMERR
    var finQueued: bool       // TF_FIN

    ghost var written: seq<byte>  // accepted by tcp_write
    ghost var base: int           // start of the oldest segment still queued

    /** A synchronised connection with nothing queued; the peer's SYN announced any window. */
    constructor (iss: u32, sndBufMax: nat, queueMax: nat, mss: nat, overAlloc: nat, align: nat, wnd: nat)
      requires 0 < sndBufMax <= 0xFFFF && queueMax <= 0xFFFF && 0 < mss <= 0xFFFF && 0 < align
      ensures Valid() && Sized() && state.ESTABLISHED? && written == []
      ensures this.mss == mss && this.queueMax == queueMax && sndBuf == sndBufMax && queueLen == 0 && lastAck == 0 && sndLbb == 0
      ensures unacked == [] && unsent == [] && sndWnd == sndWndMax == wnd && cwnd == mss && !finQueued && !inFastRecovery
    {
      this.iss, this.sndBufMax, this.queueMax, this.mss := iss, sndBufMax, queueMax, mss;
      this.overAlloc, this.align := overAlloc, align;
      state, unacked, unsent, lastAck, sndNxt, sndLbb := ESTABLISHED, [], [], 0, 0, 0;
      sndBuf, queueLen, oversize, sndWnd, sndWndMax, cwnd := sndBufMax, 0, 0, wnd, wnd, mss;
      noDelay, inFastRecovery, memErr, finQueued := false, false, false, false;
      written, base := [], 0;
      new;
      HeldNone();
    }

    /** The end of everything queued. */
    ghost function Top(): int
      reads this
    {
      |written| + if finQueued then 1 else 0
    }

    ghost predicate Config()
      reads this
    {
      0 < sndBufMax <= 0xFFFF && queueMax <= 0xFFFF && 0 < mss <= 0xFFFF && 0 < align
    }

    /** snd_buf and snd_queuelen count what is queued. */
    ghost predicate Counted()
      reads this
    {
      && sndBuf + Bytes(unacked) + Bytes(unsent) == sndBufMax && 0 <= sndBuf
      && queueLen == Pbufs(unacked) + Pbufs(unsent)
    }

    ghost predicate Limits(m: nat)
      reads this
    {
      Limited(unacked, unsent, oversize, m)
    }

    /** No segment, with its room, is above mss_local. */
    ghost predicate Sized()
      reads this
    {
      Limits(MssLocal(mss, sndWndMax))
    }

    /** The connection left ESTABLISHED or CLOSE_WAIT by queueing a FIN; beyond FIN_WAIT_1 that FIN is acknowledged. */
    ghost predicate Closing()
      reads this
    {
      && (finQueued <==> !state.ESTABLISHED? && !state.CLOSE_WAIT?)
      && (state.FIN_WAIT_2? || state.TIME_WAIT? ==> lastAck == Top())
      && (!finQueued ==> sndLbb == |written|)
    }

    ghost predicate Partitioned()
      reads this
    {
      Layout(written, unacked, unsent, base, lastAck, sndNxt, Top())
    }

    ghost predicate Consistent()
      reads this
    {
      Config() && Partitioned() && Counted() && Limits(mss) && Closing()
    }

    /** The same with the unsent segments in another order: `g` is the one that fits. */
    ghost predicate Loose(g: seq<Segment>)
      reads this
    {
      && Config() && Counted() && Limits(mss) && Closing()
      && Layout(written, unacked, g, base, lastAck, sndNxt, Top()) && multiset(g) == multiset(unsent) && Bytes(g) == Bytes(unsent)
    }

    /** The invariant between calls. */
    ghost predicate Valid()
      reads this
    {
      Consistent() && (unsent == [] ==> oversize == 0)
    }

    // ------------------------------------------------------------------ output

    /** Whether the end of a segment lies inside the usable window. */
    method InsideWindow(s: Segment, wnd: nat) returns (b: bool)
      requires 0 <= s.End() - lastAck && -HALF < s.off - lastAck < HALF && |s.data| < HALF
      ensures b <==> s.End() - lastAck <= wnd
    {
      WireSub(iss + s.off, iss + lastAck);
      assert (s.off - lastAck) % MOD == if s.off < lastAck then s.off - lastAck + MOD else s.off - lastAck by {
        if s.off < lastAck {
          ModOfSum(s.off - lastAck, 1);
        }
      }
      b := (Sub(Wire(iss + s.off), Wire(iss + lastAck)) + |s.data|) % MOD <= wnd;
    }

    /** tcp_do_output_nagle */
    predicate NagleAllows()
      reads this
    {
      || unacked == [] || noDelay || inFastRecovery
      || (unsent != [] && (|unsent| > 1 || |unsent[0].data| >= mss))
      || sndBuf == 0 || queueLen >= queueMax
    }

    /**
     * Nagle's algorithm holds a last unsent segment back: it is short of a full one, other data is unacknowledged, and
     * there are no exceptions to make.
     */
    ghost predicate HoldsBack(s: Segment, other: bool)
      reads `noDelay, `inFastRecovery, `memErr, `finQueued, `sndBuf, `queueLen
    {
      && |s.data| < mss && other
      && !noDelay && !inFastRecovery && !memErr && !finQueued && sndBuf != 0 && queueLen < queueMax
    }

    ghost predicate HoldsLast()
      reads this
    {
      unsent != [] && HoldsBack(unsent[|unsent| - 1], unacked != [] || |unsent| > 1)
    }

    /** One turn of the loop in tcp_output: the first unsent segment has been handed to IP. */
    method TransmitFirst(ghost g: seq<Segment>) returns (ghost g': seq<Segment>)
      requires Loose(g) && unsent != []
      modifies this`unsent, this`unacked, this`sndNxt
      ensures Loose(g') && unsent == old(unsent)[1..] && (g == old(unsent) ==> g' == unsent)
      ensures forall m :: old(Limits(m)) ==> Limits(m)
      ensures multiset(unacked) == old(multiset(unacked)) + multiset{old(unsent)[0]}
      ensures sndNxt == Max(old(sndNxt), old(unsent)[0].Last())
    {
      hide Layout, Bytes, Pbufs, Limited, Slot, InsertedAt, Without;
      var seg := unsent[0];
      ghost var j := Standing(g, unsent);
      var r, i, nxt := Placed(g);
      SlotInside(unacked, seg, i);
      LooseTransmit(written, unacked, unsent, g, j, base, lastAck, sndNxt, Top(), i);
      LimitedSent(unacked, unsent, i, oversize);
      unacked, unsent, sndNxt, g' := r, unsent[1..], nxt, Without(g, j);
    }

    /** The place of the first unsent segment in unacked, and snd_nxt behind it. */
    method Placed(ghost g: seq<Segment>) returns (r: seq<Segment>, i: nat, nxt: int)
      requires Loose(g) && unsent != []
      ensures Slot(unacked, unsent[0], i) && r == InsertedAt(unacked, unsent[0], i) && nxt == Max(sndNxt, unsent[0].Last())
    {
      hide Layout, Bytes, Pbufs, Limited, Slot, InsertedAt, Without;
      var seg := unsent[0];
      ghost var j := Standing(g, unsent);
      LayoutBound(written, unacked, g, base, lastAck, sndNxt, Top(), sndBufMax);
      HeadsDiffer(written, unacked, g, base, lastAck, sndNxt, Top());
      r, i := Enlist(iss, unacked, seg);
      nxt := sndNxt;
      WireCompare(iss + sndNxt, iss + seg.Last());
      if Lt(Wire(iss + sndNxt), Wire(iss + seg.Last())) {
        nxt := seg.Last();
      }
    }

    /** Whether the first unsent segment ends inside a window. */
    method FirstInside(wnd: nat, ghost g: seq<Segment>) returns (b: bool)
      requires Loose(g) && unsent != []
      ensures b <==> unsent[0].End() - lastAck <= wnd
    {
      hide Layout, Bytes, Pbufs, Limited;
      ghost var j := Standing(g, unsent);
      LayoutBound(written, unacked, g, base, lastAck, sndNxt, Top(), sndBufMax);
      HeadsDiffer(written, unacked, g, base, lastAck, sndNxt, Top());
      b := InsideWindow(unsent[0], wnd);
    }

    /** The tests before a segment is sent: the window, then Nagle's algorithm and its exceptions. */
    method MayGo(wnd: nat, ghost g: seq<Segment>) returns (go: bool)
      requires Loose(g) && unsent != []
      ensures go <==> unsent[0].End() - lastAck <= wnd && !(|unsent| == 1 && HoldsLast())
    {
      hide Layout, Bytes, Pbufs, Limited;
      go := FirstInside(wnd, g);
      if go && !NagleAllows() && !memErr && !finQueued {
        go := false;
      }
    }

    /** The whole body of the loop, once it is decided that the segment goes. */
    method SendNext(wnd: nat, ghost g: seq<Segment>) returns (ghost g': seq<Segment>)
      requires Loose(g) && unsent != [] && unsent[0].End() - lastAck <= wnd
      modifies this`unsent, this`unacked, this`sndNxt
      ensures Loose(g') && unsent == old(unsent)[1..] && (g == old(unsent) ==> g' == unsent)
      ensures forall m :: old(Limits(m)) ==> Limits(m)
      ensures multiset(unacked) + multiset(unsent) == old(multiset(unacked) + multiset(unsent))
      ensures unacked != [] && sndNxt == Max(old(sndNxt), old(unsent)[0].Last())
    {
      hide Layout, Bytes, Pbufs, Limited;
      TailMultiset(unsent);
      g' := TransmitFirst(g);
    }

    /** The loop of tcp_output. It ends `refused` by IP, or with nothing more to send now. */
    method SendLoop(accepts: nat, ghost g: seq<Segment>) returns (refused: bool, ghost g': seq<Segment>)
      requires Loose(g)
      modifies this`unsent, this`unacked, this`sndNxt
      ensures Loose(g') && (g == old(unsent) ==> g' == unsent)
      ensures forall m :: old(Limits(m)) ==> Limits(m)
      ensures IsSuffix(unsent, old(unsent))
      ensures multiset(unacked) + multiset(unsent) == old(multiset(unacked) + multiset(unsent))
      ensures forall k :: 0 <= k < |old(unsent)| - |unsent| ==> old(unsent)[k].End() - lastAck <= Min(sndWnd, cwnd)
      ensures |unsent| == |old(unsent)| ==> unacked == old(unacked)
      ensures old(sndNxt) <= sndNxt <= Max(old(sndNxt), lastAck + Min(sndWnd, cwnd) + 1)
      ensures |old(unsent)| - |unsent| <= accepts && sndNxt == Furthest(old(sndNxt), old(unsent)[..|old(unsent)| - |unsent|])
      ensures old(HoldsLast()) ==> unsent != []
      ensures refused <==> && unsent != [] && unsent[0].End() - lastAck <= Min(sndWnd, cwnd)
                           && !(|unsent| == 1 && old(HoldsLast()))
      ensures refused ==> |old(unsent)| - |unsent| == accepts
    {
      hide Layout, Bytes, Pbufs, Limited, IsSuffix, Loose, Furthest, HoldsBack;
      SuffixSelf(unsent);
      FurthestNone(sndNxt, unsent);
      ghost var all, holds := unsent, HoldsLast();
      refused, g' := false, g;
      var wnd, left := Min(sndWnd, cwnd), accepts;
      while unsent != []
        invariant Loose(g') && (g == old(unsent) ==> g' == unsent)
        invariant forall m :: old(Limits(m)) ==> Limits(m)
        invariant IsSuffix(unsent, all) && |unsent| <= |all|
        invariant multiset(unacked) + multiset(unsent) == old(multiset(unacked) + multiset(unsent))
        invariant forall k :: 0 <= k < |all| - |unsent| ==> all[k].End() - lastAck <= wnd
        invariant if |unsent| == |all| then unacked == old(unacked) else unacked != []
        invariant old(sndNxt) <= sndNxt <= Max(old(sndNxt), lastAck + wnd + 1)
        invariant sndNxt == Furthest(old(sndNxt), all[..|all| - |unsent|])
        invariant holds ==> unsent != []
        invariant 0 <= left && accepts - left == |all| - |unsent|
        decreases |unsent|
      {
        SuffixTail(unsent, all);
        FurthestNext(old(sndNxt), all, |all| - |unsent|);
        var go := MayGo(wnd, g');
        assert |unsent| == 1 ==> (HoldsLast() <==> holds);
        if !go {
          return;
        }
        if left == 0 {
          refused := true;
          return;
        }
        left := left - 1;
        g' := SendNext(wnd, g');
      }
    }

    /** The loop of tcp_output and what follows it. */
    method SendAll(accepts: nat, ghost g: seq<Segment>) returns (done: bool, ghost g': seq<Segment>)
      requires Loose(g) && (unsent == [] ==> oversize == 0)
      modifies this`unsent, this`unacked, this`sndNxt, this`oversize, this`memErr
      ensures Loose(g') && (unsent == [] ==> oversize == 0) && (g == old(unsent) ==> g' == unsent)
      ensures forall m :: old(Limits(m)) ==> Limits(m)
      ensures IsSuffix(unsent, old(unsent))
      ensures multiset(unacked) + multiset(unsent) == old(multiset(unacked) + multiset(unsent))
      ensures forall k :: 0 <= k < |old(unsent)| - |unsent| ==> old(unsent)[k].End() - lastAck <= Min(sndWnd, cwnd)
      ensures |unsent| == |old(unsent)| ==> unacked == old(unacked)
      ensures old(sndNxt) <= sndNxt <= Max(old(sndNxt), lastAck + Min(sndWnd, cwnd) + 1)
      ensures |old(unsent)| - |unsent| <= accepts && sndNxt == Furthest(old(sndNxt), old(unsent)[..|old(unsent)| - |unsent|])
      ensures old(HoldsLast()) ==> unsent != []
      ensures memErr == !done
      ensures !done <==> && unsent != [] && unsent[0].End() - lastAck <= Min(sndWnd, cwnd)
                         && !(|unsent| == 1 && old(HoldsLast()))
      ensures !done ==> |old(unsent)| - |unsent| == accepts
    {
      hide Layout, Bytes, Pbufs, Limited, IsSuffix, Furthest, HoldsLast;
      var refused;
      refused, g' := SendLoop(accepts, g);
      if unsent == [] {
        LimitedEmptied(unacked, oversize);
        oversize := 0;
      }
      memErr := refused;
      done := !refused;
    }

    /**
     * tcp_output. Unless it returns early, the segments that leave are the longest front of the unsent queue that
     * ends inside the window, without a last segment that Nagle's algorithm holds back, and no more than IP
     * accepts. `done`: IP refused none. It also works on an unsent queue that is out of order.
     */
    method Output(env: Surroundings, ghost g: seq<Segment>) returns (done: bool, ghost g': seq<Segment>)
      requires Loose(g) && (unsent == [] ==> oversize == 0)
      modifies this`unsent, this`unacked, this`sndNxt, this`oversize, this`memErr
      ensures Loose(g') && (unsent == [] ==> oversize == 0) && (g == old(unsent) ==> g' == unsent)
      ensures forall m :: old(Limits(m)) ==> Limits(m)
      ensures IsSuffix(unsent, old(unsent))
      ensures multiset(unacked) + multiset(unsent) == old(multiset(unacked) + multiset(unsent))
      ensures env.busy || !env.route || (env.ackNow && old(unsent == [] || unsent[0].End() - lastAck > Min(sndWnd, cwnd))) ==>
                !done && unchanged(this)
      ensures !(env.busy || !env.route || (env.ackNow && old(unsent == [] || unsent[0].End() - lastAck > Min(sndWnd, cwnd)))) ==>
                var held := old(unsent != [] && |unsent[|unsent| - 1].data| < mss && (unacked != [] || |unsent| > 1)
                                && !noDelay && !inFastRecovery && !memErr && !finQueued && sndBuf != 0 && queueLen < queueMax);
                && memErr == !done && (held ==> unsent != [])
                && (!done <==> unsent != [] && unsent[0].End() - lastAck <= Min(sndWnd, cwnd) && !(|unsent| == 1 && held))
                && (!done ==> |old(unsent)| - |unsent| == env.accepts)
      ensures forall k :: 0 <= k < |old(unsent)| - |unsent| ==> old(unsent)[k].End() - lastAck <= Min(sndWnd, cwnd)
      ensures |unsent| == |old(unsent)| ==> unacked == old(unacked)
      ensures old(sndNxt) <= sndNxt <= Max(old(sndNxt), lastAck + Min(sndWnd, cwnd) + 1)
      ensures |old(unsent)| - |unsent| <= env.accepts && sndNxt == Furthest(old(sndNxt), old(unsent)[..|old(unsent)| - |unsent|])
    {
      hide Layout, Bytes, Pbufs, Limited, IsSuffix, Furthest;
      SuffixSelf(unsent);
      FurthestNone(sndNxt, unsent);
      done, g' := false, g;
      if env.busy {
        return;
      }
      if env.ackNow {
        if unsent == [] {
          return;
        }
        var fits := FirstInside(Min(sndWnd, cwnd), g);
        if !fits {
          return;
        }
      }
      if !env.route {
        return;
      }
      done, g' := SendAll(env.accepts, g);
    }

    // ---------------------------------------------------------- retransmission

    /** tcp_rexmit: the first unacked segment goes back, sorted, to the unsent queue. */
    method Rexmit()
      requires Valid()
      modifies this`unsent, this`unacked, this`oversize
      ensures Valid() && (forall m :: old(Limits(m)) ==> Limits(m))
      ensures old(unacked) != [] ==>
                && unacked == old(unacked)[1..] && Held(unsent) == old(Held(unsent)) + Span(old(unacked)[0])
                && multiset(unsent) == old(multiset(unsent)) + multiset{old(unacked)[0]}
    {
      hide Layout, Bytes, Pbufs, Limited, Held, Span, InsertedAt, Slot;
      if unacked == [] {
        return;
      }
      var seg := unacked[0];
      LayoutBound(written, unacked, unsent, base, lastAck, sndNxt, Top(), sndBufMax);
      HeadsDiffer(written, unacked, unsent, base, lastAck, sndNxt, Top());
      var i := FindSlot(iss, unsent, seg);
      LayoutRetransmit(written, unacked, unsent, base, lastAck, sndNxt, Top(), i);
      assert i <= |unsent|;
      InsertedHeld(unsent, seg, i);
      LimitedBack(unacked, unsent, i, oversize);
      InsertedMultiset(unsent, seg, i);
      if i == |unsent| {
        // the retransmitted segment is last in unsent
        oversize := 0;
      }
      unsent, unacked := InsertedAt(unsent, seg, i), unacked[1..];
    }

    /** tcp_rexmit_fast, without its congestion window */
    method RexmitFast()
      requires Valid()
      modifies this`unsent, this`unacked, this`oversize, this`inFastRecovery
      ensures Valid() && (forall m :: old(Limits(m)) ==> Limits(m))
      ensures if old(unacked == [] || inFastRecovery) then unchanged(this)
              else inFastRecovery && unacked == old(unacked)[1..]
                   && multiset(unsent) == old(multiset(unsent)) + multiset{old(unacked)[0]}
    {
      hide Layout, Bytes, Pbufs, Limited, Held, Span;
      if unacked != [] && !inFastRecovery {
        Rexmit();
        inFastRecovery := true;
      }
    }

    /** The requeueing in tcp_rexmit_rto: it keeps the invariant exactly when unacked precedes unsent. */
    method Requeue() returns (ghost g: seq<Segment>)
      requires Valid()
      modifies this`unsent, this`unacked
      ensures unacked == [] && unsent == old(unacked) + old(unsent)
      ensures Loose(g) && (unsent == [] ==> oversize == 0) && (old(Precedes(unacked, unsent)) ==> g == unsent)
      ensures Valid() <==> old(Precedes(unacked, unsent))
      ensures forall m :: old(Limits(m)) ==> Limits(m)
    {
      hide Layout, Bytes, Pbufs, Limited, Precedes, Ordered;
      g := Merged(written, unacked, unsent, base, lastAck, sndNxt, Top());
      LayoutRequeue(written, unacked, unsent, base, lastAck, sndNxt, Top());
      LimitedConcat(unacked, unsent, oversize);
      NoTotals();
      if Precedes(unacked, unsent) {
        LayoutOrdered(written, [], unacked + unsent, base, lastAck, sndNxt, Top());
        LayoutOrdered(written, [], g, base, lastAck, sndNxt, Top());
        OneOrder(g, unacked + unsent);
      }
      unacked, unsent := [], unacked + unsent;
    }

    /** A loose arrangement is the invariant exactly if the unsent queue is in order. */
    lemma InOrderIsValid(g: seq<Segment>)
      requires Loose(g) && (unsent == [] ==> oversize == 0)
      ensures Valid() <==> Ordered(unsent)
    {
      hide Layout, Bytes, Pbufs, Limited, Ordered;
      LayoutOrdered(written, unacked, g, base, lastAck, sndNxt, Top());
      if Ordered(unsent) {
        OneOrder(unsent, g);
      }
      if Valid() {
        LayoutOrdered(written, unacked, unsent, base, lastAck, sndNxt, Top());
      }
    }

    /**
     * tcp_rexmit_rto. Where unacked does not precede unsent, the queue is out of order until everything behind is
     * sent: sending puts each segment in its place. All of unacked is put in front of unsent, and then as much
     * leaves as tcp_output sends of it.
     */
    method RexmitRto(env: Surroundings) returns (ghost g: seq<Segment>)
      requires Valid()
      modifies this`unsent, this`unacked, this`sndNxt, this`oversize, this`memErr
      ensures Loose(g) && (Valid() <==> Ordered(unsent))
      ensures old(Precedes(unacked, unsent)) ==> Valid()
      ensures old(sndNxt) <= sndNxt && (forall m :: old(Limits(m)) ==> Limits(m))
      ensures multiset(unacked) + multiset(unsent) == old(multiset(unacked) + multiset(unsent))
      ensures if old(unacked) == [] then unchanged(this) else IsSuffix(unsent, old(unacked) + old(unsent))
      ensures old(unacked) != [] ==>
                var all, wnd := old(unacked) + old(unsent), Min(sndWnd, cwnd);
                var held := old(|all| > 1 && |all[|all| - 1].data| < mss && !noDelay && !inFastRecovery && !memErr && !finQueued
                                && sndBuf != 0 && queueLen < queueMax);
                if env.busy || !env.route || (env.ackNow && all[0].End() - lastAck > wnd) then
                  unacked == [] && unsent == all && sndNxt == old(sndNxt) && memErr == old(memErr)
                else
                  && |all| - env.accepts <= |unsent| <= |all| && sndNxt == Furthest(old(sndNxt), all[..|all| - |unsent|])
                  && (held ==> unsent != []) && (forall k :: 0 <= k < |all| - |unsent| ==> all[k].End() - lastAck <= wnd)
                  && (memErr <==> unsent != [] && unsent[0].End() - lastAck <= wnd && !(|unsent| == 1 && held))
                  && (memErr ==> |all| - |unsent| == env.accepts)
    {
      hide Layout, Bytes, Pbufs, Limited, Precedes, IsSuffix, Ordered, Furthest;
      g := unsent;
      if unacked != [] {
        g := Requeue();
        var done;
        done, g := Output(env, g);
      }
      InOrderIsValid(g);
    }

    /** tcp_zero_window_probe: one position of the oldest segment is sent. `mem`: there is memory for the probe. */
    method ZeroWindowProbe(mem: bool) returns (ok: bool)
      requires Valid()
      modifies this`sndNxt
      ensures ok <==> mem || unacked == [] == unsent
      ensures Valid() && sndNxt == if !mem || unacked == [] == unsent then old(sndNxt)
                                   else Max(old(sndNxt), (if unacked != [] then unacked[0] else unsent[0]).off + 1)
    {
      hide Bytes, Pbufs, Limited;
      ok := true;
      if unacked != [] || unsent != [] {
        var seg := if unacked != [] then unacked[0] else unsent[0];
        if !mem {
          return false;
        }
        LayoutBound(written, unacked, unsent, base, lastAck, sndNxt, Top(), sndBufMax);
        WireCompare(iss + sndNxt, iss + seg.off + 1);
        if Lt(Wire(iss + sndNxt), Wire(iss + seg.off + 1)) {
          sndNxt := seg.off + 1;
        }
      }
    }

    /**
     * The window update of tcp_receive. The segment limit stays met, except that the first window of at
     * least two must not be too small for what was queued under a smaller one.
     */
    method UpdateWindow(wnd: nat)
      requires Valid()
      modifies this`sndWnd, this`sndWndMax
      ensures Valid() && sndWnd == wnd && sndWndMax == Max(old(sndWndMax), wnd)
      ensures old(Sized()) ==> (Sized() <==> old(sndWndMax) >= 2 || wnd < 2 || Limits(wnd / 2))
    {
      hide Layout, Bytes, Pbufs, Limited;
      sndWnd := wnd;
      ghost var m, m' := MssLocal(mss, sndWndMax), MssLocal(mss, Max(sndWndMax, wnd));
      if Limits(m) && m <= m' {
        LimitedMore(unacked, unsent, oversize, m, m');
      }
      if Limits(mss) && mss <= wnd / 2 {
        LimitedMore(unacked, unsent, oversize, mss, wnd / 2);
      }
      if sndWndMax < wnd {
        sndWndMax := wnd;
      }
    }

    // -------------------------------------------------------- acknowledgements

    /** The ACK test of tcp_receive: is new data acknowledged? */
    method AcksNewData(ackno: int) returns (b: bool)
      requires Valid() && -HALF + 0x4_0000 < ackno - lastAck < HALF - 0x4_0000
      ensures b <==> lastAck < ackno <= sndNxt
    {
      LayoutBound(written, unacked, unsent, base, lastAck, sndNxt, Top(), sndBufMax);
      WireCompare(iss + ackno, iss + lastAck);
      WireBetween(iss + ackno, iss + lastAck + 1, iss + sndNxt);
      b := !Leq(Wire(iss + ackno), Wire(iss + lastAck)) && Between(Wire(iss + ackno), Wire(iss + lastAck + 1), Wire(iss + sndNxt));
    }

    /** The two loops that free acknowledged segments; segments taken back for retransmission are freed in unsent. */
    method FreeQueues(ackno: int, isNew: bool) returns (a: seq<Segment>, b: seq<Segment>, bytes: nat, pbufs: nat)
      requires Valid() && -HALF + 0x4_0000 < ackno - lastAck < HALF - 0x4_0000 && (isNew <==> lastAck < ackno <= sndNxt)
      ensures var ack := if isNew then ackno else lastAck; Remaining(unacked, ack, a) && Remaining(unsent, ack, b)
      ensures Bytes(unacked) + Bytes(unsent) == bytes + Bytes(a) + Bytes(b)
      ensures Pbufs(unacked) + Pbufs(unsent) == pbufs + Pbufs(a) + Pbufs(b)
    {
      hide Layout, Bytes, Pbufs, Limited, Remaining, Unacknowledged;
      LayoutBound(written, unacked, unsent, base, lastAck, sndNxt, Top(), sndBufMax);
      HeadsDiffer(written, unacked, unsent, base, lastAck, sndNxt, Top());
      a, bytes, pbufs := unacked, 0, 0;
      if isNew {
        a, bytes, pbufs := FreeAcked(iss, unacked, ackno, sndNxt);
      } else {
        NothingFreed(unacked, lastAck);
      }
      var bBytes, bPbufs;
      b, bBytes, bPbufs := FreeAcked(iss, unsent, ackno, sndNxt);
      bytes, pbufs := bytes + bBytes, pbufs + bPbufs;
      if !isNew {
        if ackno <= lastAck {
          OldAckFreesNothing(unsent, lastAck, ackno, b);
        }
        NothingFreed(unsent, lastAck);
      }
    }

    /** The ACK part of tcp_receive: exactly the segments covered by the highest acknowledgement are freed. */
    method Ack(ackno: int)
      requires Valid() && -HALF + 0x4_0000 < ackno - lastAck < HALF - 0x4_0000
      modifies this`unacked, this`unsent, this`lastAck, this`sndBuf, this`queueLen, this`oversize, this`base, this`inFastRecovery
      ensures Valid() && (forall m :: old(Limits(m)) ==> Limits(m))
      ensures lastAck == if old(lastAck) < ackno <= sndNxt then ackno else old(lastAck)
      ensures inFastRecovery == (old(inFastRecovery) && lastAck == old(lastAck))
      ensures Remaining(old(unacked), lastAck, unacked) && Remaining(old(unsent), lastAck, unsent)
    {
      hide Layout, Bytes, Pbufs, Limited, Remaining;
      LayoutBound(written, unacked, unsent, base, lastAck, sndNxt, Top(), sndBufMax);
      var isNew := AcksNewData(ackno);
      var a, b, bytes, pbufs := FreeQueues(ackno, isNew);
      if isNew {
        inFastRecovery := false;
      }
      Commit(if isNew then ackno else lastAck, a, b, bytes, pbufs);
    }

    method Commit(ack: int, a: seq<Segment>, b: seq<Segment>, bytes: nat, pbufs: nat)
      requires Valid() && lastAck <= ack <= sndNxt
      requires Remaining(unacked, ack, a) && Remaining(unsent, ack, b)
      requires Bytes(unacked) + Bytes(unsent) == bytes + Bytes(a) + Bytes(b)
      requires Pbufs(unacked) + Pbufs(unsent) == pbufs + Pbufs(a) + Pbufs(b)
      modifies this`unacked, this`unsent, this`lastAck, this`sndBuf, this`queueLen, this`oversize, this`base
      ensures Valid() && unacked == a && unsent == b && lastAck == ack
      ensures forall m :: old(Limits(m)) ==> Limits(m)
    {
      hide Layout, Bytes, Pbufs, Limited, Remaining;
      ghost var lo := LayoutAck(written, unacked, unsent, base, lastAck, sndNxt, Top(), ack, a, b);
      LimitedRemaining(unacked, unsent, ack, a, b, oversize);
      lastAck, unacked, unsent, base := ack, a, b, lo;
      if unsent == [] {
        oversize := 0;
      }
      queueLen, sndBuf := queueLen - pbufs, sndBuf + bytes;
    }

    // ------------------------------------------------------------------ writing

    /** The longest queue tcp_write makes: TCP_SND_QUEUELEN, but not more than TCP_SNDQUEUELEN_OVERFLOW. */
    function QueueLimit(): nat { Min(queueMax, 0xFFFC) }

    /** Send buffer and queue have room for a write. */
    predicate Affordable(len: nat)
      reads this
    {
      len == 0 || (len <= sndBuf && queueLen < queueMax && queueLen <= 0xFFFC)
    }

    /** tcp_write_checks */
    method WriteChecks(len: nat) returns (r: WriteResult)
      ensures r.ERR_CONN? <==> !state.ESTABLISHED? && !state.CLOSE_WAIT?
      ensures r.ERR_OK? <==> !r.ERR_CONN? && Affordable(len)
    {
      if !state.ESTABLISHED? && !state.CLOSE_WAIT? {
        return ERR_CONN;
      }
      if len == 0 {
        return ERR_OK;
      }
      if len > sndBuf || queueLen >= queueMax || queueLen > 0xFFFC {
        return ERR_MEM;
      }
      return ERR_OK;
    }

    /** What segmentation has prepared: `pos` bytes for the last unsent segment, the rest in `queue`. */
    ghost predicate Prepared(req: Request, pos: nat, concat: bool, over: nat, queue: seq<Segment>, newLen: nat)
      reads this
    {
      && pos <= |req.data| && (unsent == [] ==> pos == 0) && (pos == 0 ==> !concat)
      && (unsent != [] ==> var last := unsent[|unsent| - 1];
           |last.data| <= req.mssLocal && pos == Min(req.mssLocal - |last.data|, |req.data|))
      && Payload(queue) == req.data[pos..] && Bytes(queue) == |req.data| - pos
      && Fits(queue, req.mssLocal) && AllBeyond(queue, |written|)
      && Pbufs(queue) == newLen - queueLen - (if concat then 1 else 0)
      && (if queue == [] then
            (if unsent == [] then over == 0
             else var last := |unsent[|unsent| - 1].data|; last + pos + over <= Max(req.mssLocal, last + oversize))
          else RoomOk(queue, over, req.mssLocal))
      && var u := Extended(unsent, req.data, pos, concat);
         Tiled(written + req.data[..pos], unacked, u, base, |written| + pos) ==>
         Tiled(written + req.data, unacked, u + queue, base, |written| + |req.data|)
    }

    /** The segmentation of tcp_write, on local copies; `mem` allocations succeed before one fails. */
    method Segmentize(req: Request, mem: nat)
      returns (ok: bool, pos: nat, concat: bool, over: nat, queue: seq<Segment>, newLen: nat)
      requires Valid() && !finQueued && req.Ok() && req.mssLocal == MssLocal(mss, sndWndMax) && req.queueMax == QueueLimit()
      requires Asserted(unsent, oversize, |req.data|, req.mssLocal)
      ensures mem >= 3 * |req.data| + 1 && queueLen + 2 * |req.data| + 1 <= req.queueMax ==> ok
      ensures ok ==> Prepared(req, pos, concat, over, queue, newLen)
      ensures ok ==> queue == Pieces(req.data, |written|, pos, req.mssLocal, if req.copy then 1 else 2)
    {
      hide Layout, Tiled, Bytes, Pbufs, Payload, Fits, AllBeyond, Extended, MssLocal, Pieces;
      var left := mem;
      ok, pos, concat, over, queue, newLen := true, 0, false, oversize, [], queueLen;
      if unsent != [] {
        LastHasData(written, unacked, unsent, base, lastAck, sndNxt);
        ok, pos, concat, over, left := ExtendLast(req, unsent[|unsent| - 1], oversize, mem);
        if !ok {
          return;
        }
      }
      newLen := queueLen + if concat then 1 else 0;
      ok, queue, over, newLen := NewSegments(req, sndLbb, pos, over, newLen, left);
      PiecesTotals(req.data, |written|, pos, req.mssLocal, if req.copy then 1 else 2);
      ghost var u := Extended(unsent, req.data, pos, concat);
      if ok && Tiled(written + req.data[..pos], unacked, u, base, |written| + pos) {
        PiecesTiled(written, req.data, unacked, u, base, pos, req.mssLocal, if req.copy then 1 else 2);
      }
    }

    /** The end of tcp_write: the prepared changes are made. */
    method CommitWrite(req: Request, pos: nat, concat: bool, over: nat, queue: seq<Segment>, newLen: nat)
      requires Valid() && !finQueued && req.mssLocal == MssLocal(mss, sndWndMax) && |req.data| <= sndBuf
      requires Prepared(req, pos, concat, over, queue, newLen)
      modifies this`unsent, this`sndLbb, this`sndBuf, this`queueLen, this`oversize, this`written
      ensures written == old(written) + req.data && Payload(unsent) == old(Payload(unsent)) + req.data
      ensures sndLbb == old(sndLbb) + |req.data| && sndBuf == old(sndBuf) - |req.data|
      ensures unsent == Extended(old(unsent), req.data, pos, concat) + queue
      ensures Counted() && Limits(mss) && (old(Sized()) ==> Sized())
      ensures Valid() <==> old(Appendable(unsent, |written|, |req.data|, req.mssLocal))
    {
      hide Layout, Tiled, Bytes, Pbufs, Payload, Fits, RoomOk, AllBeyond, Extended, Appendable;
      WrittenLayout(req, written, unacked, unsent, base, lastAck, sndNxt, pos, concat, queue);
      WrittenTotals(req, unsent, pos, concat, queue);
      LastWithin(unsent, oversize, mss);
      WrittenFits(req, unsent, over, pos, concat, queue, mss);
      if Sized() {
        LastWithin(unsent, oversize, req.mssLocal);
        WrittenFits(req, unsent, over, pos, concat, queue, req.mssLocal);
      }
      unsent := Extended(unsent, req.data, pos, concat) + queue;
      oversize, queueLen := over, newLen;
      sndLbb, sndBuf := sndLbb + |req.data|, sndBuf - |req.data|;
      written := written + req.data;
    }

    /**
     * tcp_write; `mem` allocations succeed before one fails. On success exactly the caller's bytes are appended
     * to the unsent payload, in the room of the last segment and then in segments as large as allowed, and the
     * queues stay in order exactly if the write was appendable; on failure nothing has changed.
     */
    method Write(data: seq<byte>, copy: bool, more: bool, mem: nat) returns (r: WriteResult, ghost concat: bool)
      requires Valid() && |data| <= 0xFFFF
      requires !finQueued && Affordable(|data|) ==> Asserted(unsent, oversize, |data|, MssLocal(mss, sndWndMax))
      modifies this`unsent, this`sndLbb, this`sndBuf, this`queueLen, this`oversize, this`memErr, this`written
      ensures r.ERR_CONN? <==> finQueued
      ensures !finQueued && old(Affordable(|data|)) && mem >= 3 * |data| + 1 && old(queueLen) + 2 * |data| + 1 <= QueueLimit() ==> r.ERR_OK?
      ensures !r.ERR_OK? ==> unchanged(this`unsent, this`sndLbb, this`sndBuf, this`queueLen, this`oversize, this`written)
      ensures memErr == (old(memErr) || r.ERR_MEM?)
      ensures r.ERR_OK? ==>
                && written == old(written) + data && Payload(unsent) == old(Payload(unsent)) + data
                && sndLbb == old(sndLbb) + |data| && sndBuf == old(sndBuf) - |data|
                && Counted() && (old(Sized()) ==> Sized())
                && (Valid() <==> old(Appendable(unsent, |written|, |data|, MssLocal(mss, sndWndMax))))
      ensures r.ERR_OK? ==>
                var m := MssLocal(mss, sndWndMax);
                var pos := old(if unsent == [] then 0 else Min(m - |unsent[|unsent| - 1].data|, |data|));
                && 0 <= pos && unsent == Extended(old(unsent), data, pos, concat)
                                         + Pieces(data, |old(written)|, pos, m, if copy then 1 else 2)
                && (concat ==> pos > 0)
    {
      hide Layout, Tiled, Bytes, Pbufs, Payload, Fits, RoomOk, AllBeyond, Extended, Appendable, Pieces;
      concat := false;
      r := WriteChecks(|data|);
      if !r.ERR_OK? {
        memErr := memErr || r.ERR_MEM?;
        return;
      }
      var req := Request(data, copy, more, noDelay, unsent != [] || unacked != [], MssLocal(mss, sndWndMax), QueueLimit(), overAlloc, align);
      var ok, pos, chained, over, queue, newLen := Segmentize(req, mem);
      if !ok {
        memErr := true;
        r := ERR_MEM;
        return;
      }
      CommitWrite(req, pos, chained, over, queue, newLen);
      concat := chained;
    }

    // ------------------------------------------------------------------ closing

    /** tcp_send_fin; `mem`: there is memory for a segment of its own. Without one nothing is queued. */
    method SendFin(mem: bool) returns (ok: bool)
      requires Valid() && !finQueued
      modifies this`unsent, this`finQueued, this`sndLbb, this`queueLen, this`oversize, this`memErr
      ensures ok <==> old(unsent) != [] || mem
      ensures !ok ==> unchanged(`unsent, `finQueued, `sndLbb, `queueLen, `oversize)
      ensures memErr == (old(memErr) || !ok)
      ensures ok ==> finQueued && Config() && Counted() && (unsent == [] ==> oversize == 0)
      ensures forall m :: old(Limits(m)) ==> Limits(m)
      ensures ok ==> (Partitioned() <==> old(unsent == [] || unsent[|unsent| - 1].End() == |written|))
    {
      hide Layout, Bytes, Pbufs, Limited;
      LayoutFin(written, unacked, unsent, base, lastAck, sndNxt);
      if unsent != [] {
        // no SYN, FIN or RST in the last segment: add the FIN to it
        LimitedFin(unacked, unsent, oversize);
        var last := unsent[|unsent| - 1];
        unsent, finQueued, ok := ReplaceLast(unsent, last.(fin := true)), true, true;
      } else {
        ok := mem;
        if ok {
          LimitedFinAlone(unacked, Segment(sndLbb, [], true));
          unsent, oversize, queueLen := [Segment(sndLbb, [], true)], 0, queueLen + 1;
          sndLbb, finQueued := sndLbb + 1, true;
        } else {
          memErr := true;
        }
      }
    }

    /** The FIN part of tcp_close_shutdown, without the tcp_output at its end. */
    method Close(mem: bool) returns (ok: bool)
      requires Valid()
      modifies this`unsent, this`finQueued, this`sndLbb, this`queueLen, this`oversize, this`state, this`memErr
      ensures ok <==> old(finQueued || unsent != []) || mem
      ensures !ok || old(finQueued) ==> unchanged(`unsent, `finQueued, `sndLbb, `queueLen, `oversize, `state)
      ensures memErr == (old(memErr) || !ok)
      ensures forall m :: old(Limits(m)) ==> Limits(m)
      ensures ok && !old(finQueued) ==>
                && finQueued && state == (if old(state).ESTABLISHED? then FIN_WAIT_1 else LAST_ACK)
                && (Valid() <==> old(unsent == [] || unsent[|unsent| - 1].End() == |written|))
    {
      hide Layout, Bytes, Pbufs, Limited;
      match state {
        case ESTABLISHED =>
          ok := SendFin(mem);
          if ok {
            state := FIN_WAIT_1;
          }
        case CLOSE_WAIT =>
          ok := SendFin(mem);
          if ok {
            state := LAST_ACK;
          }
        case _ =>
          ok := true;
      }
    }

    /** The test ackno == snd_nxt with nothing unsent, made after tcp_receive. */
    method AcksEverything(ackno: int) returns (all: bool)
      requires Valid() && -HALF + 0x8_0000 < ackno - lastAck < HALF - 0x8_0000
      requires !(lastAck < ackno <= sndNxt)
      ensures all ==> ackno == Top() == lastAck
      ensures ackno == Top() && lastAck == Top() ==> all
    {
      hide Layout, Bytes, Pbufs, Limited;
      LayoutBound(written, unacked, unsent, base, lastAck, sndNxt, Top(), sndBufMax);
      AllAcknowledged(written, unacked, unsent, base, lastAck, sndNxt, Top());
      WireCompare(iss + ackno, iss + sndNxt);
      all := Wire(iss + ackno) == Wire(iss + sndNxt) && unsent == [];
      if all {
        NothingUnsent(written, unacked, base, lastAck, sndNxt, Top());
      }
    }

    /**
     * tcp_process in the synchronised states: the acknowledgement, then the move to the next state.
     * A connection whose FIN is queued moves on exactly when this ACK covers the FIN.
     */
    method Process(ackno: int, gotFin: bool) returns (closed: bool)
      requires Valid() && -HALF + 0x10_0000 < ackno - lastAck < HALF - 0x10_0000
      modifies this`unacked, this`unsent, this`lastAck, this`sndBuf, this`queueLen, this`oversize, this`base, this`inFastRecovery, this`state
      ensures Valid() && (forall m :: old(Limits(m)) ==> Limits(m))
      ensures inFastRecovery == (old(inFastRecovery) && lastAck == old(lastAck))
      ensures lastAck == if old(lastAck) < ackno <= sndNxt then ackno else old(lastAck)
      ensures state.FIN_WAIT_2? || state.TIME_WAIT? || closed ==> finQueued && lastAck == Top()
      ensures state.TIME_WAIT? || closed ==> unacked == [] && unsent == []
      ensures var acked := ackno == Top() == lastAck;
              && (closed <==> old(state).LAST_ACK? && acked)
              && state == match old(state)
                          case ESTABLISHED => if gotFin then CLOSE_WAIT else ESTABLISHED
                          case FIN_WAIT_1 => if gotFin then (if acked then TIME_WAIT else CLOSING)
                                             else if acked then FIN_WAIT_2 else FIN_WAIT_1
                          case FIN_WAIT_2 => if gotFin then TIME_WAIT else FIN_WAIT_2
                          case CLOSING => if acked then TIME_WAIT else CLOSING
                          case st => st
    {
      hide Layout, Bytes, Pbufs, Limited, Remaining;
      closed := false;
      Ack(ackno);
      var all := AcksEverything(ackno);
      AllAcknowledged(written, unacked, unsent, base, lastAck, sndNxt, Top());
      match state {
        case ESTABLISHED | CLOSE_WAIT =>
          if gotFin {
            state := CLOSE_WAIT;
          }
        case FIN_WAIT_1 =>
          if gotFin {
            state := if all then TIME_WAIT else CLOSING;
          } else if all {
            state := FIN_WAIT_2;
          }
        case FIN_WAIT_2 =>
          if gotFin {
            state := TIME_WAIT;
          }
        case CLOSING =>
          if all {
            state := TIME_WAIT;
          }
        case LAST_ACK =>
          closed := all;
        case TIME_WAIT =>
      }
    }
  }

  lemma SortedPair(q: seq<Segment>, s: Segment, t: Segment)
    requires multiset(q) == multiset{s, t} && Ordered(q) && s.off < t.off
    ensures q == [s, t]
  {
    assert |multiset(q)| == 2 == |q|;
    assert q == [q[0], q[1]];
    assert multiset(q) == multiset{q[0], q[1]};
    assert q[0] in multiset{s, t} && q[1] in multiset{s, t};
    assert s in multiset{q[0], q[1]} && t in multiset{q[0], q[1]};
  }

  lemma Single(q: seq<Segment>, s: Segment)
    requires multiset(q) == multiset{s}
    ensures q == [s]
  {
    assert |multiset(q)| == 1 == |q|;
    assert q == [q[0]];
    assert q[0] in multiset{s};
  }

  // ---------------------------------------------------- where the order is lost

  /** Exactly a connection within its room passes the assertions of tcp_write whatever is written. */
  lemma AssertionsHold(unsent: seq<Segment>, oversize: nat, m: nat)
    ensures RoomOk(unsent, oversize, m) <==> forall len: nat :: Asserted(unsent, oversize, len, m)
  {
    if forall len: nat :: Asserted(unsent, oversize, len, m) {
      assert Asserted(unsent, oversize, m + 1, m);
    }
  }

  lemma OnePiece(data: seq<byte>, lbb: int, max: nat)
    requires 0 < |data| <= max
    ensures Pieces(data, lbb, 0, max, 1) == [Segment(lbb, data, false, 1)]
    ensures Extended([], data, 0, false) == [] && Pbufs([]) == 0 && Pbufs([Segment(lbb, data, false, 1)]) == 1
  {
    assert data[0..0 + |data|] == data;
    TotalsOne(Segment(lbb, data, false, 1));
  }

  /** A write that fits into one segment of its own. */
  method WriteOne(pcb: SendPcb, data: seq<byte>)
    requires pcb.Valid() && !pcb.finQueued && pcb.unsent == []
    requires 0 < |data| <= MssLocal(pcb.mss, pcb.sndWndMax) && |data| <= pcb.sndBuf && |data| <= 0xFFFF
    requires pcb.queueLen + 2 * |data| + 1 <= pcb.QueueLimit()
    modifies pcb`unsent, pcb`sndLbb, pcb`sndBuf, pcb`queueLen, pcb`oversize, pcb`memErr, pcb`written
    ensures pcb.Valid() && pcb.written == old(pcb.written) + data
    ensures pcb.unsent == [Segment(|old(pcb.written)|, data, false, 1)]
    ensures pcb.sndBuf == old(pcb.sndBuf) - |data| && pcb.queueLen == old(pcb.queueLen) + 1
  {
    hide Layout, Bytes, Pbufs, Limited, Payload, Extended, Pieces;
    OnePiece(data, |pcb.written|, MssLocal(pcb.mss, pcb.sndWndMax));
    var r, concat := pcb.Write(data, true, false, 3 * |data| + 1);
  }

  /**
   * Before the peer announces a window of two, segments are cut to the full mss. The first larger window
   * can then be too small for them, and the next write fails its assertion.
   */
  method ShrinkingLimit() returns (pcb: SendPcb)
    ensures fresh(pcb) && pcb.Valid() && !pcb.finQueued && pcb.Affordable(1)
    ensures !Asserted(pcb.unsent, pcb.oversize, 1, MssLocal(pcb.mss, pcb.sndWndMax))
  {
    hide Layout, Bytes, Pbufs, Limited;
    pcb := new SendPcb(0, 100, 100, 3, 0, 1, 0);
    WriteOne(pcb, [1, 2, 3]);
    pcb.UpdateWindow(4);
  }

  lemma SuffixOfOne(a: seq<Segment>, s: Segment)
    requires IsSuffix(a, [s])
    ensures a == [] || a == [s]
  {
  }

  /** The only unsent segment is sent without delay. */
  method SendOne(pcb: SendPcb, s: Segment)
    requires pcb.Valid() && pcb.unsent == [s] && pcb.noDelay && s.End() - pcb.lastAck <= Min(pcb.sndWnd, pcb.cwnd)
    modifies pcb`unsent, pcb`unacked, pcb`sndNxt, pcb`oversize, pcb`memErr
    ensures pcb.Valid() && pcb.unsent == []
    ensures multiset(pcb.unacked) == old(multiset(pcb.unacked)) + multiset{s}
  {
    hide Layout, Bytes, Pbufs, Limited, IsSuffix, Furthest;
    var done, _ := pcb.Output(Surroundings(false, false, true, 1), pcb.unsent);
    SuffixOfOne(pcb.unsent, s);
  }

  /** A write that fits into one segment of its own and is sent without delay. */
  method WriteAndSend(pcb: SendPcb, data: seq<byte>)
    requires pcb.Valid() && !pcb.finQueued && pcb.unsent == [] && pcb.noDelay
    requires 0 < |data| <= MssLocal(pcb.mss, pcb.sndWndMax) && |data| <= pcb.sndBuf && |data| <= 0xFFFF
    requires pcb.queueLen + 2 * |data| + 1 <= pcb.QueueLimit() && |pcb.written| + |data| - pcb.lastAck <= Min(pcb.sndWnd, pcb.cwnd)
    modifies pcb`unsent, pcb`unacked, pcb`sndNxt, pcb`sndLbb, pcb`sndBuf, pcb`queueLen, pcb`oversize, pcb`memErr, pcb`written
    ensures pcb.Valid() && pcb.unsent == [] && pcb.written == old(pcb.written) + data
    ensures multiset(pcb.unacked) == old(multiset(pcb.unacked)) + multiset{Segment(|old(pcb.written)|, data, false, 1)}
    ensures pcb.sndBuf == old(pcb.sndBuf) - |data| && pcb.queueLen == old(pcb.queueLen) + 1
  {
    hide Layout, Bytes, Pbufs, Limited, MssLocal;
    WriteOne(pcb, data);
    SendOne(pcb, pcb.unsent[0]);
  }

  const FIRST := Segment(0, [1, 2], false, 1)
  const SECOND := Segment(2, [3, 4], false, 1)

  method FirstSent() returns (pcb: SendPcb)
    ensures fresh(pcb) && pcb.Valid() && pcb.written == [1, 2] && pcb.state.ESTABLISHED? && !pcb.inFastRecovery && pcb.noDelay
    ensures pcb.unacked == [FIRST] && pcb.unsent == [] && pcb.lastAck == 0 && pcb.sndWnd == pcb.sndWndMax == pcb.cwnd == 8
    ensures pcb.mss == 3 && pcb.queueLen == 1 && pcb.queueMax == 100 && pcb.sndBuf == 98
  {
    hide Layout, Bytes, Pbufs, Limited;
    pcb := new SendPcb(0, 100, 100, 3, 0, 1, 8);
    pcb.cwnd, pcb.noDelay := 8, true;
    WriteAndSend(pcb, [1, 2]);
    Single(pcb.unacked, FIRST);
  }

  method BothSent() returns (pcb: SendPcb)
    ensures fresh(pcb) && pcb.Valid() && pcb.written == [1, 2, 3, 4] && pcb.state.ESTABLISHED? && !pcb.inFastRecovery
    ensures pcb.unacked == [FIRST, SECOND] && pcb.unsent == [] && pcb.sndWndMax == 8
    ensures pcb.mss == 3 && pcb.queueLen == 2 && pcb.queueMax == 100 && pcb.sndBuf == 96
  {
    hide Layout, Bytes, Pbufs, Limited, Unacknowledged;
    pcb := FirstSent();
    WriteAndSend(pcb, [3, 4]);
    HeadsDiffer(pcb.written, pcb.unacked, pcb.unsent, pcb.base, pcb.lastAck, pcb.sndNxt, pcb.Top());
    SortedPair(pcb.unacked, FIRST, SECOND);
  }

  /** Two segments were sent and the first was taken back for fast retransmission, where it waits. */
  method Waiting() returns (pcb: SendPcb)
    ensures fresh(pcb) && pcb.Valid() && pcb.written == [1, 2, 3, 4] && pcb.state.ESTABLISHED?
    ensures pcb.unacked == [SECOND] && pcb.unsent == [FIRST] && MssLocal(pcb.mss, pcb.sndWndMax) == 3
    ensures pcb.queueLen == 2 && pcb.queueMax == 100 && pcb.sndBuf == 96
  {
    hide Layout, Bytes, Pbufs, Limited;
    pcb := BothSent();
    pcb.RexmitFast();
    Single(pcb.unsent, FIRST);
  }

  /** Data written now goes behind the waiting segment, where the second one already is. */
  method WrittenWhileWaiting() returns (pcb: SendPcb)
    ensures fresh(pcb) && !pcb.Valid() && pcb.written == [1, 2, 3, 4, 5]
  {
    hide Layout, Bytes, Pbufs, Limited, Pieces;
    pcb := Waiting();
    var r, _ := pcb.Write([5], true, false, 10);
  }

  /** A FIN queued now is put on the waiting segment, before the end of the data. */
  method ClosedWhileWaiting() returns (pcb: SendPcb)
    ensures fresh(pcb) && !pcb.Valid() && pcb.state.FIN_WAIT_1?
  {
    hide Layout, Bytes, Pbufs, Limited;
    pcb := Waiting();
    var ok := pcb.Close(true);
  }

  /** A timeout now puts the second segment before the waiting first one. */
  method TimedOutWhileWaiting() returns (pcb: SendPcb)
    ensures fresh(pcb) && !pcb.Valid() && pcb.unsent == [SECOND, FIRST]
  {
    hide Layout, Bytes, Pbufs, Limited;
    pcb := Waiting();
    assert pcb.unacked[0].off > pcb.unsent[0].off;
    var _ := pcb.Requeue();
  }

  // -------------------------------------------------------------------- runs

  datatype Event =
    | Writing(data: seq<byte>, copy: bool, more: bool, mem: nat)
    | Closing(finOk: bool)
    | Sending(env: Surroundings)
    | Acking(ackno: int, gotFin: bool)
    | Window(wnd: nat)
    | Congestion(cwnd: nat)
    | Nagle(noDelay: bool)
    | ThirdDuplicate
    | Timeout(env: Surroundings)
    | Persist(room: bool)

  /** The event can happen here and does not hit one of the cases in which the queues lose their order. */
  predicate Admissible(pcb: SendPcb, e: Event)
    reads pcb
  {
    match e
    case Writing(data, _, _, _) =>
      var m := MssLocal(pcb.mss, pcb.sndWndMax);
      |data| <= 0xFFFF
      && (pcb.finQueued || (Appendable(pcb.unsent, pcb.sndLbb, |data|, m) && Asserted(pcb.unsent, pcb.oversize, |data|, m)))
    case Closing(_) => pcb.finQueued || pcb.unsent == [] || pcb.unsent[|pcb.unsent| - 1].End() == pcb.sndLbb
    case Acking(ackno, _) => -HALF + 0x10_0000 < ackno - pcb.lastAck < HALF - 0x10_0000
    case Timeout(_) => Precedes(pcb.unacked, pcb.unsent)
    case _ => true
  }

  /** tcp_output and the timeout that calls it. */
  method HappenSending(pcb: SendPcb, env: Surroundings, timeout: bool)
    requires pcb.Valid() && (timeout ==> Precedes(pcb.unacked, pcb.unsent))
    modifies pcb
    ensures pcb.Valid() && pcb.written == old(pcb.written) && pcb.lastAck == old(pcb.lastAck) && old(pcb.sndNxt) <= pcb.sndNxt
    ensures pcb.sndWndMax == old(pcb.sndWndMax) && (old(pcb.Sized()) ==> pcb.Sized())
  {
    hide Layout, Bytes, Pbufs, Limited, Precedes, IsSuffix, Furthest, Ordered;
    if timeout {
      var _ := pcb.RexmitRto(env);
    } else {
      var sent, _ := pcb.Output(env, pcb.unsent);
    }
  }

  /** Once the peer has announced a window of at least two, the segment limit is never exceeded again. */
  method Happen(pcb: SendPcb, e: Event)
    requires pcb.Valid() && Admissible(pcb, e)
    modifies pcb
    ensures pcb.Valid() && old(pcb.written) <= pcb.written && old(pcb.lastAck) <= pcb.lastAck && old(pcb.sndNxt) <= pcb.sndNxt
    ensures old(pcb.sndWndMax) <= pcb.sndWndMax && (old(pcb.Sized()) && old(pcb.sndWndMax) >= 2 ==> pcb.Sized())
  {
    hide Layout, Bytes, Pbufs, Limited, Appendable, Asserted, Precedes, Remaining, Payload, Held, Span, Extended, Pieces;
    match e {
      case Writing(data, copy, more, mem) =>
        var r, _ := pcb.Write(data, copy, more, mem);
      case Closing(finOk) =>
        var ok := pcb.Close(finOk);
      case Sending(env) =>
        HappenSending(pcb, env, false);
      case Acking(ackno, gotFin) =>
        var closed := pcb.Process(ackno, gotFin);
      case Window(wnd) => pcb.UpdateWindow(wnd);
      case Congestion(cwnd) => pcb.cwnd := cwnd;
      case Nagle(noDelay) => pcb.noDelay := noDelay;
      case ThirdDuplicate => pcb.RexmitFast();
      case Timeout(env) =>
        HappenSending(pcb, env, true);
      case Persist(room) =>
        var ok := pcb.ZeroWindowProbe(room);
    }
  }

  /** Every run keeps the queue invariant: it stops at the first event that is not admissible. */
  method Run(pcb: SendPcb, events: seq<Event>)
    requires pcb.Valid()
    modifies pcb
    ensures pcb.Valid() && old(pcb.written) <= pcb.written && old(pcb.lastAck) <= pcb.lastAck
    ensures old(pcb.Sized()) && old(pcb.sndWndMax) >= 2 ==> pcb.Sized()
    ensures pcb.state.FIN_WAIT_2? || pcb.state.TIME_WAIT? ==> pcb.finQueued && pcb.lastAck == |pcb.written| + 1
  {
    var i := 0;
    while i < |events| && Admissible(pcb, events[i])
      invariant pcb.Valid() && old(pcb.written) <= pcb.written && old(pcb.lastAck) <= pcb.lastAck
      invariant old(pcb.sndWndMax) <= pcb.sndWndMax && (old(pcb.Sized()) && old(pcb.sndWndMax) >= 2 ==> pcb.Sized())
    {
      Happen(pcb, events[i]);
      i := i + 1;
    }
  }
}
