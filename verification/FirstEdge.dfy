/**
 * How tcp_receive cuts bytes it already has off the front of an incoming segment: the pbufs that
 * hold nothing else are emptied, and pbuf_header moves the payload of the next one. The distance
 * goes through a signed 16-bit parameter.
 */
module FirstEdge {
  import opened Common
  import opened Pbufs

  /** How far into the pbuf it ends in a cut reaches. */
  ghost function Reach(v: seq<seq<byte>>, off: nat): nat {
    if v == [] || off <= |v[0]| then off else Reach(v[1..], off - |v[0]|)
  }

  lemma {:induction false} ReachBound(v: seq<seq<byte>>, off: nat)
    ensures Reach(v, off) <= off
    decreases |v|
  {
    if v != [] && off > |v[0]| {
      ReachBound(v[1..], off - |v[0]|);
    }
  }

  /** The pbufs `hs` show nothing, stand in front of `t` and all carry the same total. */
  ghost predicate Emptied(hs: seq<Pbuf>, t: seq<Pbuf>, total: nat)
    reads hs`next, hs`totLen, hs`buf, hs`start, hs`len
  {
    && Distinct(hs + t)
    && forall i :: 0 <= i < |hs| ==>
         hs[i].Ok() && hs[i].len == 0 && hs[i].totLen == total && hs[i].next == After(hs + t, i)
  }

  lemma EmptiedTail(hs: seq<Pbuf>, t: seq<Pbuf>, total: nat)
    requires Emptied(hs, t, total) && hs != []
    ensures Emptied(hs[1..], t, total) && hs[0] !in hs[1..] + t && hs + t == [hs[0]] + (hs[1..] + t)
    ensures hs[0].next == if hs[1..] + t == [] then null else (hs[1..] + t)[0]
    ensures hs[0].Ok() && hs[0].len == 0 && hs[0].totLen == total && hs[0].View() == []
  {
    var c, d := hs + t, hs[1..] + t;
    assert c == [hs[0]] + d && forall i :: 0 <= i < |d| ==> d[i] == c[i + 1];
    assert hs[0] == c[0] && hs[0].next == After(c, 0);
    forall i | 0 <= i < |hs[1..]|
      ensures hs[1..][i].next == After(d, i)
    {
      assert hs[1..][i] == hs[i + 1] && After(d, i) == After(c, i + 1);
    }
  }

  /** They add nothing to the packet, and it is a chain if their total is right. */
  lemma {:induction false} EmptiedChain(hs: seq<Pbuf>, t: seq<Pbuf>, total: nat)
    requires Emptied(hs, t, total)
    ensures Flat(hs + t) == Flat(t)
    ensures Chain(t) && total == Low16(|Flat(t)|) ==> Chain(hs + t)
  {
    hide Chain, Flat, Emptied, Low16;
    if hs == [] {
      assert hs + t == t;
    } else {
      EmptiedTail(hs, t, total);
      EmptiedChain(hs[1..], t, total);
      FlatFirst(hs[0], hs[1..] + t);
      if Chain(t) && total == Low16(|Flat(t)|) {
        ChainCons(hs[0], hs[1..] + t);
      }
    }
  }

  lemma FlatFirst(p: Pbuf, c: seq<Pbuf>)
    ensures Flat([p] + c) == p.View() + Flat(c)
  {
    hide Views, Join;
    ViewsConcat([p], c);
    assert Views([p]) == [p.View()];
    JoinPush(p.View(), Views(c));
  }

  /** One pbuf of the part to cut. */
  method EmptyOne(p: Pbuf, total: nat, ghost hs: seq<Pbuf>, ghost t: seq<Pbuf>)
    requires Chain(t) && t != [] && p == t[0] && Emptied(hs, t, total)
    modifies p`totLen, p`len
    ensures Chain(t[1..]) && Flat(t[1..]) == old(Flat(t[1..])) && Emptied(hs + [p], t[1..], total)
  {
    hide Chain, Flat;
    ChainTail(t);
    ChainNext(t);
    ghost var c, d := hs + t, (hs + [p]) + t[1..];
    assert c == d && c[|hs|] == p;
    OnlyAt(c, |hs|);
    assert forall i :: 0 <= i < |hs| ==> hs[i] == c[i];
    assert p.next == After(c, |hs|);
    p.totLen := total;
    p.len := 0;
    assert forall i :: 0 <= i < |hs + [p]| ==> (hs + [p])[i] == c[i];
  }

  /** The walk has come to `t`: so much is left to cut, and of the packet. */
  ghost predicate Reached(flat: seq<byte>, v: seq<seq<byte>>, off: nat, t: seq<Pbuf>, left: nat)
    reads t`buf, t`start, t`len
  {
    && 0 < left <= |Flat(t)| <= |flat| && off - left == |flat| - |Flat(t)|
    && Flat(t) == flat[off - left..] && Reach(v, off) == Reach(Views(t), left)
  }

  lemma ReachedNext(flat: seq<byte>, v: seq<seq<byte>>, off: nat, t: seq<Pbuf>, left: nat)
    requires Reached(flat, v, off, t, left) && Chain(t) && t != [] && t[0].len < left
    ensures Reached(flat, v, off, t[1..], left - t[0].len) && t[1..] != [] && t[0] !in t[1..]
  {
    hide Chain, Flat, Views;
    ChainTail(t);
    FirstView(t);
    if t[1..] == [] {
      NoChain();
    }
    DropMore(flat, off - left, t[0].View(), Flat(t[1..]));
  }

  lemma FirstView(t: seq<Pbuf>)
    requires t != [] && t[0].Ok()
    ensures Views(t) != [] && Views(t)[0] == t[0].View() && |t[0].View()| == t[0].len && Views(t)[1..] == Views(t[1..])
  {
  }

  lemma DropMore(flat: seq<byte>, at: nat, a: seq<byte>, b: seq<byte>)
    requires at <= |flat| && flat[at..] == a + b
    ensures at + |a| <= |flat| && flat[at + |a|..] == b
  {
    assert flat[at..][|a|..] == b;
  }

  lemma ReachedEnd(flat: seq<byte>, v: seq<seq<byte>>, off: nat, t: seq<Pbuf>, left: nat)
    requires Reached(flat, v, off, t, left) && Chain(t) && t != [] && left <= t[0].len
    ensures Reach(v, off) == left && 0 < left <= off <= |flat| && |Flat(t)| == |flat| - off + left
    ensures Flat(t)[left..] == flat[off..] && Flat(t) == flat[off - left..]
  {
    hide Chain, Flat, Views;
    ChainTail(t);
    FirstView(t);
  }

  /** `(s16_t)-off`, the parameter of pbuf_header */
  function Backwards(off: nat): s16 {
    var d: int := off;
    Truncate16(-d)
  }

  lemma BackwardsIs(off: nat)
    requires 0 < off < U16
    ensures var d: int := off; Backwards(off) == if d <= 0x8000 then -d else U16 - d
  {
  }

  /** What becomes of the walk when pbuf_header has moved the payload, or refused to. */
  lemma TrimmedTo(hs: seq<Pbuf>, t: seq<Pbuf>, total: nat, rest: seq<byte>, good: bool)
    requires Emptied(hs, t, total) && Chain(t) && total == |rest| < U16
    requires if good then Flat(t) == rest else |Flat(t)| > |rest|
    ensures Flat(hs + t) == rest <==> good
    ensures good ==> Chain(hs + t)
  {
    hide Chain, Flat, Emptied;
    EmptiedChain(hs, t, total);
  }

  /** The walk over the pbufs to empty. */
  method EmptyFront(p: Pbuf, off: nat, total: nat, ghost c: seq<Pbuf>)
    returns (q: Pbuf, left: nat, ghost hs: seq<Pbuf>, ghost t: seq<Pbuf>)
    requires Chain(c) && c != [] && p == c[0] && 0 < off <= |Flat(c)|
    modifies c`len, c`totLen
    ensures c == hs + t && Chain(t) && t != [] && q == t[0] && Emptied(hs, t, total)
    ensures Reached(old(Flat(c)), old(Views(c)), off, t, left) && left <= q.len
    ensures off <= old(p.len) ==> q == p && left == off && p.len == old(p.len)
  {
    hide Chain, Flat, Emptied, Reached, Views;
    ghost var flat, v := Flat(c), Views(c);
    q, left, hs, t := p, off, [], c;
    assert [] + c == c;
    StartFront(c, total, off);
    while q.len < left
      invariant c == hs + t && Chain(t) && t != [] && q == t[0] && Emptied(hs, t, total)
      invariant Reached(flat, v, off, t, left)
      invariant off <= old(p.len) ==> q == p && left == off && p.len == old(p.len)
      decreases |t|
    {
      assert c[|hs|] == q;
      ghost var emptied := q;
      q, left := EmptyNext(q, left, total, hs, t, flat, v, off);
      hs, t := hs + [emptied], t[1..];
    }
  }

  /** One turn of the walk. */
  method EmptyNext(q: Pbuf, left: nat, total: nat, ghost hs: seq<Pbuf>, ghost t: seq<Pbuf>,
                   ghost flat: seq<byte>, ghost v: seq<seq<byte>>, ghost off: nat) returns (r: Pbuf, rest: nat)
    requires Chain(t) && t != [] && q == t[0] && Emptied(hs, t, total) && Reached(flat, v, off, t, left) && q.len < left
    modifies q`len, q`totLen
    ensures hs + t == (hs + [q]) + t[1..] && Chain(t[1..]) && t[1..] != [] && r == t[1]
    ensures Emptied(hs + [q], t[1..], total) && Reached(flat, v, off, t[1..], rest)
  {
    hide Chain, Flat, Emptied, Reached, Views;
    ReachedNext(flat, v, off, t, left);
    ChainNext(t);
    Associates(hs, [q], t[1..]);
    assert t == [q] + t[1..];
    r, rest := q.next, left - q.len;
    EmptyOne(q, total, hs, t);
  }

  lemma StartFront(c: seq<Pbuf>, total: nat, off: nat)
    requires Chain(c) && 0 < off <= |Flat(c)|
    ensures Emptied([], c, total) && Reached(Flat(c), Views(c), off, c, off)
  {
    assert [] + c == c;
  }

  /**
   * The first-edge trim on the chain of a segment. It leaves the rest of the data, in a proper chain, if and
   * only if the distance within the pbuf it ends in passes for a signed 16-bit number.
   */
  method TrimFront(p: Pbuf, off: nat, ghost c: seq<Pbuf>) returns (failed: bool)
    requires Chain(c) && c != [] && p == c[0] && 0 < off <= |Flat(c)| < U16
    modifies c`start, c`len, c`totLen
    ensures Flat(c) == old(Flat(c))[off..] <==> Reach(old(Views(c)), off) <= 0x8000
    ensures Reach(old(Views(c)), off) <= 0x8000 ==> Chain(c)
    ensures failed ==> var skipped := off - Reach(old(Views(c)), off); 0 <= skipped && Flat(c) == old(Flat(c))[skipped..]
    ensures off <= old(p.len) ==> failed == old(NoHeader(p, Backwards(off), false))
  {
    hide Chain, Flat, Emptied, Reached, Views, Reach, Backwards;
    ghost var flat, v := Flat(c), Views(c);
    FullTotal(c);
    var q, left;
    ghost var hs, t;
    q, left, hs, t := EmptyFront(p, off, p.totLen - off, c);
    ReachedEnd(flat, v, off, t, left);
    BackwardsIs(left);
    AtFront(hs, t, |flat| - off);
    failed := Header(q, Backwards(left), false, t);
    EmptiedChain(hs, t, |flat| - off);
    TrimmedTo(hs, t, |flat| - off, flat[off..], left <= 0x8000);
  }

  /** The assertion of tcp_receive is enough, however the data is spread over pbufs. */
  lemma AssertedOffset(v: seq<seq<byte>>, off: nat)
    requires off < 0x7FFF
    ensures Reach(v, off) <= 0x8000
  {
    ReachBound(v, off);
  }

  /**
   * Without it: 50000 bytes in one pbuf, behind their headers, of which 40000 are to be cut. pbuf_header takes
   * the distance for a step forward, refuses, and nothing is cut.
   */
  method NothingCut(buf: seq<byte>) returns (p: Pbuf)
    requires |buf| == 50054
    ensures fresh(p) && Flat([p]) == buf[54..]
  {
    hide Chain, Flat, Reach, Views;
    p := new Pbuf(RAM, buf, 54);
    p.len, p.totLen := 50000, 50000;
    OnlyOne(p);
    BackwardsIs(40000);
    var failed := TrimFront(p, 40000, [p]);
    assert failed;
  }

  lemma OnlyOne(p: Pbuf)
    requires p.Ok() && p.next == null && p.totLen == p.len
    ensures Chain([p]) && Flat([p]) == p.View() && Views([p]) == [p.View()]
    ensures forall off: nat :: off <= p.len ==> Reach(Views([p]), off) == off
  {
    NoChain();
    assert [p] + [] == [p] && p.View() + [] == p.View();
    ChainCons(p, []);
    assert Views([p]) == [p.View()];
  }

  lemma FullTotal(c: seq<Pbuf>)
    requires Chain(c) && c != [] && |Flat(c)| < U16
    ensures c[0].totLen == |Flat(c)|
  {
    hide Chain, Flat;
    ChainTail(c);
  }

  lemma AtFront(hs: seq<Pbuf>, t: seq<Pbuf>, total: nat)
    requires Emptied(hs, t, total) && t != []
    ensures t[0] in hs + t && forall i :: 0 <= i < |hs| ==> hs[i] != t[0]
  {
    assert (hs + t)[|hs|] == t[0] && forall i :: 0 <= i < |hs| ==> (hs + t)[i] == hs[i];
  }
}
