/**
 * Chains of packet buffers. A pbuf shows `len` bytes of its buffer, links to the next one of
 * the same packet and carries in tot_len the 16-bit length of the packet from there on. The
 * list of pbufs a method works on is a ghost argument; `Flat` is the packet they stand for.
 */
module Pbufs {
  import opened Common

  const U16: int := 0x1_0000

  /** What a 16-bit field keeps of a value. */
  function Low16(x: int): nat { x % U16 }

  function Low8(x: int): nat { x % 256 }

  lemma Low8Next(n: nat)
    ensures Low8(Low8(n) + 1) == Low8(n + 1)
  {
  }

  datatype Kind = RAM | POOL | ROM | REF

  class Pbuf {
    const kind: Kind
    var next: Pbuf?
    /** the memory behind the pbuf, and where in it payload points to */
    var buf: seq<byte>
    var start: nat
    var len: nat
    var totLen: nat
    var ref: nat
    /** not yet given back to its pool or heap */
    var live: bool

    constructor (kind: Kind, buf: seq<byte>, start: nat)
      ensures fresh(this) && this.kind == kind && this.buf == buf && this.start == start
      ensures next == null && len == 0 && totLen == 0 && ref == 1 && live
    {
      this.kind, this.buf, this.start := kind, buf, start;
      next, len, totLen, ref, live := null, 0, 0, 1, true;
    }

    ghost predicate Ok()
      reads this`buf, this`start, this`len
    {
      start + len <= |buf| < U16
    }

    /** The bytes it shows. */
    ghost function View(): seq<byte>
      reads this`buf, this`start, this`len
    {
      if start + len <= |buf| then buf[start..start + len] else []
    }
  }

  /** The bytes each pbuf of a list shows. */
  ghost function Views(c: seq<Pbuf>): (v: seq<seq<byte>>)
    reads c`buf, c`start, c`len
    ensures |v| == |c| && forall i :: 0 <= i < |c| ==> v[i] == c[i].View()
  {
    if c == [] then [] else [c[0].View()] + Views(c[1..])
  }

  ghost function Join(v: seq<seq<byte>>): seq<byte> {
    if v == [] then [] else v[0] + Join(v[1..])
  }

  /** The packet. */
  ghost function Flat(c: seq<Pbuf>): seq<byte>
    reads c`buf, c`start, c`len
  {
    Join(Views(c))
  }

  /** The length of the packet from each pbuf on. */
  ghost function Rests(v: seq<seq<byte>>): (r: seq<nat>)
    ensures |r| == |v| && forall i :: 0 <= i < |v| ==> r[i] == |Join(v[i..])|
  {
    seq(|v|, i requires 0 <= i < |v| => |Join(v[i..])|)
  }

  ghost function After(c: seq<Pbuf>, i: nat): Pbuf? {
    if i + 1 < |c| then c[i + 1] else null
  }

  ghost predicate Distinct(c: seq<Pbuf>) {
    forall i, j :: 0 <= i < j < |c| ==> c[i] != c[j]
  }

  lemma OnlyAt(c: seq<Pbuf>, i: nat)
    requires Distinct(c) && i < |c|
    ensures forall k :: 0 <= k < |c| && k != i ==> c[k] != c[i]
  {
  }

  ghost predicate Linked(c: seq<Pbuf>)
    reads c`next
  {
    && Distinct(c)
    && (forall i :: 0 <= i < |c| ==> c[i].next == After(c, i))
  }

  lemma NextOf(c: seq<Pbuf>, i: nat)
    requires Linked(c) && i < |c|
    ensures c[i].next == After(c, i) && Distinct(c)
  {
  }

  ghost predicate AllOk(c: seq<Pbuf>)
    reads c`buf, c`start, c`len
  {
    forall i :: 0 <= i < |c| ==> c[i].Ok()
  }

  /** tot_len is the length of the packet from here on, modulo 2^16. */
  ghost predicate Totals(c: seq<Pbuf>, r: seq<nat>)
    reads c`totLen
  {
    |c| == |r| && forall i :: 0 <= i < |c| ==> c[i].totLen == Low16(r[i])
  }

  ghost predicate Chain(c: seq<Pbuf>)
    reads c`next, c`totLen, c`buf, c`start, c`len
  {
    Linked(c) && AllOk(c) && Totals(c, Rests(Views(c)))
  }

  lemma {:induction false} JoinConcat(a: seq<seq<byte>>, b: seq<seq<byte>>)
    ensures Join(a + b) == Join(a) + Join(b)
  {
    if a == [] {
      assert a + b == b;
    } else {
      JoinConcat(a[1..], b);
      assert (a + b)[1..] == a[1..] + b;
      Associates(a[0], Join(a[1..]), Join(b));
    }
  }

  lemma ViewsConcat(a: seq<Pbuf>, b: seq<Pbuf>)
    ensures Views(a + b) == Views(a) + Views(b)
    ensures AllOk(a + b) <==> AllOk(a) && AllOk(b)
  {
    hide Views, AllOk;
    var c, l, r := a + b, Views(a + b), Views(a) + Views(b);
    forall i | 0 <= i < |c|
      ensures l[i] == r[i]
    {
      assert c[i] == if i < |a| then a[i] else b[i - |a|];
    }
    OksConcat(a, b);
  }

  lemma OksConcat(a: seq<Pbuf>, b: seq<Pbuf>)
    ensures AllOk(a + b) <==> AllOk(a) && AllOk(b)
  {
    if AllOk(a + b) {
      forall i | 0 <= i < |a| ensures a[i].Ok() { assert (a + b)[i].Ok(); }
      forall i | 0 <= i < |b| ensures b[i].Ok() { assert (a + b)[|a| + i].Ok(); }
    }
  }

  /** Totals that count n bytes more than the chain has. */
  ghost predicate Raised(c: seq<Pbuf>, r: seq<nat>, n: nat)
    reads c`totLen
  {
    |c| == |r| && forall i :: 0 <= i < |c| ==> c[i].totLen == Low16(r[i] + n)
  }

  lemma Low16Add(a: nat, b: nat)
    ensures Low16(Low16(a) + Low16(b)) == Low16(a + b)
  {
  }

  /** Totals of a chain of two, from the totals of the second and the length added to the first. */
  lemma TotalsJoined(a: seq<Pbuf>, b: seq<Pbuf>, v: seq<seq<byte>>, w: seq<seq<byte>>)
    requires Totals(b, Rests(w)) && Raised(a, Rests(v), |Join(w)|)
    ensures Totals(a + b, Rests(v + w))
  {
    hide Join;
    var c, u := a + b, v + w;
    forall i | 0 <= i < |c|
      ensures c[i].totLen == Low16(Rests(u)[i])
    {
      if i < |a| {
        assert u[i..] == v[i..] + w;
        JoinConcat(v[i..], w);
      } else {
        assert u[i..] == w[i - |a|..];
      }
    }
  }

  /** The loop of pbuf_cat: adds a length to every total of a chain and finds its end. */
  method AddToTotals(h: Pbuf, ghost hs: seq<Pbuf>, ghost r: seq<nat>, add: nat, ghost n: nat) returns (p: Pbuf)
    requires Linked(hs) && Totals(hs, r) && hs != [] && h == hs[0] && add == Low16(n)
    modifies hs`totLen
    ensures p == hs[|hs| - 1] && Raised(hs, r, n)
  {
    hide Low16, Linked, Distinct;
    p := h;
    NextOf(hs, 0);
    ghost var i := 0;
    while p.next != null
      invariant Linked(hs) && 0 <= i < |hs| && p == hs[i]
      invariant forall k :: 0 <= k < |hs| ==> hs[k].totLen == Low16(if k < i then r[k] + n else r[k])
      decreases |hs| - i
    {
      Low16Add(r[i], n);
      NextOf(hs, i);
      OnlyAt(hs, i);
      p.totLen := Low16(p.totLen + add);
      p := p.next;
      i := i + 1;
    }
    Low16Add(r[i], n);
    NextOf(hs, i);
    OnlyAt(hs, i);
    p.totLen := Low16(p.totLen + add);
  }

  ghost predicate Apart(a: seq<Pbuf>, b: seq<Pbuf>) {
    forall i, j :: 0 <= i < |a| && 0 <= j < |b| ==> a[i] != b[j]
  }

  /** The link from the end of one chain to another. */
  method LinkTo(p: Pbuf, t: Pbuf, ghost hs: seq<Pbuf>, ghost ts: seq<Pbuf>)
    requires Linked(hs) && Linked(ts) && Apart(hs, ts)
    requires hs != [] && ts != [] && p == hs[|hs| - 1] && t == ts[0]
    modifies p`next
    ensures Linked(hs + ts)
  {
    p.next := t;
    assert forall i :: 0 <= i < |ts| ==> ts[i] != p;
  }

  /** pbuf_cat */
  method Cat(h: Pbuf, t: Pbuf, ghost hs: seq<Pbuf>, ghost ts: seq<Pbuf>)
    requires Chain(hs) && Chain(ts) && hs != [] && ts != [] && h == hs[0] && t == ts[0]
    requires Apart(hs, ts)
    modifies hs`totLen, hs`next
    ensures Chain(hs + ts) && Flat(hs + ts) == old(Flat(hs)) + old(Flat(ts))
  {
    hide Join, Views, Rests, Linked, Totals, AllOk, Raised;
    ghost var v, w := Views(hs), Views(ts);
    assert t.totLen == Low16(|Join(w)|) by { FirstTotal(ts, w); }
    var p := AddToTotals(h, hs, Rests(v), t.totLen, |Join(w)|);
    assert Totals(ts, Rests(w)) by { assert forall i :: 0 <= i < |ts| ==> ts[i] !in hs; }
    LinkTo(p, t, hs, ts);
    TotalsJoined(hs, ts, v, w);
    ViewsConcat(hs, ts);
    JoinConcat(v, w);
  }

  lemma FirstTotal(c: seq<Pbuf>, v: seq<seq<byte>>)
    requires Totals(c, Rests(v)) && c != []
    ensures c[0].totLen == Low16(|Join(v)|)
  {
    assert v[0..] == v;
  }

  /** pbuf_chain */
  method ChainUp(h: Pbuf, t: Pbuf, ghost hs: seq<Pbuf>, ghost ts: seq<Pbuf>)
    requires Chain(hs) && Chain(ts) && hs != [] && ts != [] && h == hs[0] && t == ts[0]
    requires Apart(hs, ts)
    modifies hs`totLen, hs`next, t`ref
    ensures Chain(hs + ts) && Flat(hs + ts) == old(Flat(hs)) + old(Flat(ts))
    ensures t.ref == old(t.ref) + 1
  {
    hide Linked, Totals, AllOk, Views, Rests, Join;
    Cat(h, t, hs, ts);
    t.ref := t.ref + 1;
  }

  ghost function Refs(c: seq<Pbuf>): (r: seq<nat>)
    reads c`ref
    ensures |r| == |c| && forall i :: 0 <= i < |c| ==> r[i] == c[i].ref
  {
    if c == [] then [] else [c[0].ref] + Refs(c[1..])
  }

  /** How many pbufs from the head on only this chain refers to. */
  ghost function Leading(refs: seq<nat>): (n: nat)
    ensures n <= |refs|
  {
    if refs == [] || refs[0] != 1 then 0 else 1 + Leading(refs[1..])
  }

  lemma {:induction false} LeadingAt(refs: seq<nat>, n: nat)
    requires n <= |refs| && (forall i :: 0 <= i < n ==> refs[i] == 1)
    requires n < |refs| ==> refs[n] != 1
    ensures Leading(refs) == n
  {
    if n > 0 {
      LeadingAt(refs[1..], n - 1);
    }
  }

  /** All pbufs of a chain are in use. */
  ghost predicate InUse(c: seq<Pbuf>)
    reads c`ref, c`live
  {
    forall i :: 0 <= i < |c| ==> c[i].ref > 0 && c[i].live
  }

  /** The reference counts after giving back the first n, where the one behind may have lost one. */
  ghost function RefAfter(refs: seq<nat>, n: nat, dropped: bool, k: nat): int
    requires k < |refs|
  {
    if k < n then 0 else if k == n && dropped then (refs[k] as int) - 1 else refs[k]
  }

  ghost predicate Released(c: seq<Pbuf>, refs: seq<nat>, n: nat, dropped: bool)
    reads c`ref, c`live
  {
    |c| == |refs| && forall k :: 0 <= k < |c| ==> c[k].live == (k >= n) && c[k].ref == RefAfter(refs, n, dropped, k)
  }

  /** One turn of pbuf_free. */
  method Unreference(p: Pbuf, ghost c: seq<Pbuf>, ghost refs: seq<nat>, ghost n: nat) returns (gone: bool)
    requires Distinct(c) && n < |c| && p == c[n] && Released(c, refs, n, false) && refs[n] > 0
    modifies p`ref, p`live
    ensures gone == (refs[n] == 1)
    ensures if gone then Released(c, refs, n + 1, false) else Released(c, refs, n, true)
  {
    hide Distinct;
    OnlyAt(c, n);
    p.ref := p.ref - 1;
    gone := p.ref == 0;
    if gone {
      p.live := false;
    }
  }

  /** pbuf_free; the count is an 8-bit number */
  method Free(p: Pbuf?, ghost c: seq<Pbuf>) returns (count: nat)
    requires Linked(c) && InUse(c) && p == if c == [] then null else c[0]
    modifies c`ref, c`live
    ensures Released(c, old(Refs(c)), Leading(old(Refs(c))), true)
    ensures count == Low8(Leading(old(Refs(c))))
  {
    hide Linked, Refs, Leading, Released, RefAfter, Low8, InUse;
    count := 0;
    var q := p;
    ghost var refs, n := Refs(c), 0;
    NoneReleased(c, refs);
    assert Low8(0) == 0 by { Low8Zero(); }
    while q != null
      invariant Linked(c) && n <= |c| == |refs| && count == Low8(n)
      invariant forall k :: 0 <= k < n ==> refs[k] == 1
      invariant Released(c, refs, n, q == null)
      invariant if q != null then n < |c| && q == c[n] else n < |c| ==> refs[n] != 1
      decreases |c| - n, q != null
    {
      NextOf(c, n);
      var next := q.next;
      var gone := Unreference(q, c, refs, n);
      if gone {
        Low8Next(n);
        count := Low8(count + 1);
        q := next;
        n := n + 1;
        if q == null { AllReleased(c, refs); }
      } else {
        q := null;
      }
    }
    LeadingAt(refs, n);
  }

  lemma Low8Zero()
    ensures Low8(0) == 0
  {
  }

  lemma NoneReleased(c: seq<Pbuf>, refs: seq<nat>)
    requires InUse(c) && refs == Refs(c)
    ensures Released(c, refs, 0, c == []) && (forall k :: 0 <= k < |refs| ==> refs[k] > 0)
  {
  }

  lemma AllReleased(c: seq<Pbuf>, refs: seq<nat>)
    requires Released(c, refs, |c|, false)
    ensures Released(c, refs, |c|, true)
  {
  }

  lemma ChainTail(c: seq<Pbuf>)
    requires Chain(c) && c != []
    ensures Chain(c[1..]) && c[0] !in c[1..] && Flat(c) == c[0].View() + Flat(c[1..])
    ensures c[0].totLen == Low16(|Flat(c)|) && c[0].Ok()
  {
    hide Linked, Totals, Rests, Join, AllOk, Low16, Views;
    FirstTotal(c, Views(c));
    assert c == [c[0]] + c[1..];
    ViewsConcat([c[0]], c[1..]);
    assert Views([c[0]]) == [c[0].View()];
    LinkedTail(c);
    TotalsTail(c, Views(c));
    assert Views(c)[1..] == Views(c[1..]) && Views(c)[0] == c[0].View();
    assert c[0].Ok() by { OkLen(c, 0); OksBefore(c, 0); }
  }

  lemma LinkedTail(c: seq<Pbuf>)
    requires Linked(c) && c != []
    ensures Linked(c[1..]) && c[0] !in c[1..]
  {
    LinkedSuffix(c, 1);
  }

  lemma TotalsTail(c: seq<Pbuf>, v: seq<seq<byte>>)
    requires Totals(c, Rests(v)) && c != []
    ensures Totals(c[1..], Rests(v[1..])) && Join(v) == v[0] + Join(v[1..])
  {
    var d, w := c[1..], v[1..];
    forall i | 0 <= i < |d|
      ensures d[i].totLen == Low16(Rests(w)[i])
    {
      assert w[i..] == v[i + 1..] && d[i] == c[i + 1];
    }
  }

  lemma JoinPush(x: seq<byte>, w: seq<seq<byte>>)
    ensures Join([x] + w) == x + Join(w)
  {
    assert ([x] + w)[1..] == w;
  }

  lemma TotalsCons(p: Pbuf, c: seq<Pbuf>, x: seq<byte>, w: seq<seq<byte>>)
    requires Totals(c, Rests(w)) && p.totLen == Low16(|x| + |Join(w)|)
    ensures Totals([p] + c, Rests([x] + w))
    ensures Join([x] + w) == x + Join(w)
  {
    hide Join, Low16, Rests;
    var d, v := [p] + c, [x] + w;
    JoinPush(x, w);
    forall i | 0 <= i < |d|
      ensures d[i].totLen == Low16(Rests(v)[i])
    {
      if i == 0 {
        assert v[0..] == v;
      } else {
        assert v[i..] == w[i - 1..];
        assert d[i] == c[i - 1];
      }
    }
  }

  lemma LinkedCons(p: Pbuf, c: seq<Pbuf>)
    requires Linked(c) && p !in c && p.next == if c == [] then null else c[0]
    ensures Linked([p] + c)
  {
    var d := [p] + c;
    forall i | 0 <= i < |d|
      ensures d[i].next == After(d, i)
    {
      if i > 0 {
        assert d[i] == c[i - 1] && After(d, i) == After(c, i - 1);
      }
    }
  }

  lemma ChainCons(p: Pbuf, c: seq<Pbuf>)
    requires Chain(c) && p !in c && p.Ok() && p.next == if c == [] then null else c[0]
    requires p.totLen == Low16(p.len + |Flat(c)|)
    ensures Chain([p] + c) && Flat([p] + c) == p.View() + Flat(c)
  {
    hide Linked, Totals, Rests, Join;
    ViewsConcat([p], c);
    assert Views([p]) == [p.View()];
    LinkedCons(p, c);
    TotalsCons(p, c, p.View(), Views(c));
  }

  lemma NoChain()
    ensures Chain([]) && Flat([]) == []
    ensures Refs([]) == [] && Released([], [], Leading([]), true)
  {
  }

  lemma ChainLinks(c: seq<Pbuf>)
    requires Chain(c)
    ensures Linked(c) && (c != [] ==> c[0].next == After(c, 0))
  {
  }

  /** The first part of pbuf_dechain: the head becomes a packet of its own. */
  method Detach(p: Pbuf, q: Pbuf, ghost t: seq<Pbuf>)
    requires Chain([p] + t) && t != [] && q == t[0]
    modifies p`next, p`totLen, q`totLen
    ensures Chain([p]) && Flat([p]) == old(p.View())
    ensures Chain(t) && Flat(t) == old(Flat(t))
  {
    hide Chain, Flat, Low16;
    ghost var c := [p] + t;
    assert c[1..] == t;
    ChainTail(c);
    ChainTail(t);
    Low16Sub(p.len, |Flat(t)|);
    assert |Flat(c)| == p.len + |Flat(t)|;
    q.totLen := Low16(p.totLen - p.len);
    p.next := null;
    p.totLen := p.len;
    NoChain();
    ChainCons(p, []);
    assert [p] + [] == [p];
  }

  lemma Low16Sub(a: nat, b: nat)
    ensures Low16(Low16(a + b) - a) == Low16(b)
    ensures a < U16 ==> Low16(a) == a
  {
  }

  /** pbuf_dechain */
  method Dechain(p: Pbuf, ghost t: seq<Pbuf>) returns (r: Pbuf?)
    requires Chain([p] + t) && InUse(t)
    modifies p`next, p`totLen, t`totLen, t`ref, t`live
    ensures Chain([p]) && Flat([p]) == old(p.View())
    ensures Chain(t) && Flat(t) == old(Flat(t))
    ensures Released(t, old(Refs(t)), Leading(old(Refs(t))), true)
    ensures r == if t == [] || Low8(Leading(old(Refs(t)))) > 0 then null else t[0]
    ensures r != null ==> (r.live <==> Leading(old(Refs(t))) == 0)
  {
    hide Chain, Refs, Leading, Released, Low8, Flat, InUse;
    HeadLink(p, t);
    var q := p.next;
    if q != null {
      Detach(p, q, t);
      assert Linked(t) by { ChainLinks(t); }
      var gone := Free(q, t);
      FirstReleased(t, old(Refs(t)), Leading(old(Refs(t))));
      r := if gone > 0 then null else q;
    } else {
      assert [p] + t == [p];
      NoChain();
      OneView(p);
      r := null;
    }
  }

  lemma HeadLink(p: Pbuf, t: seq<Pbuf>)
    requires Chain([p] + t)
    ensures p.next == if t == [] then null else t[0]
  {
    ChainLinks([p] + t);
  }

  lemma FirstReleased(c: seq<Pbuf>, refs: seq<nat>, n: nat)
    requires Released(c, refs, n, true) && c != []
    ensures c[0].live <==> n == 0
    ensures n == 0 ==> c[0].ref == (refs[0] as int) - 1
    ensures n == 0 ==> forall i :: 0 <= i < |c| ==> c[i].live && (i > 0 ==> c[i].ref == refs[i])
  {
  }

  /** The count of released pbufs is one byte: of a tail of 256 it says that nothing is gone. */
  lemma CountWraps(refs: seq<nat>)
    requires |refs| == 256 && forall i :: 0 <= i < |refs| ==> refs[i] == 1
    ensures Leading(refs) == 256 && Low8(Leading(refs)) == 0
  {
    LeadingAt(refs, 256);
  }

  lemma OneView(h: Pbuf)
    requires Chain([h])
    ensures Flat([h]) == h.View()
  {
    hide Chain, Flat;
    ChainTail([h]);
    NoChain();
    assert [h][1..] == [];
  }

  lemma ChainDistinct(c: seq<Pbuf>)
    requires Chain(c)
    ensures Distinct(c)
  {
  }

  /** One more reference to the first pbuf of a chain: nothing of it can go. */
  lemma HeldByTwo(c: seq<Pbuf>, before: seq<nat>, refs: seq<nat>)
    requires |c| == |before| == |refs| > 0 && before[0] > 0 && refs == before[0 := before[0] + 1]
    ensures Leading(refs) == 0 == Low8(Leading(refs))
    ensures Released(c, refs, 0, true) ==> forall i :: 0 <= i < |c| ==> c[i].live && c[i].ref == before[i]
  {
  }

  lemma InUseFrom(c: seq<Pbuf>, refs: seq<nat>)
    requires |c| == |refs| && forall i :: 0 <= i < |c| ==> c[i].live && c[i].ref == refs[i] && refs[i] > 0
    ensures InUse(c) && Refs(c) == refs
  {
  }

  lemma InUseRefs(c: seq<Pbuf>)
    requires InUse(c)
    ensures forall i :: 0 <= i < |c| ==> Refs(c)[i] > 0 && c[i].live && Refs(c)[i] == c[i].ref
  {
  }

  /** Chaining to a single pbuf and dechaining it again gives both packets back as they were. */
  method ChainThenDechain(h: Pbuf, t: Pbuf, ghost ts: seq<Pbuf>) returns (r: Pbuf?)
    requires Chain([h]) && Chain(ts) && ts != [] && t == ts[0] && h !in ts && InUse(ts)
    modifies h`totLen, h`next, ts`totLen, ts`ref, ts`live
    ensures r == t && Chain([h]) && Flat([h]) == old(Flat([h]))
    ensures Chain(ts) && Flat(ts) == old(Flat(ts))
    ensures InUse(ts) && Refs(ts) == old(Refs(ts))
  {
    hide Chain, Flat, Leading, Low8, Released, Distinct, After, Refs, InUse;
    ghost var before := Refs(ts);
    assert Apart([h], ts);
    OneView(h);
    ChainDistinct(ts);
    OnlyAt(ts, 0);
    InUseRefs(ts);
    ChainUp(h, t, [h], ts);
    ghost var refs := before[0 := before[0] + 1];
    InUseFrom(ts, refs);
    r := Dechain(h, ts);
    HeldByTwo(ts, before, refs);
    InUseFrom(ts, before);
  }

  lemma Low16Shift(x: nat, d: int)
    requires 0 <= x + d
    ensures Low16(Low16(x) + d) == Low16(x + d)
  {
    assert x == U16 * (x / U16) + Low16(x);
    ModulusShift(Low16(x) + d, x / U16);
  }

  lemma ModulusShift(x: int, k: int)
    ensures (x + U16 * k) % U16 == x % U16
  {
    var q := x / U16;
    assert x + U16 * k == U16 * (q + k) + x % U16;
  }

  /** When pbuf_header refuses. */
  predicate NoHeader(p: Pbuf, inc: int, force: bool)
    reads p`len, p`start
  {
    if inc <= 0 then -inc > p.len
    else if p.kind == RAM || p.kind == POOL then inc > p.start
    else !force
  }

  /** The payload pointer and the lengths of the first pbuf of a packet move. */
  method MoveStart(p: Pbuf, inc: int, ghost c: seq<Pbuf>)
    requires Chain(c) && c != [] && p == c[0] && inc <= p.start && -inc <= p.len
    modifies p`start, p`len, p`totLen
    ensures Chain(c) && p.Ok() && p.start == old(p.start) - inc && p.len == old(p.len) + inc
    ensures Flat(c) == p.View() + old(Flat(c[1..])) && old(Flat(c)) == old(p.View()) + old(Flat(c[1..]))
  {
    hide Chain, Flat, Low16, After;
    ghost var t := c[1..];
    assert c == [p] + t;
    ChainTail(c);
    Low16Shift(|Flat(c)|, inc);
    assert p.next == if t == [] then null else t[0] by { ChainNext(c); }
    p.start := p.start - inc;
    p.len := p.len + inc;
    p.totLen := Low16(p.totLen + inc);
    ChainCons(p, t);
  }

  lemma ChainNext(c: seq<Pbuf>)
    requires Chain(c) && c != []
    ensures c[0].next == if c[1..] == [] then null else c[1..][0]
  {
    ChainLinks(c);
  }

  /** pbuf_header_impl on the first pbuf of a packet */
  method Header(p: Pbuf, inc: int, force: bool, ghost c: seq<Pbuf>) returns (failed: bool)
    requires Chain(c) && c != [] && p == c[0]
    requires force && (p.kind == REF || p.kind == ROM) ==> inc <= p.start
    modifies p`start, p`len, p`totLen
    ensures failed == old(NoHeader(p, inc, force)) && Chain(c)
    ensures failed <==> || (inc < 0 && -inc > old(p.len))
                        || (inc > 0 && if p.kind == RAM || p.kind == POOL then inc > old(p.start) else !force)
    ensures failed ==> Flat(c) == old(Flat(c))
    ensures !failed && inc <= 0 ==> -inc <= |old(Flat(c))| && Flat(c) == old(Flat(c))[-inc..]
    ensures !failed && inc > 0 ==> inc <= old(p.start) <= |p.buf|
    ensures !failed && inc > 0 ==> Flat(c) == p.buf[old(p.start) - inc..old(p.start)] + old(Flat(c))
  {
    hide Chain, Flat;
    if inc == 0 {
      return false;
    }
    if inc < 0 && -inc > p.len {
      return true;
    }
    if p.kind == RAM || p.kind == POOL {
      if p.start - inc < 0 {
        return true;
      }
    } else if inc > 0 && !force {
      return true;
    }
    assert p.Ok() by { ChainTail(c); }
    ghost var rest := Flat(c[1..]);
    MoveStart(p, inc, c);
    HeaderView(p.buf, p.start, p.len, inc, rest);
    failed := false;
  }

  /** What a pbuf shows before and after its start moves. */
  lemma HeaderView(buf: seq<byte>, start: nat, len: nat, inc: int, rest: seq<byte>)
    requires start + len <= |buf| && inc <= len && 0 <= start + inc
    ensures var now, was := buf[start..start + len] + rest, buf[start + inc..start + len] + rest;
            if inc <= 0 then -inc <= |was| && now == was[-inc..] else now == buf[start..start + inc] + was
  {
  }

  lemma JoinSplit(v: seq<seq<byte>>, i: nat)
    requires i <= |v|
    ensures Join(v) == Join(v[..i]) + Join(v[i..])
  {
    assert v == v[..i] + v[i..];
    JoinConcat(v[..i], v[i..]);
  }

  lemma JoinCons(v: seq<seq<byte>>, i: nat)
    requires i < |v|
    ensures Join(v[i..]) == v[i] + Join(v[i + 1..])
    ensures Join(v[..i + 1]) == Join(v[..i]) + v[i]
  {
    assert v[i..][1..] == v[i + 1..];
    assert v[..i + 1] == v[..i] + [v[i]];
    JoinConcat(v[..i], [v[i]]);
    assert Join([v[i]]) == v[i] + [];
  }

  /** The views of a chain that ends after `rem` bytes of pbuf i. */
  ghost function CutViews(v: seq<seq<byte>>, i: nat, rem: nat): seq<seq<byte>>
    requires i < |v| && rem <= |v[i]|
  {
    v[..i] + [v[i][..rem]]
  }

  lemma CutJoin(v: seq<seq<byte>>, i: nat, rem: nat)
    requires i < |v| && rem <= |v[i]|
    ensures var n := |Join(v[..i])| + rem; n <= |Join(v)| && Join(CutViews(v, i, rem)) == Join(v)[..n]
  {
    JoinSplit(v, i);
    JoinCons(v, i);
    JoinConcat(v[..i], [v[i][..rem]]);
    assert Join([v[i][..rem]]) == v[i][..rem] + [];
  }

  lemma CutRests(v: seq<seq<byte>>, i: nat, rem: nat, k: nat)
    requires i < |v| && rem <= |v[i]| && k <= i
    ensures |Join(CutViews(v, i, rem)[k..])| == |Join(v[k..])| - (|Join(v)| - (|Join(v[..i])| + rem))
    ensures k == i ==> |Join(CutViews(v, i, rem)[k..])| == rem
  {
    hide Join;
    CutJoin(v, i, rem);
    CutJoin(v[k..], i - k, rem);
    assert v[k..][..i - k] == v[k..i];
    assert CutViews(v, i, rem)[k..] == CutViews(v[k..], i - k, rem);
    JoinSplit(v, k);
    JoinSplit(v[..i], k);
    assert v[..i][..k] == v[..k] && v[..i][k..] == v[k..i];
    if k == i {
      assert v[k..i] == [];
      JoinNothing();
    }
  }

  lemma JoinNothing()
    ensures Join([]) == []
  {
  }

  /** Totals changed by a shift up to position i. */
  ghost predicate Shifted(c: seq<Pbuf>, r: seq<nat>, i: nat, d: int)
    reads c`totLen
  {
    |c| == |r| && forall k :: 0 <= k < |c| ==> c[k].totLen == Low16(if k < i then r[k] + d else r[k])
  }

  /** The new packet ends after `rem` bytes of pbuf i, and the totals before it say so. */
  ghost predicate AtCut(c: seq<Pbuf>, v: seq<seq<byte>>, i: nat, rem: nat)
    reads c`next, c`totLen, c`buf, c`start, c`len
  {
    && Linked(c) && AllOk(c) && v == Views(c) && i < |c| && rem <= |v[i]|
    && Shifted(c, Rests(v), i, |Join(v[..i])| + rem - |Join(v)|)
  }

  /** The loop of pbuf_realloc: steps over the pbufs to keep. */
  method SkipKept(p: Pbuf, newLen: nat, grow: int, ghost c: seq<Pbuf>, ghost v: seq<seq<byte>>)
    returns (q: Pbuf, rem: nat, ghost i: nat)
    requires Chain(c) && v == Views(c) && c != [] && p == c[0]
    requires newLen < |Join(v)| < U16 && grow == newLen - |Join(v)|
    modifies c`totLen
    ensures i < |c| && q == c[i] && newLen == |Join(v[..i])| + rem && AtCut(c, v, i, rem)
  {
    hide Chain, Join, AtCut, Skipping;
    q, rem := p, newLen;
    i := 0;
    StartSkipping(c, v, newLen);
    while rem > q.len
      invariant Skipping(c, v, i, rem, newLen) && q == Node(c, i)
      decreases |c| - i
    {
      q, rem := SkipOne(q, rem, grow, c, v, i, newLen);
      i := i + 1;
    }
    StopSkipping(c, v, i, rem, newLen);
  }

  /** The first i pbufs are kept whole, and their totals say so. */
  ghost predicate Skipping(c: seq<Pbuf>, v: seq<seq<byte>>, i: nat, rem: nat, newLen: nat)
    reads c`next, c`totLen, c`buf, c`start, c`len
  {
    && Linked(c) && AllOk(c) && v == Views(c) && i < |c|
    && newLen == |Join(v[..i])| + rem < |Join(v)| && Shifted(c, Rests(v), i, newLen - |Join(v)|)
  }

  ghost function Node(c: seq<Pbuf>, i: nat): Pbuf? {
    if i < |c| then c[i] else null
  }

  lemma StartSkipping(c: seq<Pbuf>, v: seq<seq<byte>>, newLen: nat)
    requires Chain(c) && v == Views(c) && c != [] && newLen < |Join(v)|
    ensures Skipping(c, v, 0, newLen, newLen)
  {
    hide Join, Rests, Shifted, Linked, AllOk, Views;
    JoinNothing();
    assert v[..0] == [];
    NoneShifted(c, Rests(v), newLen - |Join(v)|);
  }

  lemma StopSkipping(c: seq<Pbuf>, v: seq<seq<byte>>, i: nat, rem: nat, newLen: nat)
    requires Skipping(c, v, i, rem, newLen) && rem <= c[i].len
    ensures i < |c| && newLen == |Join(v[..i])| + rem && AtCut(c, v, i, rem)
  {
    hide Join, Rests, Shifted, Linked, AllOk, Views;
    OkLen(c, i);
  }

  method SkipOne(q: Pbuf, rem: nat, grow: int, ghost c: seq<Pbuf>, ghost v: seq<seq<byte>>, ghost i: nat, ghost newLen: nat)
    returns (r: Pbuf, left: nat)
    requires Skipping(c, v, i, rem, newLen) && q == c[i] && rem > q.len && grow == newLen - |Join(v)|
    modifies q`totLen
    ensures Skipping(c, v, i + 1, left, newLen) && r == Node(c, i + 1)
  {
    hide Linked, Distinct, Views, Rests, Join, AllOk, Shifted;
    OkLen(c, i);
    NextOf(c, i);
    StepOver(v, i, rem);
    ShiftTotal(q, grow, c, Rests(v), i);
    r, left := q.next, rem - q.len;
  }

  method ShiftTotal(q: Pbuf, d: int, ghost c: seq<Pbuf>, ghost r: seq<nat>, ghost i: nat)
    requires Distinct(c) && Shifted(c, r, i, d) && i < |c| && q == c[i] && r[i] + d >= 0
    modifies q`totLen
    ensures Shifted(c, r, i + 1, d)
  {
    hide Low16, Distinct;
    OnlyAt(c, i);
    Low16Shift(r[i], d);
    q.totLen := Low16(q.totLen + d);
  }

  lemma ShiftedBefore(c: seq<Pbuf>, r: seq<nat>, i: nat, d: int)
    requires Shifted(c, r, i, d) && i < |c|
    ensures forall k :: 0 <= k < i ==> c[k].totLen == Low16(r[k] + d)
  {
  }

  lemma NoneShifted(c: seq<Pbuf>, r: seq<nat>, d: int)
    requires Totals(c, r)
    ensures Shifted(c, r, 0, d)
  {
  }

  lemma StepOver(v: seq<seq<byte>>, i: nat, rem: nat)
    requires i < |v| && |v[i]| < rem && |Join(v[..i])| + rem < |Join(v)|
    ensures i + 1 < |v| && |Join(v[..i])| + rem == |Join(v[..i + 1])| + rem - |v[i]|
    ensures Rests(v)[i] + |Join(v[..i])| + rem - |Join(v)| >= 0
  {
    JoinSplit(v, i);
    JoinCons(v, i);
  }

  lemma OkLen(c: seq<Pbuf>, i: nat)
    requires AllOk(c) && i < |c|
    ensures Views(c)[i] == c[i].View() && |c[i].View()| == c[i].len
  {
  }

  lemma ShorterView(buf: seq<byte>, start: nat, len: nat, rem: nat)
    requires rem <= len && start + len <= |buf|
    ensures buf[start..start + len][..rem] == buf[start..start + rem] == buf[..start + rem][start..start + rem]
  {
    var a, b, d := buf[start..start + len][..rem], buf[start..start + rem], buf[..start + rem][start..start + rem];
    assert |a| == |b| == |d| && forall i :: 0 <= i < rem ==> a[i] == b[i] == d[i];
  }

  /** The new last pbuf: heap memory behind its data is given back. */
  method Shorten(q: Pbuf, rem: nat)
    requires q.Ok() && rem <= q.len
    modifies q`buf, q`len, q`totLen
    ensures q.Ok() && q.View() == old(q.View())[..rem] && q.totLen == rem < U16
  {
    ShorterView(q.buf, q.start, q.len, rem);
    if q.kind == RAM && rem != q.len {
      q.buf := q.buf[..q.start + rem];
    }
    q.len := rem;
    q.totLen := q.len;
  }

  lemma ViewsAre(d: seq<Pbuf>, w: seq<seq<byte>>)
    requires |d| == |w| && forall k :: 0 <= k < |d| ==> d[k].View() == w[k]
    ensures Views(d) == w
  {
    hide Views;
  }

  lemma KeptTotals(d: seq<Pbuf>, v: seq<seq<byte>>, i: nat, rem: nat)
    requires i < |v| && rem <= |v[i]| && |d| == i + 1
    requires d[i].totLen == rem < U16
    requires forall k :: 0 <= k < i ==> d[k].totLen == Low16(Rests(v)[k] + |Join(v[..i])| + rem - |Join(v)|)
    ensures Totals(d, Rests(CutViews(v, i, rem)))
  {
    hide Join, Rests, CutViews, Low16;
    var r := Rests(CutViews(v, i, rem));
    assert |r| == i + 1 by { CutSize(v, i, rem); }
    SmallTotal(rem);
    forall k | 0 <= k < |d|
      ensures d[k].totLen == Low16(r[k])
    {
      CutRestAt(v, i, rem, k);
    }
  }

  lemma SmallTotal(n: nat)
    requires n < U16
    ensures Low16(n) == n
  {
  }

  lemma CutSize(v: seq<seq<byte>>, i: nat, rem: nat)
    requires i < |v| && rem <= |v[i]|
    ensures |CutViews(v, i, rem)| == i + 1
  {
  }

  lemma CutRestAt(v: seq<seq<byte>>, i: nat, rem: nat, k: nat)
    requires i < |v| && rem <= |v[i]| && k <= i
    ensures var r := Rests(CutViews(v, i, rem));
            k < |r| && r[k] == Rests(v)[k] + |Join(v[..i])| + rem - |Join(v)| && (k == i ==> r[k] == rem)
  {
    hide Join, Rests, CutViews;
    CutSize(v, i, rem);
    CutRests(v, i, rem, k);
  }

  /** What makes the kept part of a shortened chain a chain. */
  lemma KeptChain(d: seq<Pbuf>, v: seq<seq<byte>>, i: nat, rem: nat)
    requires i < |v| && rem <= |v[i]| && |d| == i + 1 && Linked(d) && AllOk(d)
    requires forall k :: 0 <= k < i ==> d[k].View() == v[k]
    requires d[i].View() == v[i][..rem] && d[i].totLen == rem < U16
    requires forall k :: 0 <= k < i ==> d[k].totLen == Low16(Rests(v)[k] + |Join(v[..i])| + rem - |Join(v)|)
    ensures |Join(v[..i])| + rem <= |Join(v)|
    ensures Chain(d) && Flat(d) == Join(v)[..|Join(v[..i])| + rem]
  {
    hide Linked, AllOk, Join, Views, Rests, Totals;
    var w := CutViews(v, i, rem);
    ViewsAre(d, w);
    CutJoin(v, i, rem);
    KeptTotals(d, v, i, rem);
  }

  lemma LinkedPrefix(c: seq<Pbuf>, i: nat)
    requires Distinct(c) && i < |c| && (forall k :: 0 <= k < i ==> c[k].next == After(c, k)) && c[i].next == null
    ensures Linked(c[..i + 1])
  {
    var d := c[..i + 1];
    forall k | 0 <= k < |d|
      ensures d[k].next == After(d, k)
    {
      if k < i {
        assert d[k] == c[k] && After(c, k) == c[k + 1];
      }
    }
  }

  lemma LinkedSuffix(c: seq<Pbuf>, i: nat)
    requires Linked(c) && i <= |c|
    ensures Linked(c[i..])
  {
    var d := c[i..];
    forall k | 0 <= k < |d|
      ensures d[k].next == After(d, k)
    {
      assert d[k] == c[k + i] && After(d, k) == After(c, k + i);
    }
  }

  /** Those of the first k pbufs of a chain that a shorter packet keeps are as they were. */
  twostate predicate Kept(c: seq<Pbuf>, k: nat)
    reads c`live, c`ref
  {
    k <= |c| && forall i :: 0 <= i < k ==> c[i].live == old(c[i].live) && c[i].ref == old(c[i].ref)
  }

  /** The pbufs from k on have lost the reference of the one before. */
  ghost predicate Behind(c: seq<Pbuf>, k: nat, refs: seq<nat>)
    reads c`live, c`ref
  {
    k <= |c| == |refs| && Released(c[k..], refs[k..], Leading(refs[k..]), true)
  }

  lemma RefsBehind(c: seq<Pbuf>, k: nat)
    requires k <= |c|
    ensures Refs(c[k..]) == Refs(c)[k..]
  {
  }

  /** A chain whose first i + 1 pbufs show and count what a shorter packet needs. */
  ghost predicate Trimmed(c: seq<Pbuf>, v: seq<seq<byte>>, i: nat, rem: nat)
    reads c`next, c`totLen, c`buf, c`start, c`len
  {
    && i < |c| == |v| && rem <= |v[i]| && Distinct(c)
    && InFront(c[..i], c, v, Rests(v), |Join(v[..i])| + rem - |Join(v)|)
    && c[i].Ok() && c[i].View() == v[i][..rem] && c[i].totLen == rem < U16
  }

  /** The pbufs in front of the new last one: unchanged but for their totals. */
  ghost predicate InFront(d: seq<Pbuf>, c: seq<Pbuf>, v: seq<seq<byte>>, r: seq<nat>, shift: int)
    reads d`next, d`totLen, d`buf, d`start, d`len
  {
    && |d| <= |v| == |r|
    && (forall k :: 0 <= k < |d| ==> d[k].next == After(c, k) && d[k].Ok() && d[k].View() == v[k])
    && (forall k :: 0 <= k < |d| ==> d[k].totLen == Low16(r[k] + shift))
  }

  lemma FrontAtCut(c: seq<Pbuf>, v: seq<seq<byte>>, r: seq<nat>, i: nat, shift: int)
    requires Linked(c) && AllOk(c) && v == Views(c) && i < |c| && Shifted(c, r, i, shift)
    ensures InFront(c[..i], c, v, r, shift)
  {
    hide Views, Low16, Linked, AllOk, Shifted, After;
    ShiftedBefore(c, r, i, shift);
    LinksBefore(c, i);
    OksBefore(c, i);
    assert |r| == |c| by { ShiftedSize(c, r, i, shift); }
    var d := c[..i];
    forall k | 0 <= k < |d|
      ensures d[k].next == After(c, k) && d[k].Ok() && d[k].View() == v[k] && d[k].totLen == Low16(r[k] + shift)
    {
      assert d[k] == c[k];
    }
  }

  lemma ShiftedSize(c: seq<Pbuf>, r: seq<nat>, i: nat, d: int)
    requires Shifted(c, r, i, d)
    ensures |c| == |r|
  {
  }

  lemma FrontIs(c: seq<Pbuf>, v: seq<seq<byte>>, r: seq<nat>, i: nat, shift: int)
    requires i <= |c| && InFront(c[..i], c, v, r, shift)
    ensures i <= |v| == |r|
    ensures forall k :: 0 <= k < i ==> c[k].next == After(c, k) && c[k].Ok() && c[k].View() == v[k]
    ensures forall k :: 0 <= k < i ==> c[k].totLen == Low16(r[k] + shift)
  {
    hide Low16, After;
    forall k | 0 <= k < i
      ensures c[k].next == After(c, k) && c[k].Ok() && c[k].View() == v[k] && c[k].totLen == Low16(r[k] + shift)
    {
      assert c[..i][k] == c[k];
    }
  }

  method TrimLast(q: Pbuf, rem: nat, ghost c: seq<Pbuf>, ghost v: seq<seq<byte>>, ghost i: nat)
    requires AtCut(c, v, i, rem) && q == c[i]
    modifies q`buf, q`len, q`totLen
    ensures Trimmed(c, v, i, rem)
  {
    hide Views, Rests, Join, Low16, Linked, Distinct, AllOk, Shifted, InFront;
    FrontAtCut(c, v, Rests(v), i, |Join(v[..i])| + rem - |Join(v)|);
    OkLen(c, i);
    OksBefore(c, i);
    NextOf(c, i);
    OnlyAt(c, i);
    Shorten(q, rem);
  }

  method FreeBehind(next: Pbuf?, ghost c: seq<Pbuf>, ghost k: nat)
    requires Linked(c) && InUse(c) && k <= |c| && next == if k < |c| then c[k] else null
    modifies c`ref, c`live
    ensures Behind(c, k, old(Refs(c))) && Kept(c, k)
  {
    hide Refs, Leading, Released, Linked, Distinct, InUse;
    LinkedSuffix(c, k);
    InUseSuffix(c, k);
    RefsBehind(c, k);
    assert Distinct(c) by { LinkedDistinct(c); }
    KeptApart(c, k);
    var _ := Free(next, c[k..]);
  }

  method EndHere(q: Pbuf, ghost c: seq<Pbuf>, ghost v: seq<seq<byte>>, ghost i: nat, ghost rem: nat)
    requires Trimmed(c, v, i, rem) && q == c[i]
    modifies q`next
    ensures |Join(v[..i])| + rem <= |Join(v)|
    ensures Chain(c[..i + 1]) && Flat(c[..i + 1]) == Join(v)[..|Join(v[..i])| + rem]
  {
    hide Chain, Flat, Rests, Join, Low16, Distinct, InFront;
    OnlyAt(c, i);
    q.next := null;
    TrimmedChain(c, v, i, rem);
  }

  lemma TrimmedChain(c: seq<Pbuf>, v: seq<seq<byte>>, i: nat, rem: nat)
    requires Trimmed(c, v, i, rem) && c[i].next == null
    ensures |Join(v[..i])| + rem <= |Join(v)|
    ensures Chain(c[..i + 1]) && Flat(c[..i + 1]) == Join(v)[..|Join(v[..i])| + rem]
  {
    hide Chain, Flat, Rests, Join, Low16, Distinct, Linked, AllOk, InFront;
    var d := c[..i + 1];
    FrontIs(c, v, Rests(v), i, |Join(v[..i])| + rem - |Join(v)|);
    LinkedPrefix(c, i);
    OksMake(d);
    KeptChain(d, v, i, rem);
  }

  /** The end of pbuf_realloc: the packet ends here, the pbufs behind are freed. */
  method CutChain(q: Pbuf, rem: nat, ghost c: seq<Pbuf>, ghost v: seq<seq<byte>>, ghost i: nat)
    requires AtCut(c, v, i, rem) && InUse(c) && q == c[i]
    modifies q`buf, q`len, q`totLen, q`next, c`ref, c`live
    ensures |Join(v[..i])| + rem <= |Join(v)|
    ensures Chain(c[..i + 1]) && Flat(c[..i + 1]) == Join(v)[..|Join(v[..i])| + rem]
    ensures Behind(c, i + 1, old(Refs(c))) && Kept(c, i + 1)
  {
    hide Chain, Flat, Join, Refs, Behind, Linked, InUse, Trimmed, AtCut;
    CutLinks(c, v, i, rem);
    TrimLast(q, rem, c, v, i);
    FreeBehind(q.next, c, i + 1);
    EndHere(q, c, v, i, rem);
  }

  lemma CutLinks(c: seq<Pbuf>, v: seq<seq<byte>>, i: nat, rem: nat)
    requires AtCut(c, v, i, rem)
    ensures Linked(c) && i < |c| && c[i].next == if i + 1 < |c| then c[i + 1] else null
  {
    NextOf(c, i);
  }

  lemma LinkedDistinct(c: seq<Pbuf>)
    requires Linked(c)
    ensures Distinct(c)
  {
  }

  lemma InUseSuffix(c: seq<Pbuf>, i: nat)
    requires InUse(c) && i <= |c|
    ensures InUse(c[i..])
  {
  }

  lemma LinksBefore(c: seq<Pbuf>, i: nat)
    requires Linked(c) && i < |c|
    ensures forall k :: 0 <= k < i ==> c[k].next == After(c, k)
  {
  }

  lemma OksBefore(c: seq<Pbuf>, i: nat)
    requires AllOk(c) && i < |c|
    ensures c[i].Ok() && forall k :: 0 <= k < i ==> c[k].Ok() && c[k].View() == Views(c)[k]
  {
  }

  lemma OksMake(c: seq<Pbuf>)
    requires forall k :: 0 <= k < |c| ==> c[k].Ok()
    ensures AllOk(c)
  {
  }

  lemma FlatIs(c: seq<Pbuf>)
    ensures Flat(c) == Join(Views(c))
  {
  }

  /** The shrinking part of pbuf_realloc. */
  method Shrink(p: Pbuf, newLen: nat, ghost c: seq<Pbuf>) returns (ghost k: nat)
    requires Chain(c) && c != [] && p == c[0] && newLen < |Flat(c)| < U16 && InUse(c) && p.totLen == |Flat(c)|
    modifies c
    ensures 1 <= k <= |c| && Chain(c[..k]) && Flat(c[..k]) == old(Flat(c))[..newLen]
    ensures Kept(c, k) && Behind(c, k, old(Refs(c)))
  {
    hide Chain, Join, Refs, InUse, Behind, AtCut, Flat, Views;
    ghost var v := Views(c);
    FlatIs(c);
    var q, rem;
    ghost var i;
    q, rem, i := SkipKept(p, newLen, newLen - p.totLen, c, v);
    CutChain(q, rem, c, v, i);
    k := i + 1;
  }

  /** pbuf_realloc: k pbufs are kept, and all are when the packet is not longer than wanted */
  method Realloc(p: Pbuf, newLen: nat, ghost c: seq<Pbuf>) returns (ghost k: nat)
    requires Chain(c) && c != [] && p == c[0] && |Flat(c)| < U16 && InUse(c)
    modifies c
    ensures 1 <= k <= |c| && Chain(c[..k]) && Kept(c, k)
    ensures Flat(c[..k]) == old(Flat(c))[..Min(newLen, |old(Flat(c))|)]
    ensures newLen >= |old(Flat(c))| ==> k == |c|
    ensures newLen < |old(Flat(c))| ==> Behind(c, k, old(Refs(c)))
  {
    hide Chain, Flat, Refs, Behind, InUse;
    ChainTail(c);
    Low16Sub(|Flat(c)|, 0);
    if newLen >= p.totLen {
      k := |c|;
      assert c[..k] == c;
      assert Flat(c)[..|Flat(c)|] == Flat(c);
    } else {
      k := Shrink(p, newLen, c);
    }
  }

  lemma KeptApart(c: seq<Pbuf>, k: nat)
    requires Distinct(c) && k <= |c|
    ensures forall i :: 0 <= i < k ==> c[i] !in c[k..]
  {
  }
}
