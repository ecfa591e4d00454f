/**
 * pbuf_copy: one chain copied over another, whatever their splittings.
 */
module PbufChainCopy {
  import opened Common
  import opened Pbufs
  import opened PbufCopy

  ghost function Lens(c: seq<Pbuf>): (a: seq<nat>)
    reads c`len
    ensures |a| == |c| && forall i :: 0 <= i < |c| ==> a[i] == c[i].len
  {
    if c == [] then [] else [c[0].len] + Lens(c[1..])
  }

  /** Only empty pbufs follow: what the code takes for the end of a packet in a queue. */
  ghost predicate Trails(a: seq<nat>, i: nat) {
    i + 1 < |a| && forall k :: i < k < |a| ==> a[k] == 0
  }

  /** What one turn of pbuf_copy does to the place in a chain. */
  ghost function Onward(a: seq<nat>, i: nat, off: nat, m: nat): (nat, nat)
    requires i < |a|
  {
    if off + m >= a[i] then (i + 1, 0) else (i, off + m)
  }

  /** The answer of pbuf_copy from a place in either chain on, by the lengths of their pbufs. */
  ghost function Verdict(a: seq<nat>, b: seq<nat>, i: nat, from: nat, j: nat, to: nat): Err
    requires i < |a| && j < |b| && from <= a[i] && to <= b[j]
    decreases |a| - i + |b| - j
  {
    var m := Min(a[i] - from, b[j] - to);
    var (i', from') := Onward(a, i, from, m);
    var (j', to') := Onward(b, j, to, m);
    if j' == |b| && i' < |a| then ERR_ARG
    else if i' < |a| && Trails(a, i') then ERR_VAL
    else if j' < |b| && Trails(b, j') then ERR_VAL
    else if i' == |a| then ERR_OK
    else Verdict(a, b, i', from', j', to')
  }

  lemma {:induction false} PosFlat(c: seq<Pbuf>, i: nat, j: nat)
    requires i <= j <= |c|
    ensures Pos(c, i) <= Pos(c, j)
    ensures Pos(c, i) == Pos(c, j) <==> forall k :: i <= k < j ==> c[k].len == 0
  {
    if i < j {
      PosFlat(c, i, j - 1);
    }
  }

  /** The test for a packet queue. */
  lemma QueueTest(c: seq<Pbuf>, i: nat)
    requires Chain(c) && i < |c| && |Flat(c)| < U16
    ensures c[i].len == c[i].totLen && c[i].next != null <==> Trails(Lens(c), i)
  {
    hide Chain, Linked, AllOk, Flat, Lens, Pos;
    ChainOk(c);
    TotalAt(c, i);
    ViewAt(c, i);
    PosEnd(c);
    NextNode(c, i);
    PosFlat(c, i + 1, |c|);
  }

  /** The code's test for the end of a packet in a queue. */
  method IsQueue(p: Pbuf?, ghost c: seq<Pbuf>, ghost i: nat) returns (q: bool)
    requires Chain(c) && |Flat(c)| < U16 && p == Node(c, i)
    ensures q == (i < |c| && Trails(Lens(c), i))
  {
    if p != null {
      QueueTest(c, i);
    }
    q := p != null && p.len == p.totLen && p.next != null;
  }

  /** The first n bytes of f have replaced those of `was`. */
  ghost predicate Copied(was: seq<byte>, f: seq<byte>, n: nat, now: seq<byte>) {
    n <= |f| <= |was| && now == Spliced(was, 0, f[..n])
  }

  /** The piece that one turn copies. */
  method MovePiece(pt: Pbuf, to: nat, pf: Pbuf, from: nat, m: nat,
                   ghost c: seq<Pbuf>, ghost d: seq<Pbuf>, ghost i: nat, ghost j: nat, ghost was: seq<byte>)
    requires AllOk(c) && AllOk(d) && Distinct(d) && Apart(d, c)
    requires i < |c| && j < |d| && pf == c[i] && pt == d[j] && from + m <= pf.len && to + m <= pt.len
    requires Pos(c, i) + from == Pos(d, j) + to
    requires Copied(was, Flat(c), Pos(c, i) + from, Flat(d))
    modifies pt`buf
    ensures AllOk(c) && AllOk(d) && Flat(c) == old(Flat(c))
    ensures Copied(was, Flat(c), Pos(c, i) + from + m, Flat(d))
  {
    hide AllOk, Flat, Pos, Distinct, Spliced;
    ghost var f, n := Flat(c), Pos(c, i) + from;
    ViewPart(c, i, from, from + m);
    SpliceMore(was, 0, f[..n], f[n..n + m]);
    TakeSplit(f, n, m);
    assert forall k :: 0 <= k < |c| ==> c[k] != pt;
    PokeIn(pt, to, pf.buf[pf.start + from..pf.start + from + m], d, j);
  }

  /** pbuf_copy */
  method Copy(to: Pbuf?, from: Pbuf?, ghost d: seq<Pbuf>, ghost c: seq<Pbuf>) returns (err: Err, ghost n: nat)
    requires Chain(d) && Chain(c) && Apart(d, c) && to == Node(d, 0) && from == Node(c, 0)
    requires |Flat(d)| < U16 && |Flat(c)| < U16
    modifies d`buf
    ensures Chain(d) && Flat(c) == old(Flat(c))
    ensures err == if d == [] || c == [] || |Flat(c)| > |old(Flat(d))| then ERR_ARG
                   else Verdict(Lens(c), Lens(d), 0, 0, 0, 0)
    ensures err == ERR_OK ==> Copied(old(Flat(d)), Flat(c), |Flat(c)|, Flat(d))
    ensures Flat(d) == old(Flat(d)) || Copied(old(Flat(d)), Flat(c), n, Flat(d))
  {
    hide Chain, Linked, AllOk, Flat, Lens, Pos, Copied, Distinct, Verdict, TotalsByLen, Apart;
    n := 0;
    if to == null || from == null {
      return ERR_ARG, n;
    }
    assert to.totLen == |Flat(d)| && from.totLen == |Flat(c)| by { FullTotal(c); FullTotal(d); }
    if to.totLen < from.totLen {
      return ERR_ARG, n;
    }
    err, n := CopyAll(to, from, d, c);
  }

  lemma FullTotal(c: seq<Pbuf>)
    requires Chain(c) && c != [] && |Flat(c)| < U16
    ensures c[0].totLen == |Flat(c)|
  {
    hide Chain, Flat;
    ChainTail(c);
    Low16Below(|Flat(c)|);
  }

  lemma VerdictTurn(a: seq<nat>, b: seq<nat>, i: nat, from: nat, j: nat, to: nat, i': nat, from': nat, j': nat, to': nat)
    requires i < |a| && j < |b| && from <= a[i] && to <= b[j]
    requires (i', from') == Onward(a, i, from, Min(a[i] - from, b[j] - to))
    requires (j', to') == Onward(b, j, to, Min(a[i] - from, b[j] - to))
    ensures i <= i' <= |a| && j <= j' <= |b| && i + j < i' + j'
    ensures j' == |b| && i' < |a| ==> Verdict(a, b, i, from, j, to) == ERR_ARG
    ensures j' < |b| && i' < |a| && Trails(a, i') ==> Verdict(a, b, i, from, j, to) == ERR_VAL
    ensures j' < |b| && Trails(b, j') && !(i' < |a| && Trails(a, i')) ==> Verdict(a, b, i, from, j, to) == ERR_VAL
    ensures i' == |a| && !(j' < |b| && Trails(b, j')) ==> Verdict(a, b, i, from, j, to) == ERR_OK
    ensures j' < |b| && i' < |a| && !Trails(a, i') && !Trails(b, j')
            ==> from' <= a[i'] && to' <= b[j'] && Verdict(a, b, i, from, j, to) == Verdict(a, b, i', from', j', to')
  {
  }

  /** The answer still to come at a place in either chain. */
  ghost function Answer(c: seq<Pbuf>, d: seq<Pbuf>, i: nat, from: nat, j: nat, to: nat): Err
    reads c`len, d`len
  {
    if i < |c| && j < |d| && from <= c[i].len && to <= d[j].len then Verdict(Lens(c), Lens(d), i, from, j, to)
    else ERR_ARG
  }

  /** Where the copy stands: both chains after the same number of bytes, all of them copied. */
  ghost predicate At(c: seq<Pbuf>, d: seq<Pbuf>, was: seq<byte>, i: nat, from: nat, j: nat, to: nat)
    reads c`next, c`totLen, c`buf, c`start, c`len, d`next, d`totLen, d`buf, d`start, d`len
  {
    && Chain(c) && Chain(d) && |Flat(c)| <= |Flat(d)| == |was| < U16
    && i < |c| && j < |d| && from <= c[i].len && to <= d[j].len && Pos(c, i) + from == Pos(d, j) + to
    && Copied(was, Flat(c), Pos(c, i) + from, Flat(d))
  }

  /** One turn of the loop, up to its end or an error. */
  method Round(pt: Pbuf, to: nat, pf: Pbuf, from: nat,
               ghost c: seq<Pbuf>, ghost d: seq<Pbuf>, ghost was: seq<byte>, ghost i: nat, ghost j: nat)
    returns (err: Err, qt: Pbuf?, to': nat, qf: Pbuf?, from': nat, ghost i': nat, ghost j': nat, ghost n: nat)
    requires At(c, d, was, i, from, j, to) && Apart(d, c) && pf == Node(c, i) && pt == Node(d, j)
    modifies pt`buf
    ensures Chain(d) && Flat(c) == old(Flat(c)) && Copied(was, Flat(c), n, Flat(d))
    ensures err != ERR_OK ==> err == Answer(c, d, i, from, j, to)
    ensures err == ERR_OK && qf == null ==> Answer(c, d, i, from, j, to) == ERR_OK && n == |Flat(c)|
    ensures err == ERR_OK && qf != null ==>
      && At(c, d, was, i', from', j', to') && qf == Node(c, i') && qt == Node(d, j') && i + j < i' + j' < |c| + |d|
      && Answer(c, d, i, from, j, to) == Answer(c, d, i', from', j', to')
  {
    hide Chain, Flat, Lens, Pos, Copied, Apart, Answer, Onward;
    var m := Min(pf.len - from, pt.len - to);
    n := Pos(c, i) + from + m;
    Turn(pt, to, pf, from, m, c, d, i, j, was);
    qf, from', i' := Forward(pf, from, m, c, i);
    qt, to', j' := Forward(pt, to, m, d, j);
    err := Judge(qt, qf, c, d, i, from, j, to, i', from', j', to');
    ChainEnd(c);
  }

  lemma ChainEnd(c: seq<Pbuf>)
    requires Chain(c)
    ensures Pos(c, |c|) == |Flat(c)|
  {
    hide Chain, Pos, Flat;
    ChainOk(c);
    PosEnd(c);
  }

  /** The tests at the end of a turn. */
  method Judge(qt: Pbuf?, qf: Pbuf?, ghost c: seq<Pbuf>, ghost d: seq<Pbuf>, ghost i: nat, ghost from: nat, ghost j: nat,
               ghost to: nat, ghost i': nat, ghost from': nat, ghost j': nat, ghost to': nat) returns (err: Err)
    requires Chain(c) && Chain(d) && |Flat(c)| < U16 && |Flat(d)| < U16
    requires i < |c| && j < |d| && from <= c[i].len && to <= d[j].len && qf == Node(c, i') && qt == Node(d, j')
    requires (i', from') == Onward(Lens(c), i, from, Min(c[i].len - from, d[j].len - to))
    requires (j', to') == Onward(Lens(d), j, to, Min(c[i].len - from, d[j].len - to))
    ensures err != ERR_OK ==> err == Answer(c, d, i, from, j, to)
    ensures err == ERR_OK && qf == null ==> Answer(c, d, i, from, j, to) == ERR_OK
    ensures err == ERR_OK && qf != null ==>
      qt != null && i + j < i' + j' < |c| + |d| && Answer(c, d, i, from, j, to) == Answer(c, d, i', from', j', to')
  {
    hide Chain, Flat, Lens, Trails, Verdict, Onward;
    VerdictTurn(Lens(c), Lens(d), i, from, j, to, i', from', j', to');
    if qt == null && qf != null {
      return ERR_ARG;
    }
    var queue := IsQueue(qf, c, i');
    if !queue {
      queue := IsQueue(qt, d, j');
    }
    err := if queue then ERR_VAL else ERR_OK;
  }

  method CopyAll(to: Pbuf, from: Pbuf, ghost d: seq<Pbuf>, ghost c: seq<Pbuf>) returns (err: Err, ghost n: nat)
    requires Chain(d) && Chain(c) && Apart(d, c) && d != [] && c != [] && to == d[0] && from == c[0]
    requires |Flat(c)| <= |Flat(d)| < U16
    modifies d`buf
    ensures Chain(d) && Flat(c) == old(Flat(c)) && err == Verdict(Lens(c), Lens(d), 0, 0, 0, 0)
    ensures err == ERR_OK ==> Copied(old(Flat(d)), Flat(c), |Flat(c)|, Flat(d))
    ensures Copied(old(Flat(d)), Flat(c), n, Flat(d))
  {
    hide Chain, Flat, Lens, Copied, Apart, Verdict;
    ghost var was := Flat(d);
    assert At(c, d, was, 0, 0, 0, 0) by { CopiedNothing(was, Flat(c)); PosZero(c); PosZero(d); }
    hide At;
    var pt: Pbuf?, pf: Pbuf?, offTo: nat, offFrom: nat := to, from, 0, 0;
    ghost var i: nat, j: nat := 0, 0;
    n := 0;
    err := ERR_OK;
    CopiedNothing(was, Flat(c));
    assert Answer(c, d, 0, 0, 0, 0) == Verdict(Lens(c), Lens(d), 0, 0, 0, 0);
    hide Answer;
    while pf != null
      invariant Chain(d) && Flat(c) == old(Flat(c)) && Copied(was, Flat(c), n, Flat(d))
      invariant pf != null ==> At(c, d, was, i, offFrom, j, offTo) && pf == Node(c, i) && pt == Node(d, j)
      invariant Answer(c, d, 0, 0, 0, 0) == if pf != null then Answer(c, d, i, offFrom, j, offTo) else ERR_OK
      invariant i + j < |c| + |d| && err == ERR_OK && (pf == null ==> n == |Flat(c)|)
      decreases |c| + |d| - i - j, pf != null
    {
      ghost var i', j';
      err, pt, offTo, pf, offFrom, i', j', n := Round(pt, offTo, pf, offFrom, c, d, was, i, j);
      if err != ERR_OK {
        return;
      }
      if pf != null {
        i, j := i', j';
      }
    }
  }

  /** After m bytes more, on to the next pbuf if this one is at its end. */
  method Forward(p: Pbuf, off: nat, m: nat, ghost c: seq<Pbuf>, ghost i: nat)
    returns (q: Pbuf?, o: nat, ghost k: nat)
    requires Chain(c) && i < |c| && p == c[i] && off + m <= p.len
    ensures i <= k <= |c| && q == Node(c, k) && (k, o) == Onward(Lens(c), i, off, m)
    ensures Pos(c, k) + o == Pos(c, i) + off + m && (if q != null then o <= q.len else o == 0)
  {
    hide Chain, Linked, AllOk, Lens, Pos;
    ChainOk(c);
    NextNode(c, i);
    ViewAt(c, i);
    if off + m >= p.len {
      q, o, k := p.next, 0, i + 1;
    } else {
      q, o, k := p, off + m, i;
    }
  }

  lemma CopiedNothing(was: seq<byte>, f: seq<byte>)
    requires |f| <= |was|
    ensures Copied(was, f, 0, was)
  {
  }

  lemma CopiedLength(was: seq<byte>, f: seq<byte>, n: nat, now: seq<byte>)
    requires Copied(was, f, n, now)
    ensures |now| == |was|
  {
  }

  /** One turn: the piece, and where the chains go on. */
  method Turn(pt: Pbuf, to: nat, pf: Pbuf, from: nat, m: nat,
              ghost c: seq<Pbuf>, ghost d: seq<Pbuf>, ghost i: nat, ghost j: nat, ghost was: seq<byte>)
    requires Chain(c) && Chain(d) && Apart(d, c)
    requires i < |c| && j < |d| && pf == c[i] && pt == d[j] && from + m <= pf.len && to + m <= pt.len
    requires Pos(c, i) + from == Pos(d, j) + to
    requires Copied(was, Flat(c), Pos(c, i) + from, Flat(d))
    modifies pt`buf
    ensures Chain(c) && Chain(d) && Flat(c) == old(Flat(c)) && |Flat(d)| == |was|
    ensures Copied(was, Flat(c), Pos(c, i) + from + m, Flat(d))
  {
    hide Chain, Linked, AllOk, Flat, Pos, Copied, Distinct, TotalsByLen, Apart;
    ChainOk(c);
    ChainOk(d);
    ChainByLen(c);
    ChainByLen(d);
    LinkedDistinct(d);
    MovePiece(pt, to, pf, from, m, c, d, i, j, was);
    ChainByLen(c);
    ChainByLen(d);
    CopiedLength(was, Flat(c), Pos(c, i) + from + m, Flat(d));
  }

  ghost function Upto(a: seq<nat>, k: nat): nat
    requires k <= |a|
  {
    if k == 0 then 0 else Upto(a, k - 1) + a[k - 1]
  }

  lemma {:induction false} UptoGrows(a: seq<nat>, i: nat, j: nat)
    requires i <= j <= |a|
    ensures Upto(a, i) <= Upto(a, j)
    ensures Upto(a, i) == Upto(a, j) ==> forall k :: i <= k < j ==> a[k] == 0
  {
    if i < j {
      UptoGrows(a, i, j - 1);
    }
  }

  ghost function Sum(a: seq<nat>): nat {
    Upto(a, |a|)
  }

  /** A chain that does not end in an empty pbuf, or is only one. */
  ghost predicate Settled(a: seq<nat>) {
    a != [] && (|a| == 1 || a[|a| - 1] > 0)
  }

  /** Pbuf j of the target is reached before the source is at its end. */
  ghost predicate Filled(b: seq<nat>, j: nat, n: nat)
    requires 0 < j <= |b|
  {
    Upto(b, j - 1) < n && Upto(b, j) <= n
  }

  /** The places are those after the same number of bytes, and the source has more. */
  ghost predicate Level(a: seq<nat>, b: seq<nat>, i: nat, from: nat, j: nat, to: nat) {
    && i < |a| && j < |b| && from <= a[i] && to <= b[j]
    && Upto(a, i) + from == Upto(b, j) + to < Sum(a) <= Sum(b)
  }

  /** From a settled source nothing stops the copy but a target pbuf that only empty ones follow. */
  lemma {:induction false} VerdictFrom(a: seq<nat>, b: seq<nat>, i: nat, from: nat, j: nat, to: nat)
    requires Level(a, b, i, from, j, to) && Settled(a) && !Trails(b, j)
    ensures Verdict(a, b, i, from, j, to) == ERR_OK
            <==> forall k :: j < k < |b| && Filled(b, k, Sum(a)) ==> !Trails(b, k)
    decreases |a| - i + |b| - j
  {
    VerdictAfterTurn(a, b, i, from, j, to);
  }

  lemma {:induction false} VerdictAfterTurn(a: seq<nat>, b: seq<nat>, i: nat, from: nat, j: nat, to: nat)
    requires Level(a, b, i, from, j, to) && Settled(a)
    ensures Verdict(a, b, i, from, j, to) == ERR_OK
            <==> (a[i] - from < b[j] - to ==> !Trails(b, j))
                 && forall k :: j < k < |b| && Filled(b, k, Sum(a)) ==> !Trails(b, k)
    decreases |a| - i + |b| - j, 0
  {
    var m := Min(a[i] - from, b[j] - to);
    var (i', from') := Onward(a, i, from, m);
    var (j', to') := Onward(b, j, to, m);
    UptoGrows(b, j', |b|);
    if i' < |a| {
      MoreToCome(a, i', from');
      if j' < |b| && !Trails(b, j') {
        VerdictFrom(a, b, i', from', j', to');
      }
    }
    forall k | j + 1 < k < |b| && i' == |a|
      ensures !Filled(b, k, Sum(a))
    {
      UptoGrows(b, j + 1, k - 1);
    }
  }

  lemma MoreToCome(a: seq<nat>, i: nat, from: nat)
    requires Settled(a) && i < |a| && (from < a[i] || (0 < i && from == 0))
    ensures Upto(a, i) + from < Sum(a) && !Trails(a, i)
  {
    UptoGrows(a, i + 1, |a|);
    UptoGrows(a, i, |a|);
  }

  /** No target pbuf that the copy of a settled source stops at is followed by empty ones only. */
  ghost predicate Unhindered(a: seq<nat>, b: seq<nat>)
    requires a != [] && b != []
  {
    && (a[0] < b[0] ==> !Trails(b, 0))
    && (forall k :: 0 < k < |b| && Filled(b, k, Sum(a)) ==> !Trails(b, k))
    && (Sum(a) == 0 && b[0] == 0 && |b| > 1 ==> !Trails(b, 1))
  }

  /** The one other source that can be copied: one pbuf with data and an empty one behind it. */
  ghost predicate OneAndEmpty(a: seq<nat>, b: seq<nat>)
    requires b != []
  {
    && |a| == 2 && a[1] == 0 && a[0] <= b[0]
    && (a[0] < b[0] ==> !Trails(b, 0))
    && (a[0] == b[0] ==> |b| > 1 && !Trails(b, 1) && (b[1] == 0 && |b| > 2 ==> !Trails(b, 2)))
  }

  lemma {:induction false} NeverPastEmpty(a: seq<nat>, b: seq<nat>, i: nat, from: nat, j: nat, to: nat)
    requires i < |a| && j < |b| && from <= a[i] && to <= b[j]
    requires i + 2 < |a| && a[|a| - 1] == 0
    ensures Verdict(a, b, i, from, j, to) != ERR_OK
    decreases |a| - i + |b| - j
  {
    var m := Min(a[i] - from, b[j] - to);
    var (i', from') := Onward(a, i, from, m);
    var (j', to') := Onward(b, j, to, m);
    if i' + 2 < |a| && j' < |b| {
      NeverPastEmpty(a, b, i', from', j', to');
    } else if i' + 2 == |a| {
      assert Trails(a, i');
    }
  }

  lemma PairVerdict(a: seq<nat>, b: seq<nat>)
    requires |a| == 2 && a[1] == 0 && b != []
    ensures Verdict(a, b, 0, 0, 0, 0) == ERR_OK <==> OneAndEmpty(a, b)
  {
    assert Trails(a, 0) && !Trails(a, 1);
    var m := Min(a[0], b[0]);
    var (i', from') := Onward(a, 0, 0, m);
    var (j', to') := Onward(b, 0, 0, m);
    VerdictTurn(a, b, 0, 0, 0, 0, i', from', j', to');
    if i' == 1 && j' < |b| && !Trails(b, j') {
      var (i'', from'') := Onward(a, 1, 0, 0);
      var (j'', to'') := Onward(b, j', to', 0);
      VerdictTurn(a, b, 1, 0, j', to', i'', from'', j'', to'');
    }
  }

  /** Exactly when pbuf_copy copies: for all chains, by the lengths of their pbufs. */
  lemma CopiesExactlyWhen(a: seq<nat>, b: seq<nat>)
    requires a != [] && b != [] && Sum(a) <= Sum(b)
    ensures Verdict(a, b, 0, 0, 0, 0) == ERR_OK
            <==> (if Settled(a) then Unhindered(a, b) else OneAndEmpty(a, b))
    ensures Settled(a) && Settled(b) ==> Verdict(a, b, 0, 0, 0, 0) == ERR_OK
  {
    if Settled(a) {
      if Sum(a) > 0 {
        VerdictAfterTurn(a, b, 0, 0, 0, 0);
      } else {
        UptoGrows(a, 0, |a|);
      }
    } else if |a| == 2 {
      PairVerdict(a, b);
    } else {
      NeverPastEmpty(a, b, 0, 0, 0, 0);
    }
  }

  /** An empty pbuf at the end of a packet makes a copy of all its data fail. */
  lemma EmptyTailRefused()
    ensures Verdict([3, 4, 0], [9], 0, 0, 0, 0) == ERR_VAL
    ensures Verdict([3, 0], [3], 0, 0, 0, 0) == ERR_ARG
    ensures Verdict([3], [3, 5, 0], 0, 0, 0, 0) == ERR_VAL
  {
    VerdictTurn([3, 4, 0], [9], 0, 0, 0, 0, 1, 0, 0, 3);
    VerdictTurn([3, 0], [3], 0, 0, 0, 0, 1, 0, 1, 0);
    VerdictTurn([3], [3, 5, 0], 0, 0, 0, 0, 1, 0, 1, 0);
  }
}
