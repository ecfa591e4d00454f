/**
 * The blocks of the heap as a list, and what splitting, merging and moving do to it.
 * A block reaches from its own offset to that of the next one; the last ends at the sentinel.
 */
module HeapBlocks {

  datatype Block = Block(off: int, used: bool)

  /** Fixed sizes: the heap, a struct mem, the smallest data area, the alignment. */
  datatype Layout = Layout(size: int, hdr: int, min: int, align: int) {
    predicate Ok() {
      && 0 < hdr && 0 < min && 0 < align && hdr + min <= size
      && size % align == 0 && hdr % align == 0 && min % align == 0
    }
  }

  /** The end of block `i`: the offset of its successor. */
  function End(g: Layout, l: seq<Block>, i: nat): int
    requires i < |l|
  {
    if i + 1 < |l| then l[i + 1].off else g.size
  }

  /** The data area of block `i` is [off + hdr, End). */
  function Room(g: Layout, l: seq<Block>, i: nat): int
    requires i < |l|
  {
    End(g, l, i) - l[i].off - g.hdr
  }

  /** The blocks tile the heap, and none is too small. */
  ghost predicate Tiling(g: Layout, l: seq<Block>) {
    && g.Ok() && l != [] && l[0].off == 0
    && (forall i :: 0 <= i < |l| ==> g.min <= Room(g, l, i))
  }

  ghost predicate Aligned(g: Layout, l: seq<Block>) {
    g.Ok() && forall i :: 0 <= i < |l| ==> l[i].off % g.align == 0
  }

  /** No two adjacent blocks are free. */
  ghost predicate Coalesced(l: seq<Block>) {
    forall i :: 0 <= i < |l| - 1 ==> l[i].used || l[i + 1].used
  }

  ghost predicate FreeAt(l: seq<Block>, p: int) {
    exists k :: 0 <= k < |l| && !l[k].used && l[k].off == p
  }

  /** `p` is the lowest free block, or the end of the heap. */
  ghost predicate Lowest(g: Layout, l: seq<Block>, p: int) {
    && (p == g.size || FreeAt(l, p))
    && (forall k :: 0 <= k < |l| && !l[k].used ==> p <= l[k].off)
  }

  /** Byte `a` belongs to the data area of a used block. */
  ghost predicate Live(g: Layout, l: seq<Block>, a: int) {
    exists i :: 0 <= i < |l| && l[i].used && l[i].off + g.hdr <= a < End(g, l, i)
  }

  /** The total extent of the used blocks. */
  ghost function UsedSize(g: Layout, l: seq<Block>): int {
    if l == [] then 0 else (if l[0].used then End(g, l, 0) - l[0].off else 0) + UsedSize(g, l[1..])
  }

  lemma {:induction false} Increasing(g: Layout, l: seq<Block>, i: nat, j: nat)
    requires Tiling(g, l) && i < j < |l|
    ensures l[i].off + g.hdr + g.min <= End(g, l, i) <= l[j].off
    ensures l[j].off + g.hdr + g.min <= End(g, l, j) <= g.size
    decreases j - i
  {
    assert g.min <= Room(g, l, i) && g.min <= Room(g, l, j);
    if i + 1 < j {
      Increasing(g, l, i + 1, j);
    }
    BelowSize(g, l, j);
  }

  lemma {:induction false} BelowSize(g: Layout, l: seq<Block>, j: nat)
    requires Tiling(g, l) && j < |l|
    ensures 0 <= l[j].off && l[j].off + g.hdr + g.min <= End(g, l, j) <= g.size
    decreases |l| - j
  {
    assert g.min <= Room(g, l, j);
    if j + 1 < |l| {
      BelowSize(g, l, j + 1);
    }
    FromZero(g, l, j);
  }

  lemma {:induction false} FromZero(g: Layout, l: seq<Block>, j: nat)
    requires Tiling(g, l) && j < |l|
    ensures 0 <= l[j].off
  {
    if j > 0 {
      FromZero(g, l, j - 1);
      assert g.min <= Room(g, l, j - 1);
    }
  }

  lemma FirstBlock(g: Layout, l: seq<Block>)
    requires Tiling(g, l)
    ensures l != [] && l[0].off == 0
  {
  }

  /** The data areas of two used blocks do not meet. */
  lemma LiveDisjoint(g: Layout, l: seq<Block>, i: nat, j: nat, a: int)
    requires Tiling(g, l) && i < |l| && j < |l|
    requires l[i].off <= a < End(g, l, i) && l[j].off <= a < End(g, l, j)
    ensures i == j
  {
    if i < j {
      Increasing(g, l, i, j);
    } else if j < i {
      Increasing(g, l, j, i);
    }
  }

  lemma {:induction false} UsedConcat(g: Layout, a: seq<Block>, b: seq<Block>)
    requires b != []
    ensures UsedSize(g, a + b) == UsedSize(g.(size := b[0].off), a) + UsedSize(g, b)
  {
    if a == [] {
      assert a + b == b;
    } else {
      assert (a + b)[1..] == a[1..] + b;
      UsedConcat(g, a[1..], b);
    }
  }

  lemma UsedAt(g: Layout, l: seq<Block>, i: nat)
    requires i < |l|
    ensures UsedSize(g, l) == UsedSize(g.(size := l[i].off), l[..i])
                              + (if l[i].used then End(g, l, i) - l[i].off else 0) + UsedSize(g, l[i + 1..])
  {
    assert l == l[..i] + l[i..];
    UsedConcat(g, l[..i], l[i..]);
    assert l[i..][1..] == l[i + 1..];
  }

  // -------------------------------------------------------------- operations

  /** Block `i` with another state. */
  function Marked(l: seq<Block>, i: nat, used: bool): seq<Block>
    requires i < |l|
  {
    l[i := Block(l[i].off, used)]
  }

  /** Block `i` in use up to `cut`, a new free block from there on. */
  function Split(l: seq<Block>, i: nat, cut: int): seq<Block>
    requires i < |l|
  {
    l[..i] + [Block(l[i].off, true), Block(cut, false)] + l[i + 1..]
  }

  /** The block behind `i` begins at `cut` instead. */
  function Moved(l: seq<Block>, i: nat, cut: int): seq<Block>
    requires i + 1 < |l|
  {
    l[i + 1 := Block(cut, false)]
  }

  /** Block `i` absorbs its successor. */
  function Merged(l: seq<Block>, i: nat): seq<Block>
    requires i + 1 < |l|
  {
    l[..i + 1] + l[i + 2..]
  }

  lemma MarkedTiling(g: Layout, l: seq<Block>, i: nat, used: bool)
    requires Tiling(g, l) && i < |l|
    ensures Tiling(g, Marked(l, i, used))
    ensures forall k :: 0 <= k < |l| ==> End(g, Marked(l, i, used), k) == End(g, l, k)
    ensures UsedSize(g, Marked(l, i, used)) == UsedSize(g, l)
              + (if used && !l[i].used then End(g, l, i) - l[i].off else if !used && l[i].used then l[i].off - End(g, l, i) else 0)
  {
    var r := Marked(l, i, used);
    forall k | 0 <= k < |r|
      ensures r[k].off == l[k].off && End(g, r, k) == End(g, l, k) && g.min <= Room(g, r, k)
    {
      assert g.min <= Room(g, l, k);
    }
    UsedAt(g, l, i);
    UsedAt(g, r, i);
    assert r[..i] == l[..i] && r[i + 1..] == l[i + 1..];
  }

  /** `cut` leaves a data area of at least the smallest size on both sides. */
  predicate Cuts(g: Layout, l: seq<Block>, i: nat, cut: int)
    requires i < |l|
  {
    l[i].off + g.hdr + g.min <= cut && cut + g.hdr + g.min <= End(g, l, i)
  }

  lemma SplitTiling(g: Layout, l: seq<Block>, i: nat, cut: int)
    requires Tiling(g, l) && i < |l| && Cuts(g, l, i, cut)
    ensures Tiling(g, Split(l, i, cut))
    ensures UsedSize(g, Split(l, i, cut)) == UsedSize(g, l) - (if l[i].used then End(g, l, i) - l[i].off else 0) + cut - l[i].off
  {
    var r := Split(l, i, cut);
    forall k | 0 <= k < |r|
      ensures g.min <= Room(g, r, k)
    {
      if k < i {
        assert r[k] == l[k] && End(g, r, k) == End(g, l, k) && g.min <= Room(g, l, k);
      } else if k > i + 1 {
        assert r[k] == l[k - 1] && End(g, r, k) == End(g, l, k - 1) && g.min <= Room(g, l, k - 1);
      }
    }
    UsedAt(g, l, i);
    UsedAt(g, r, i);
    assert r[..i] == l[..i] && r[i + 1..] == [Block(cut, false)] + l[i + 1..];
    assert r[i + 1..][1..] == l[i + 1..];
  }

  lemma MovedTiling(g: Layout, l: seq<Block>, i: nat, cut: int)
    requires Tiling(g, l) && i + 1 < |l| && l[i].used && !l[i + 1].used
    requires l[i].off + g.hdr + g.min <= cut <= l[i + 1].off
    ensures Tiling(g, Moved(l, i, cut))
    ensures UsedSize(g, Moved(l, i, cut)) == UsedSize(g, l) - (l[i + 1].off - cut)
  {
    var r := Moved(l, i, cut);
    forall k | 0 <= k < |r|
      ensures g.min <= Room(g, r, k)
    {
      assert g.min <= Room(g, l, k);
    }
    UsedAt(g, l, i);
    UsedAt(g, r, i);
    assert r[..i] == l[..i] && r[i + 1..][1..] == l[i + 1..][1..];
  }

  lemma MergedTiling(g: Layout, l: seq<Block>, i: nat)
    requires Tiling(g, l) && i + 1 < |l| && !l[i].used && !l[i + 1].used
    ensures Tiling(g, Merged(l, i))
    ensures UsedSize(g, Merged(l, i)) == UsedSize(g, l)
  {
    var r := Merged(l, i);
    forall k | 0 <= k < |r|
      ensures g.min <= Room(g, r, k)
    {
      if k < i {
        assert r[k] == l[k] && End(g, r, k) == End(g, l, k) && g.min <= Room(g, l, k);
      } else if k == i {
        assert r[k] == l[k] && End(g, r, k) == End(g, l, k + 1);
        assert g.min <= Room(g, l, k) && g.min <= Room(g, l, k + 1);
      } else {
        assert r[k] == l[k + 1] && End(g, r, k) == End(g, l, k + 1) && g.min <= Room(g, l, k + 1);
      }
    }
    UsedAt(g, l, i);
    UsedAt(g, r, i);
    assert r[..i] == l[..i] && r[i + 1..] == l[i + 1..][1..];
  }

  // -------------------------------------------------------------------- headers

  /** struct mem */
  datatype Mem = Mem(next: int, prev: int, used: bool)

  /** What the header of block `i` must hold. */
  function Node(g: Layout, l: seq<Block>, i: nat): Mem
    requires i < |l|
  {
    Mem(End(g, l, i), if i == 0 then 0 else l[i - 1].off, l[i].used)
  }

  /**
   * The headers on the heap link the blocks in both directions. The sentinel is in use and links
   * to itself; its prev is not kept up to date.
   */
  ghost predicate Linked(g: Layout, h: map<int, Mem>, l: seq<Block>) {
    && (forall i :: 0 <= i < |l| ==> l[i].off in h && h[l[i].off] == Node(g, l, i))
    && g.size in h && h[g.size].used && h[g.size].next == g.size
  }

  /** Writing a struct mem at `p` destroys every header that overlaps it. */
  function Put(g: Layout, h: map<int, Mem>, p: int, m: Mem): map<int, Mem> {
    (map k | k in h && (k + g.hdr <= p || p + g.hdr <= k) :: h[k])[p := m]
  }

  /** Writing the byte at `a` destroys the header it lies in. */
  function Poke(g: Layout, h: map<int, Mem>, a: int): map<int, Mem> {
    map k | k in h && !(k <= a < k + g.hdr) :: h[k]
  }

  lemma PokeLinked(g: Layout, h: map<int, Mem>, l: seq<Block>, a: int)
    requires Tiling(g, l) && Linked(g, h, l) && Live(g, l, a)
    ensures Linked(g, Poke(g, h, a), l)
  {
    var i :| 0 <= i < |l| && l[i].used && l[i].off + g.hdr <= a < End(g, l, i);
    BelowSize(g, l, i);
    forall k | 0 <= k < |l|
      ensures !(l[k].off <= a < l[k].off + g.hdr)
    {
      if k < i {
        Increasing(g, l, k, i);
      } else if i < k {
        Increasing(g, l, i, k);
      }
    }
  }

  /** Headers of different blocks, and of the sentinel, do not overlap. */
  lemma Apart(g: Layout, l: seq<Block>, i: nat, j: nat)
    requires Tiling(g, l) && i < |l| && j < |l|
    ensures i < j ==> l[i].off + g.hdr <= l[j].off
    ensures j < i ==> l[j].off + g.hdr <= l[i].off
    ensures l[i].off + g.hdr <= g.size && 0 < g.hdr && 0 < g.min
  {
    BelowSize(g, l, i);
    if i < j {
      Increasing(g, l, i, j);
    } else if j < i {
      Increasing(g, l, j, i);
    }
  }

  lemma MarkedLinked(g: Layout, h: map<int, Mem>, l: seq<Block>, i: nat, used: bool)
    requires Tiling(g, l) && Linked(g, h, l) && i < |l|
    ensures Linked(g, Put(g, h, l[i].off, Node(g, l, i).(used := used)), Marked(l, i, used))
  {
    var r := Marked(l, i, used);
    var h' := Put(g, h, l[i].off, Node(g, l, i).(used := used));
    forall k | 0 <= k < |r|
      ensures r[k].off in h' && h'[r[k].off] == Node(g, r, k)
    {
      Apart(g, l, k, i);
    }
    Apart(g, l, i, i);
  }

  /** prev of the header at `p` set to `q`, unless `p` is the sentinel. */
  function Relink(g: Layout, h: map<int, Mem>, p: int, q: int): map<int, Mem>
    requires p != g.size ==> p in h
  {
    if p == g.size then h else Put(g, h, p, h[p].(prev := q))
  }

  /** The three header writes that put a free block from `cut` to `e` behind block `i`. */
  function Inserted(g: Layout, h: map<int, Mem>, off: int, prev: int, cut: int, e: int): map<int, Mem>
    requires e != g.size ==> e in h && cut + g.hdr <= e && off + g.hdr <= e
  {
    Relink(g, Put(g, Put(g, h, cut, Mem(e, off, false)), off, Mem(cut, prev, true)), e, cut)
  }

  /** Reading back a header after the three writes. */
  lemma LookUp(g: Layout, h: map<int, Mem>, off: int, prev: int, cut: int, e: int, x: int)
    requires 0 < g.hdr && off + g.hdr <= cut && cut + g.hdr <= e && (e != g.size ==> e in h)
    requires x == off || x == cut || x == e || x + g.hdr <= off || (off + g.hdr <= x && x + g.hdr <= cut) || (cut + g.hdr <= x && x + g.hdr <= e) || e + g.hdr <= x
    ensures var h' := Inserted(g, h, off, prev, cut, e);
            if x == off then x in h' && h'[x] == Mem(cut, prev, true)
            else if x == cut then x in h' && h'[x] == Mem(e, off, false)
            else if x == e && e != g.size then x in h' && h'[x] == h[e].(prev := cut)
            else x in h ==> x in h' && h'[x] == h[x]
  {
  }

  lemma NodeAt(g: Layout, h: map<int, Mem>, l: seq<Block>, i: nat)
    requires Linked(g, h, l) && i < |l|
    ensures l[i].off in h && h[l[i].off] == Node(g, l, i)
  {
  }

  lemma SentinelAt(g: Layout, h: map<int, Mem>, l: seq<Block>)
    requires Linked(g, h, l)
    ensures g.size in h
  {
  }

  lemma SplitNode(g: Layout, h: map<int, Mem>, l: seq<Block>, i: nat, cut: int, k: nat)
    requires Tiling(g, l) && Linked(g, h, l) && i < |l| && Cuts(g, l, i, cut) && k <= |l|
    requires Tiling(g, Split(l, i, cut))
    ensures var e, r := End(g, l, i), Split(l, i, cut);
            && (e != g.size ==> e in h && cut + g.hdr <= e && l[i].off + g.hdr <= e)
            && var h' := Inserted(g, h, l[i].off, Node(g, l, i).prev, cut, e);
               r[k].off in h' && h'[r[k].off] == Node(g, r, k)
  {
    hide Inserted, Tiling, Linked;
    var r := Split(l, i, cut);
    NodeAt(g, h, l, i);
    NodeAt(g, h, l, if k <= i then k else k - 1);
    if i + 1 < |l| {
      NodeAt(g, h, l, i + 1);
    }
    assert r[i] == Block(l[i].off, true) && r[i + 1] == Block(cut, false);
    assert forall j :: i + 1 < j < |r| ==> r[j] == l[j - 1];
    assert forall j :: 0 <= j < i ==> r[j] == l[j];
    Apart(g, r, k, i);
    Apart(g, r, k, i + 1);
    if i + 2 < |r| {
      Apart(g, r, k, i + 2);
    }
    LookUp(g, h, l[i].off, Node(g, l, i).prev, cut, End(g, l, i), r[k].off);
  }

  lemma SplitLinked(g: Layout, h: map<int, Mem>, l: seq<Block>, i: nat, cut: int)
    requires Tiling(g, l) && Linked(g, h, l) && i < |l| && Cuts(g, l, i, cut)
    ensures var e := End(g, l, i);
            && (e != g.size ==> e in h && cut + g.hdr <= e && l[i].off + g.hdr <= e)
            && Linked(g, Inserted(g, h, l[i].off, Node(g, l, i).prev, cut, e), Split(l, i, cut))
  {
    var r, e := Split(l, i, cut), End(g, l, i);
    SplitTiling(g, l, i, cut);
    SplitNode(g, h, l, i, cut, 0);
    var h' := Inserted(g, h, l[i].off, Node(g, l, i).prev, cut, e);
    forall k | 0 <= k < |r|
      ensures r[k].off in h' && h'[r[k].off] == Node(g, r, k)
    {
      SplitNode(g, h, l, i, cut, k);
    }
    SizeKept(g, r, i, i + 1);
  }

  lemma SizeKept(g: Layout, l: seq<Block>, i: nat, j: nat)
    requires Tiling(g, l) && i < |l| && j < |l|
    ensures l[i].off + g.hdr <= g.size && l[j].off + g.hdr <= g.size
    ensures End(g, l, j) == g.size || End(g, l, j) + g.hdr <= g.size
  {
    Apart(g, l, i, i);
    Apart(g, l, j, j);
    if j + 1 < |l| {
      Apart(g, l, j + 1, j + 1);
    }
  }

  lemma MovedNode(g: Layout, h: map<int, Mem>, l: seq<Block>, i: nat, cut: int, k: nat)
    requires Tiling(g, l) && Linked(g, h, l) && i + 1 < |l| && l[i].used && k < |l|
    requires l[i].off + g.hdr + g.min <= cut <= l[i + 1].off
    requires Tiling(g, Moved(l, i, cut))
    ensures var e, r := End(g, l, i + 1), Moved(l, i, cut);
            && (e != g.size ==> e in h && cut + g.hdr <= e && l[i].off + g.hdr <= e)
            && var h' := Inserted(g, h, l[i].off, Node(g, l, i).prev, cut, e);
               r[k].off in h' && h'[r[k].off] == Node(g, r, k)
  {
    hide Inserted, Tiling, Linked;
    var r := Moved(l, i, cut);
    NodeAt(g, h, l, k);
    NodeAt(g, h, l, i);
    if i + 2 < |l| {
      NodeAt(g, h, l, i + 2);
    }
    Apart(g, l, i + 1, i + 1);
    Apart(g, r, k, i);
    Apart(g, r, k, i + 1);
    Apart(g, r, i, i + 1);
    if i + 2 < |r| {
      Apart(g, r, k, i + 2);
      Apart(g, r, i + 1, i + 2);
      Apart(g, l, i + 2, i + 2);
    }
    LookUp(g, h, l[i].off, Node(g, l, i).prev, cut, End(g, l, i + 1), r[k].off);
  }

  lemma MovedLinked(g: Layout, h: map<int, Mem>, l: seq<Block>, i: nat, cut: int)
    requires Tiling(g, l) && Linked(g, h, l) && i + 1 < |l| && l[i].used && !l[i + 1].used
    requires l[i].off + g.hdr + g.min <= cut <= l[i + 1].off
    ensures var e := End(g, l, i + 1);
            && (e != g.size ==> e in h && cut + g.hdr <= e && l[i].off + g.hdr <= e)
            && Linked(g, Inserted(g, h, l[i].off, Node(g, l, i).prev, cut, e), Moved(l, i, cut))
  {
    var r, e := Moved(l, i, cut), End(g, l, i + 1);
    MovedTiling(g, l, i, cut);
    MovedNode(g, h, l, i, cut, 0);
    var h' := Inserted(g, h, l[i].off, Node(g, l, i).prev, cut, e);
    forall k | 0 <= k < |r|
      ensures r[k].off in h' && h'[r[k].off] == Node(g, r, k)
    {
      MovedNode(g, h, l, i, cut, k);
    }
    SizeKept(g, r, i, i + 1);
  }

  /** The two header writes of plug_holes that join the block at `off` with its successor, which ends at `e`. */
  function Joined(g: Layout, h: map<int, Mem>, off: int, e: int): map<int, Mem>
    requires off in h && e in h && 0 < g.hdr && off + g.hdr <= e
  {
    var h1 := Put(g, h, off, h[off].(next := e));
    Put(g, h1, e, h1[e].(prev := off))
  }

  lemma LookUpJoined(g: Layout, h: map<int, Mem>, off: int, e: int, x: int)
    requires off in h && e in h && 0 < g.hdr && off + g.hdr <= e
    requires x == off || x == e || x + g.hdr <= off || (off + g.hdr <= x && x + g.hdr <= e) || e + g.hdr <= x
    ensures var h' := Joined(g, h, off, e);
            if x == off then x in h' && h'[x] == h[off].(next := e)
            else if x == e then x in h' && h'[x] == h[e].(prev := off)
            else x in h ==> x in h' && h'[x] == h[x]
  {
  }

  lemma MergedNode(g: Layout, h: map<int, Mem>, l: seq<Block>, i: nat, k: nat)
    requires Tiling(g, l) && Linked(g, h, l) && i + 1 < |l| && !l[i].used && !l[i + 1].used && k < |l| - 1
    requires Tiling(g, Merged(l, i))
    ensures var e, r := End(g, l, i + 1), Merged(l, i);
            && l[i].off in h && e in h && l[i].off + g.hdr <= e
            && var h' := Joined(g, h, l[i].off, e);
               r[k].off in h' && h'[r[k].off] == Node(g, r, k)
  {
    hide Joined, Tiling, Linked;
    var r := Merged(l, i);
    NodeAt(g, h, l, i);
    NodeAt(g, h, l, i + 1);
    NodeAt(g, h, l, if k <= i then k else k + 1);
    SentinelAt(g, h, l);
    if i + 2 < |l| {
      NodeAt(g, h, l, i + 2);
    }
    assert forall j :: i < j < |r| ==> r[j] == l[j + 1];
    assert forall j :: 0 <= j <= i ==> r[j] == l[j];
    Apart(g, r, k, i);
    SizeKept(g, l, i, i + 1);
    if i + 1 < |r| {
      Apart(g, r, k, i + 1);
      Apart(g, r, i, i + 1);
    }
    LookUpJoined(g, h, l[i].off, End(g, l, i + 1), r[k].off);
  }

  lemma MergedLinked(g: Layout, h: map<int, Mem>, l: seq<Block>, i: nat)
    requires Tiling(g, l) && Linked(g, h, l) && i + 1 < |l| && !l[i].used && !l[i + 1].used
    ensures var e := End(g, l, i + 1);
            && l[i].off in h && e in h && l[i].off + g.hdr <= e
            && Linked(g, Joined(g, h, l[i].off, e), Merged(l, i))
  {
    var r, e := Merged(l, i), End(g, l, i + 1);
    MergedTiling(g, l, i);
    MergedNode(g, h, l, i, 0);
    var h' := Joined(g, h, l[i].off, e);
    forall k | 0 <= k < |r|
      ensures r[k].off in h' && h'[r[k].off] == Node(g, r, k)
    {
      MergedNode(g, h, l, i, k);
    }
    SizeKept(g, r, i, i);
  }

  // ----------------------------------------------------------------- live bytes

  /** A live byte lies in no header. */
  lemma LiveNotHeader(g: Layout, l: seq<Block>, a: int, k: nat)
    requires Tiling(g, l) && Live(g, l, a) && k < |l|
    ensures 0 <= a < g.size && !(l[k].off <= a < l[k].off + g.hdr)
  {
    var i :| 0 <= i < |l| && l[i].used && l[i].off + g.hdr <= a < End(g, l, i);
    BelowSize(g, l, i);
    if k < i {
      Increasing(g, l, k, i);
    } else if i < k {
      Increasing(g, l, i, k);
    }
  }

  lemma LiveInside(g: Layout, l: seq<Block>, a: int)
    requires Tiling(g, l) && Live(g, l, a)
    ensures 0 <= a < g.size && 0 < g.hdr
  {
    LiveNotHeader(g, l, a, 0);
  }

  /** Marking a block as used adds its data area to the live bytes; marking it free removes it. */
  lemma MarkedLive(g: Layout, l: seq<Block>, i: nat, used: bool, a: int)
    requires Tiling(g, l) && i < |l|
    ensures var mine := l[i].off + g.hdr <= a < End(g, l, i);
            Live(g, Marked(l, i, used), a) <==> if mine then used else Live(g, l, a)
  {
    var r := Marked(l, i, used);
    MarkedTiling(g, l, i, used);
    if l[i].off + g.hdr <= a < End(g, l, i) {
      if Live(g, r, a) {
        var k :| 0 <= k < |r| && r[k].used && r[k].off + g.hdr <= a < End(g, r, k);
        LiveDisjoint(g, r, i, k, a);
      }
      if used {
        assert r[i].used && End(g, r, i) == End(g, l, i);
      }
    } else {
      if Live(g, l, a) {
        var k :| 0 <= k < |l| && l[k].used && l[k].off + g.hdr <= a < End(g, l, k);
        assert r[k] == l[k] && End(g, r, k) == End(g, l, k);
      }
      if Live(g, r, a) {
        var k :| 0 <= k < |r| && r[k].used && r[k].off + g.hdr <= a < End(g, r, k);
        assert r[k] == l[k] && End(g, r, k) == End(g, l, k);
      }
    }
  }

  /** Joining two free blocks changes no live byte. */
  lemma MergedLive(g: Layout, l: seq<Block>, i: nat, a: int)
    requires Tiling(g, l) && i + 1 < |l| && !l[i].used && !l[i + 1].used
    ensures Live(g, Merged(l, i), a) <==> Live(g, l, a)
  {
    var r := Merged(l, i);
    if Live(g, l, a) {
      var k :| 0 <= k < |l| && l[k].used && l[k].off + g.hdr <= a < End(g, l, k);
      var j := if k < i then k else k - 1;
      assert r[j] == l[k] && End(g, r, j) == End(g, l, k);
    }
    if Live(g, r, a) {
      var k :| 0 <= k < |r| && r[k].used && r[k].off + g.hdr <= a < End(g, r, k);
      var j := if k <= i then k else k + 1;
      assert r[k] == l[j] && End(g, r, k) == End(g, l, j);
    }
  }

  /** Splitting block `i` makes its data area below `cut` live, and no other byte of it. */
  lemma SplitLive(g: Layout, l: seq<Block>, i: nat, cut: int, a: int)
    requires Tiling(g, l) && i < |l| && Cuts(g, l, i, cut)
    ensures var mine := l[i].off + g.hdr <= a < End(g, l, i);
            Live(g, Split(l, i, cut), a) <==> if mine then a < cut else Live(g, l, a)
  {
    var r := Split(l, i, cut);
    SplitTiling(g, l, i, cut);
    if Live(g, r, a) {
      var k :| 0 <= k < |r| && r[k].used && r[k].off + g.hdr <= a < End(g, r, k);
      SplitIndex(g, l, i, cut, k);
      if k != i {
        var j := if k < i then k else k - 1;
        assert l[j].used && l[j].off + g.hdr <= a < End(g, l, j);
        if l[i].off + g.hdr <= a < End(g, l, i) {
          LiveDisjoint(g, l, i, j, a);
        }
      }
    }
    if l[i].off + g.hdr <= a < cut {
      SplitIndex(g, l, i, cut, i);
      assert r[i].used && r[i].off + g.hdr <= a < End(g, r, i);
    }
    if Live(g, l, a) && !(l[i].off + g.hdr <= a < End(g, l, i)) {
      var j :| 0 <= j < |l| && l[j].used && l[j].off + g.hdr <= a < End(g, l, j);
      var k := if j < i then j else j + 1;
      SplitIndex(g, l, i, cut, k);
      assert r[k].used && r[k].off + g.hdr <= a < End(g, r, k);
    }
  }

  lemma SplitIndex(g: Layout, l: seq<Block>, i: nat, cut: int, k: nat)
    requires i < |l| && k <= |l|
    ensures var r := Split(l, i, cut);
            && |r| == |l| + 1
            && r[k] == (if k < i then l[k] else if k == i then Block(l[i].off, true) else if k == i + 1 then Block(cut, false) else l[k - 1])
            && End(g, r, k) == (if k < i then End(g, l, k) else if k == i then cut else End(g, l, k - 1))
  {
  }

  /** Moving the free block behind a used one takes the bytes from `cut` on from the used one. */
  lemma MovedLive(g: Layout, l: seq<Block>, i: nat, cut: int, a: int)
    requires Tiling(g, l) && i + 1 < |l| && l[i].used && !l[i + 1].used
    requires l[i].off + g.hdr + g.min <= cut <= l[i + 1].off
    ensures var mine := l[i].off + g.hdr <= a < End(g, l, i);
            Live(g, Moved(l, i, cut), a) <==> if mine then a < cut else Live(g, l, a)
  {
    var r := Moved(l, i, cut);
    MovedTiling(g, l, i, cut);
    if Live(g, r, a) {
      var k :| 0 <= k < |r| && r[k].used && r[k].off + g.hdr <= a < End(g, r, k);
      assert l[k].used && l[k].off + g.hdr <= a < End(g, l, k);
      if l[i].off + g.hdr <= a < End(g, l, i) {
        LiveDisjoint(g, l, i, k, a);
      }
    }
    if l[i].off + g.hdr <= a < cut {
      assert r[i].used && r[i].off + g.hdr <= a < End(g, r, i);
    }
    if Live(g, l, a) && !(l[i].off + g.hdr <= a < End(g, l, i)) {
      var k :| 0 <= k < |l| && l[k].used && l[k].off + g.hdr <= a < End(g, l, k);
      assert r[k] == l[k] && End(g, r, k) == End(g, l, k);
    }
  }

  // ------------------------------------------------- lowest free block, coalescing

  /** Coalesced, except that block `i` may be free next to free neighbours. */
  ghost predicate CoalescedBut(l: seq<Block>, i: int) {
    forall k :: 0 <= k < |l| - 1 && k != i - 1 && k != i ==> l[k].used || l[k + 1].used
  }

  /** Coalesced, except that block `i` may be free behind a free block. */
  ghost predicate CoalescedBehind(l: seq<Block>, i: int) {
    forall k :: 0 <= k < |l| - 1 && k != i - 1 ==> l[k].used || l[k + 1].used
  }

  lemma FreedLowest(g: Layout, l: seq<Block>, i: nat, p: int)
    requires Tiling(g, l) && Lowest(g, l, p) && i < |l|
    ensures Lowest(g, Marked(l, i, false), if l[i].off < p then l[i].off else p)
    ensures Coalesced(l) ==> CoalescedBut(Marked(l, i, false), i)
  {
    var r := Marked(l, i, false);
    assert !r[i].used && r[i].off == l[i].off;
    if FreeAt(l, p) {
      var k :| 0 <= k < |l| && !l[k].used && l[k].off == p;
      assert !r[k].used && r[k].off == p;
    }
    BelowSize(g, l, i);
  }

  lemma MergedLowest(g: Layout, l: seq<Block>, i: nat, p: int)
    requires Tiling(g, l) && Lowest(g, l, p) && i + 1 < |l| && !l[i].used && !l[i + 1].used
    ensures Lowest(g, Merged(l, i), p) && p != l[i + 1].off
  {
    var r := Merged(l, i);
    Increasing(g, l, i, i + 1);
    assert p <= l[i].off;
    assert forall k :: 0 <= k < |r| ==> r[k] == if k <= i then l[k] else l[k + 1];
    var k :| 0 <= k < |l| && !l[k].used && l[k].off == p;
    assert r[if k <= i then k else k - 1] == l[k];
  }

  /** Joining with the successor leaves only the predecessor to be checked. */
  lemma PlugForward(l: seq<Block>, i: nat)
    requires i < |l| && CoalescedBut(l, i)
    ensures var r := if i + 1 < |l| && !l[i].used && !l[i + 1].used then Merged(l, i) else l;
            CoalescedBehind(r, i)
  {
    var r := if i + 1 < |l| && !l[i].used && !l[i + 1].used then Merged(l, i) else l;
    forall k | 0 <= k < |r| - 1 && k != i - 1
      ensures r[k].used || r[k + 1].used
    {
      if r != l {
        assert r[k] == (if k <= i then l[k] else l[k + 1]) && r[k + 1] == (if k + 1 <= i then l[k + 1] else l[k + 2]);
        if k == i {
          assert l[i + 1].used || l[i + 2].used;
        }
      }
    }
  }

  lemma PlugBackward(l: seq<Block>, i: nat)
    requires i < |l| && CoalescedBehind(l, i)
    ensures Coalesced(if i > 0 && !l[i - 1].used && !l[i].used then Merged(l, i - 1) else l)
  {
    if i > 0 && !l[i - 1].used && !l[i].used {
      var r := Merged(l, i - 1);
      assert forall k :: 0 <= k < |r| ==> r[k] == if k < i then l[k] else l[k + 1];
      forall k | 0 <= k < |r| - 1
        ensures r[k].used || r[k + 1].used
      {
        if k == i - 1 {
          assert l[i].used || l[i + 1].used;
        } else if k < i - 1 {
          assert l[k].used || l[k + 1].used;
        } else {
          assert l[k + 1].used || l[k + 2].used;
        }
      }
    }
  }

  lemma TakenLowest(g: Layout, l: seq<Block>, i: nat, p: int)
    requires Tiling(g, l) && Lowest(g, l, p) && Coalesced(l) && i < |l| && !l[i].used
    ensures Coalesced(Marked(l, i, true))
    ensures p != l[i].off ==> Lowest(g, Marked(l, i, true), p)
  {
    var r := Marked(l, i, true);
    if p != l[i].off {
      BelowSize(g, l, i);
      var k :| 0 <= k < |l| && !l[k].used && l[k].off == p;
      assert r[k] == l[k];
    }
  }

  lemma SplitLowest(g: Layout, l: seq<Block>, i: nat, cut: int, p: int)
    requires Tiling(g, l) && Lowest(g, l, p) && Coalesced(l) && i < |l| && Cuts(g, l, i, cut)
    requires i + 1 < |l| ==> l[i + 1].used
    ensures Coalesced(Split(l, i, cut))
    ensures l[i].used || p != l[i].off ==> Lowest(g, Split(l, i, cut), if cut < p then cut else p)
    ensures !l[i].used && p != l[i].off ==> p < cut
  {
    var r := Split(l, i, cut);
    forall k | 0 <= k < |r|
      ensures r[k] == (if k < i then l[k] else if k == i then Block(l[i].off, true) else if k == i + 1 then Block(cut, false) else l[k - 1])
    {
      SplitIndex(g, l, i, cut, k);
    }
    BelowSize(g, l, i);
    assert r[i + 1] == Block(cut, false);
    if FreeAt(l, p) && p != l[i].off {
      var k :| 0 <= k < |l| && !l[k].used && l[k].off == p;
      assert r[if k < i then k else k + 1] == l[k];
    }
    if FreeAt(l, p) && p == l[i].off && l[i].used {
      var k :| 0 <= k < |l| && !l[k].used && l[k].off == p;
      Apart(g, l, k, i);
    }
  }

  lemma MovedLowest(g: Layout, l: seq<Block>, i: nat, cut: int, p: int)
    requires Tiling(g, l) && Lowest(g, l, p) && Coalesced(l) && i + 1 < |l| && l[i].used && !l[i + 1].used
    requires l[i].off + g.hdr + g.min <= cut <= l[i + 1].off
    ensures Coalesced(Moved(l, i, cut))
    ensures Lowest(g, Moved(l, i, cut), if p == l[i + 1].off then cut else p)
  {
    var r := Moved(l, i, cut);
    assert p <= l[i + 1].off;
    assert r[i + 1] == Block(cut, false);
    BelowSize(g, l, i + 1);
    var k :| 0 <= k < |l| && !l[k].used && l[k].off == p;
    Apart(g, l, k, i + 1);
    Apart(g, l, k, i);
    if k != i + 1 {
      assert r[k] == l[k];
    } else {
      forall j | 0 <= j < |r| && !r[j].used
        ensures cut <= r[j].off
      {
        if j != i + 1 {
          assert l[j].off >= p;
        }
      }
    }
  }

  // ------------------------------------------------------------------ alignment

  lemma AlignedKept(g: Layout, l: seq<Block>, i: nat)
    requires Aligned(g, l) && i < |l|
    ensures Aligned(g, Marked(l, i, true)) && Aligned(g, Marked(l, i, false))
    ensures i + 1 < |l| ==> Aligned(g, Merged(l, i))
  {
    if i + 1 < |l| {
      var r := Merged(l, i);
      assert forall k :: 0 <= k < |r| ==> r[k] == if k <= i then l[k] else l[k + 1];
    }
  }

  lemma AlignedCut(g: Layout, l: seq<Block>, i: nat, cut: int)
    requires Aligned(g, l) && i < |l| && cut % g.align == 0
    ensures Aligned(g, Split(l, i, cut))
    ensures i + 1 < |l| ==> Aligned(g, Moved(l, i, cut))
  {
    var r := Split(l, i, cut);
    forall k | 0 <= k < |r|
      ensures r[k].off % g.align == 0
    {
      SplitIndex(g, l, i, cut, k);
    }
  }
}
