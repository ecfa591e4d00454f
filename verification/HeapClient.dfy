/**
 * The heap as its users see it: memory areas that keep what their owner wrote, whatever
 * else is allocated, trimmed and freed.
 */
module HeapClient {
  import opened Common
  import opened HeapBlocks
  import opened Heap

  /** Block k of l is block k' of l', with the same extent. */
  ghost predicate Same(g: Layout, l: seq<Block>, k: nat, l': seq<Block>, k': nat) {
    k < |l| && k' < |l'| && l'[k'] == l[k] && End(g, l', k') == End(g, l, k)
  }

  /** Somebody owns n bytes at p: they are the data of a used block, or the beginning of it. */
  ghost predicate Owned(g: Layout, l: seq<Block>, p: int, n: nat, i: nat) {
    i < |l| && l[i].used && p == l[i].off + g.hdr && n <= Room(g, l, i)
  }

  lemma SameOwned(g: Layout, l: seq<Block>, k: nat, l': seq<Block>, k': nat, p: int, n: nat)
    requires Owned(g, l, p, n, k) && Same(g, l, k, l', k')
    ensures Owned(g, l', p, n, k')
  {
  }

  lemma SplitKeeps(g: Layout, l: seq<Block>, i: nat, cut: int, k: nat)
    requires i < |l| && k < |l| && k != i
    ensures Same(g, l, k, Split(l, i, cut), if k < i then k else k + 1)
  {
  }

  lemma MergedKeeps(g: Layout, l: seq<Block>, i: nat, k: nat)
    requires i + 1 < |l| && k < |l| && k != i && k != i + 1
    ensures Same(g, l, k, Merged(l, i), if k < i then k else k - 1)
  {
  }

  /** Giving out a free block leaves every used block where it is. */
  lemma GivenKeeps(g: Layout, l: seq<Block>, i: nat, need: int, k: nat) returns (k': nat)
    requires i < |l| && k < |l| && k != i
    ensures Same(g, l, k, Given(g, l, i, need), k')
  {
    k' := k;
    if Room(g, l, i) >= need + g.hdr + g.min {
      SplitKeeps(g, l, i, l[i].off + g.hdr + need, k);
      k' := if k < i then k else k + 1;
    }
  }

  /** So does trimming one, for the others. */
  lemma TrimmedKeeps(g: Layout, l: seq<Block>, i: nat, need: int, k: nat) returns (k': nat)
    requires i < |l| && k < |l| && k != i && l[k].used
    ensures Same(g, l, k, Trimmed(g, l, i, need), k')
  {
    k' := k;
    if Trimmed(g, l, i, need) != l && !(i + 1 < |l| && !l[i + 1].used) {
      SplitKeeps(g, l, i, l[i].off + g.hdr + need, k);
      k' := if k < i then k else k + 1;
    }
  }

  /** And freeing one. */
  lemma FreedKeeps(g: Layout, l: seq<Block>, i: nat, k: nat) returns (k': nat)
    requires i < |l| && k < |l| && k != i && l[k].used
    ensures Same(g, l, k, Plugged(Marked(l, i, false), i), k')
  {
    var m := Marked(l, i, false);
    assert Same(g, l, k, m, k);
    k' := k;
    var f := m;
    if i + 1 < |m| && !m[i + 1].used {
      MergedKeeps(g, m, i, k);
      f := Merged(m, i);
      k' := if k < i then k else k - 1;
    }
    if i > 0 && !f[i - 1].used {
      MergedKeeps(g, f, i - 1, k');
      k' := if k' < i - 1 then k' else k' - 1;
    }
  }

  /** The trimmed block keeps the bytes asked for. */
  lemma TrimmedOwned(g: Layout, l: seq<Block>, i: nat, need: int)
    requires i < |l| && l[i].used && 0 <= need <= Room(g, l, i)
    ensures Owned(g, Trimmed(g, l, i, need), l[i].off + g.hdr, need, i)
  {
  }

  /** The bytes an owner has at p are live, and nobody else's. */
  lemma OwnedApart(g: Layout, l: seq<Block>, p: int, n: nat, i: nat, q: int, m: nat, j: nat)
    requires Tiling(g, l) && Owned(g, l, p, n, i) && Owned(g, l, q, m, j) && p != q
    ensures p + n <= q || q + m <= p
  {
    if i < j {
      Increasing(g, l, i, j);
    } else if j < i {
      Increasing(g, l, j, i);
    }
  }

  // ------------------------------------------------------------ used blocks

  ghost function UsedCount(l: seq<Block>): nat {
    if l == [] then 0 else (if l[0].used then 1 else 0) + UsedCount(l[1..])
  }

  lemma {:induction false} CountConcat(a: seq<Block>, b: seq<Block>)
    ensures UsedCount(a + b) == UsedCount(a) + UsedCount(b)
  {
    if a == [] {
      assert a + b == b;
    } else {
      assert (a + b)[1..] == a[1..] + b;
      CountConcat(a[1..], b);
    }
  }

  lemma CountNone()
    ensures UsedCount([]) == 0
  {
  }

  lemma CountAt(l: seq<Block>, i: nat)
    requires i < |l|
    ensures UsedCount(l) == UsedCount(l[..i]) + (if l[i].used then 1 else 0) + UsedCount(l[i + 1..])
  {
    assert l == l[..i] + l[i..];
    CountConcat(l[..i], l[i..]);
    assert l[i..][1..] == l[i + 1..];
  }

  lemma CountMarked(l: seq<Block>, i: nat, used: bool)
    requires i < |l|
    ensures UsedCount(Marked(l, i, used)) == UsedCount(l) - (if l[i].used then 1 else 0) + (if used then 1 else 0)
  {
    hide UsedCount;
    var r := Marked(l, i, used);
    CountAt(l, i);
    CountAt(r, i);
    assert r[..i] == l[..i] && r[i + 1..] == l[i + 1..];
  }

  lemma CountSplit(l: seq<Block>, i: nat, cut: int)
    requires i < |l|
    ensures UsedCount(Split(l, i, cut)) == UsedCount(l) + if l[i].used then 0 else 1
  {
    hide UsedCount;
    var r := Split(l, i, cut);
    CountAt(l, i);
    CountAt(r, i);
    CountAt(r, i + 1);
    CountAt(r[i + 1..], 0);
    assert r[i + 1..][..0] == [] == l[..0] && r[i + 1..][1..] == l[i + 1..];
    assert r[..i] == l[..i];
    CountNone();
  }

  lemma CountMerged(l: seq<Block>, i: nat)
    requires i + 1 < |l| && !l[i + 1].used
    ensures UsedCount(Merged(l, i)) == UsedCount(l)
  {
    CountAt(l, i + 1);
    CountConcat(l[..i + 1], l[i + 2..]);
  }

  lemma CountMoved(l: seq<Block>, i: nat, cut: int)
    requires i + 1 < |l| && !l[i + 1].used
    ensures UsedCount(Moved(l, i, cut)) == UsedCount(l)
  {
    hide UsedCount;
    var r := Moved(l, i, cut);
    CountAt(l, i + 1);
    CountAt(r, i + 1);
    assert r[..i + 1] == l[..i + 1] && r[i + 2..] == l[i + 2..];
  }

  /** Allocating makes one more block used, freeing one less, trimming none. */
  lemma GivenCount(g: Layout, l: seq<Block>, i: nat, need: int)
    requires i < |l| && !l[i].used
    ensures UsedCount(Given(g, l, i, need)) == UsedCount(l) + 1
  {
    hide UsedCount, Split, Marked;
    CountMarked(l, i, true);
    CountSplit(l, i, l[i].off + g.hdr + need);
  }

  lemma FreedCount(l: seq<Block>, i: nat)
    requires i < |l| && l[i].used
    ensures UsedCount(Plugged(Marked(l, i, false), i)) == UsedCount(l) - 1
  {
    hide UsedCount;
    var m := Marked(l, i, false);
    CountMarked(l, i, false);
    var f := m;
    if i + 1 < |m| && !m[i + 1].used {
      CountMerged(m, i);
      f := Merged(m, i);
    }
    if i > 0 && !f[i - 1].used {
      CountMerged(f, i - 1);
    }
  }

  lemma TrimmedCount(g: Layout, l: seq<Block>, i: nat, need: int)
    requires i < |l| && l[i].used
    ensures UsedCount(Trimmed(g, l, i, need)) == UsedCount(l)
  {
    hide UsedCount, Moved, Split;
    var cut := l[i].off + g.hdr + need;
    CountSplit(l, i, cut);
    if i + 1 < |l| && !l[i + 1].used {
      CountMoved(l, i, cut);
    }
  }

  /** With no block used, there is only one. */
  lemma NoneUsed(g: Layout, l: seq<Block>)
    requires Tiling(g, l) && Coalesced(l) && UsedCount(l) == 0
    ensures l == [Block(0, false)] && UsedSize(g, l) == 0
  {
    CountAt(l, 0);
    assert l == [l[0]] && l[1..] == [];
  }

  // ------------------------------------------------------------------- users

  /** An area: where it is and what its owner wrote there. */
  datatype Area = Area(p: int, data: seq<byte>)

  ghost predicate HasOwner(g: Layout, l: seq<Block>, a: Area) {
    exists i :: Owned(g, l, a.p, |a.data|, i)
  }

  /** The memory at an area is what was written. */
  ghost predicate Holds(bytes: seq<byte>, a: Area) {
    0 <= a.p && a.p + |a.data| <= |bytes| && bytes[a.p..a.p + |a.data|] == a.data
  }

  ghost predicate Intact(g: Layout, l: seq<Block>, bytes: seq<byte>, areas: seq<Area>) {
    && (forall k :: 0 <= k < |areas| ==> HasOwner(g, l, areas[k]) && Holds(bytes, areas[k]))
    && (forall k, m :: 0 <= k < m < |areas| ==> areas[k].p != areas[m].p)
  }

  lemma OwnedInside(g: Layout, l: seq<Block>, p: int, n: nat, i: nat)
    requires Tiling(g, l) && Owned(g, l, p, n, i)
    ensures 0 <= p && p + n <= g.size && forall x :: p <= x < p + n ==> Live(g, l, x)
  {
    BelowSize(g, l, i);
  }

  /** What is live and unchanged still holds what was written. */
  lemma StillHolds(g: Layout, l: seq<Block>, b: seq<byte>, b': seq<byte>, a: Area)
    requires Tiling(g, l) && HasOwner(g, l, a) && Holds(b, a) && LiveSame(g, l, b, b')
    ensures Holds(b', a)
  {
    var i :| Owned(g, l, a.p, |a.data|, i);
    OwnedInside(g, l, a.p, |a.data|, i);
    assert forall x :: 0 <= x < |a.data| ==> b'[a.p + x] == b[a.p + x] == a.data[x];
  }

  lemma GivenOwner(g: Layout, l: seq<Block>, i: nat, need: int, a: Area)
    requires Tiling(g, l) && i < |l| && !l[i].used && HasOwner(g, l, a)
    ensures HasOwner(g, Given(g, l, i, need), a) && a.p != l[i].off + g.hdr
  {
    hide Given, Tiling;
    var k :| Owned(g, l, a.p, |a.data|, k);
    var k' := GivenKeeps(g, l, i, need, k);
    SameOwned(g, l, k, Given(g, l, i, need), k', a.p, |a.data|);
    DifferentPlaces(g, l, i, k);
  }

  lemma FreedOwner(g: Layout, l: seq<Block>, i: nat, a: Area)
    requires i < |l| && HasOwner(g, l, a) && a.p != l[i].off + g.hdr
    ensures HasOwner(g, Plugged(Marked(l, i, false), i), a)
  {
    hide Plugged;
    var k :| Owned(g, l, a.p, |a.data|, k);
    var k' := FreedKeeps(g, l, i, k);
    SameOwned(g, l, k, Plugged(Marked(l, i, false), i), k', a.p, |a.data|);
  }

  lemma TrimmedOwner(g: Layout, l: seq<Block>, i: nat, need: int, a: Area)
    requires i < |l| && HasOwner(g, l, a) && a.p != l[i].off + g.hdr
    ensures HasOwner(g, Trimmed(g, l, i, need), a)
  {
    hide Trimmed;
    var k :| Owned(g, l, a.p, |a.data|, k);
    var k' := TrimmedKeeps(g, l, i, need, k);
    SameOwned(g, l, k, Trimmed(g, l, i, need), k', a.p, |a.data|);
  }

  lemma DifferentPlaces(g: Layout, l: seq<Block>, i: nat, k: nat)
    requires Tiling(g, l) && i < |l| && k < |l| && i != k
    ensures l[i].off != l[k].off
  {
    if i < k {
      Increasing(g, l, i, k);
    } else {
      Increasing(g, l, k, i);
    }
  }

  /** A new area beside the others. */
  lemma Grown(g: Layout, l: seq<Block>, i: nat, need: int, n: nat, b: seq<byte>, b': seq<byte>, areas: seq<Area>)
    requires Tiling(g, l) && Intact(g, l, b, areas) && i < |l| && FitsIn(g, l, need, i) && g.min <= need && n <= need
    requires Tiling(g, Given(g, l, i, need)) && LiveSame(g, Given(g, l, i, need), b, b') && |b'| >= g.size
    ensures var p := l[i].off + g.hdr;
            && 0 <= p && p + n <= |b'|
            && Intact(g, Given(g, l, i, need), b', areas + [Area(p, b'[p..p + n])])
  {
    var r, p := Given(g, l, i, need), l[i].off + g.hdr;
    GivenLive(g, l, i, need, p);
    assert Owned(g, r, p, n, i);
    hide Given, Tiling, LiveSame, FitsIn, Owned;
    OwnedInside(g, r, p, n, i);
    var mine := Area(p, b'[p..p + n]);
    assert |mine.data| == n && HasOwner(g, r, mine) && Holds(b', mine);
    forall k | 0 <= k < |areas|
      ensures HasOwner(g, r, areas[k]) && Holds(b', areas[k]) && areas[k].p != p
    {
      FitMeans(g, l, need, i);
      GivenOwner(g, l, i, need, areas[k]);
      StillHolds(g, r, b, b', areas[k]);
    }
  }

  /** The other areas after one is freed. */
  lemma Shrunk(g: Layout, l: seq<Block>, i: nat, b: seq<byte>, b': seq<byte>, areas: seq<Area>, k: nat)
    requires Intact(g, l, b, areas) && k < |areas| && Owned(g, l, areas[k].p, |areas[k].data|, i)
    requires Tiling(g, Plugged(Marked(l, i, false), i)) && LiveSame(g, Plugged(Marked(l, i, false), i), b, b')
    ensures Intact(g, Plugged(Marked(l, i, false), i), b', areas[..k] + areas[k + 1..])
  {
    hide Plugged, Tiling, LiveSame;
    var r, rest := Plugged(Marked(l, i, false), i), areas[..k] + areas[k + 1..];
    forall m | 0 <= m < |rest|
      ensures HasOwner(g, r, rest[m]) && Holds(b', rest[m])
    {
      assert rest[m] == areas[if m < k then m else m + 1];
      FreedOwner(g, l, i, rest[m]);
      StillHolds(g, r, b, b', rest[m]);
    }
    forall m, n | 0 <= m < n < |rest|
      ensures rest[m].p != rest[n].p
    {
      assert rest[m] == areas[if m < k then m else m + 1] && rest[n] == areas[if n < k then n else n + 1];
    }
  }

  /** A size within a block stays within it when it is rounded up. */
  lemma NeedWithin(g: Layout, l: seq<Block>, i: nat, modulus: int, n: nat)
    requires Tiling(g, l) && Aligned(g, l) && i < |l| && g.size < modulus && modulus % g.align == 0 && n < modulus
    requires n <= Room(g, l, i)
    ensures Need(g, modulus, n) <= Room(g, l, i)
  {
    var room, up := Room(g, l, i), AlignUp(n, g.align);
    NeedCovers(g, modulus, n);
    assert g.min <= room;
    ModSub(End(g, l, i), l[i].off, g.align);
    ModSub(End(g, l, i) - l[i].off, g.hdr, g.align);
    AlignUpAligned(n, g.align);
    ModSub(up, room, g.align);
    if up > room {
      Reduced(up - room, g.align);
    }
  }

  /** The areas after one is trimmed. */
  lemma Cut(g: Layout, l: seq<Block>, i: nat, need: nat, n: nat, b: seq<byte>, b': seq<byte>, areas: seq<Area>, k: nat)
    requires Intact(g, l, b, areas) && k < |areas| && Owned(g, l, areas[k].p, |areas[k].data|, i)
    requires n <= need <= Room(g, l, i)
    requires Tiling(g, Trimmed(g, l, i, need)) && LiveSame(g, Trimmed(g, l, i, need), b, b')
    ensures Intact(g, Trimmed(g, l, i, need), b', areas[k := Area(areas[k].p, Prefix(areas[k].data, n))])
  {
    hide Trimmed, Tiling, LiveSame;
    var r, mine := Trimmed(g, l, i, need), Area(areas[k].p, Prefix(areas[k].data, n));
    var next := areas[k := mine];
    TrimmedOwned(g, l, i, need);
    assert Owned(g, r, mine.p, |mine.data|, i);
    assert Holds(b, mine);
    forall m | 0 <= m < |next|
      ensures HasOwner(g, r, next[m]) && Holds(b', next[m])
    {
      if m != k {
        TrimmedOwner(g, l, i, need, next[m]);
      }
      StillHolds(g, r, b, b', next[m]);
    }
  }

  /** Writing a byte of one area leaves the others alone. */
  lemma Written(g: Layout, l: seq<Block>, b: seq<byte>, areas: seq<Area>, k: nat, off: nat, x: byte)
    requires Tiling(g, l) && Intact(g, l, b, areas) && k < |areas| && off < |areas[k].data|
    ensures 0 <= areas[k].p + off < |b|
    ensures Intact(g, l, b[areas[k].p + off := x], areas[k := Area(areas[k].p, areas[k].data[off := x])])
  {
    var at, next := areas[k].p + off, areas[k := Area(areas[k].p, areas[k].data[off := x])];
    var b' := b[at := x];
    var i :| Owned(g, l, areas[k].p, |areas[k].data|, i);
    assert Owned(g, l, next[k].p, |next[k].data|, i);
    forall m | 0 <= m < |next|
      ensures HasOwner(g, l, next[m]) && Holds(b', next[m])
    {
      if m != k {
        var j :| Owned(g, l, areas[m].p, |areas[m].data|, j);
        OwnedApart(g, l, areas[k].p, |areas[k].data|, i, areas[m].p, |areas[m].data|, j);
      }
    }
  }

  class Client {
    const heap: MemHeap
    var areas: seq<Area>

    ghost predicate Valid()
      reads this, heap
    {
      heap.Valid() && Intact(heap.g, heap.blocks, heap.bytes, areas) && UsedCount(heap.blocks) == |areas|
    }

    /** Nothing leaks: when every area has been freed, the heap is one free block again, as mem_init left it. */
    lemma NothingLeaks()
      requires Valid() && areas == []
      ensures heap.blocks == [Block(0, false)] && heap.lfree == 0 && heap.usedStat == 0
    {
      NoneUsed(heap.g, heap.blocks);
    }

    constructor (g: Layout, modulus: int)
      requires g.Ok() && g.size < modulus && modulus % g.align == 0
      ensures Valid() && areas == [] && fresh(heap) && heap.g == g && heap.modulus == modulus
    {
      heap := new MemHeap(g, modulus);
      areas := [];
    }

    /** mem_malloc. The new area has the size asked for, unless rounding it up wraps around. */
    method Alloc(size: nat) returns (ok: bool)
      requires Valid() && size < heap.modulus
      modifies this`areas, heap
      ensures Valid()
      ensures var need := Need(heap.g, heap.modulus, size);
              && (ok <==> size != 0 && exists k :: 0 <= k < |old(heap.blocks)| && FitsIn(heap.g, old(heap.blocks), need, k))
              && if ok then |areas| == |old(areas)| + 1 && areas[..|old(areas)|] == old(areas)
                            && |areas[|old(areas)|].data| == Min(size, need)
                 else areas == old(areas)
      ensures heap.usedStat == old(heap.usedStat) <==> !ok
      ensures ok ==> var more := heap.usedStat - old(heap.usedStat) - heap.g.hdr - Need(heap.g, heap.modulus, size);
                     0 <= more < heap.g.hdr + heap.g.min
    {
      hide Tiling, Aligned, Linked, LiveSame, UsedSize, Lowest, Coalesced, Given, FitsIn, Need, Intact, UsedCount, RestIsFree;
      ghost var l, b := heap.blocks, heap.bytes;
      NeedCovers(heap.g, heap.modulus, size);
      var n: nat := Min(size, Need(heap.g, heap.modulus, size));
      var r;
      ghost var i;
      r, i := heap.Malloc(size);
      ok := r.At?;
      if ok {
        GivenIndex(heap.g, l, i, Need(heap.g, heap.modulus, size));
        FitMeans(heap.g, l, Need(heap.g, heap.modulus, size), i);
        GivenCount(heap.g, l, i, Need(heap.g, heap.modulus, size));
        Grown(heap.g, l, i, Need(heap.g, heap.modulus, size), n, b, heap.bytes, areas);
        areas := areas + [Area(r.addr, heap.bytes[r.addr..r.addr + n])];
      }
    }

    /** The owner of an area reads a byte of it. */
    method Get(k: nat, off: nat) returns (x: byte)
      requires Valid() && k < |areas| && off < |areas[k].data|
      ensures x == areas[k].data[off]
    {
      assert Holds(heap.bytes, areas[k]);
      x := heap.bytes[areas[k].p + off];
    }

    /** The owner of an area writes a byte of it. */
    method Put(k: nat, off: nat, x: byte)
      requires Valid() && k < |areas| && off < |areas[k].data|
      modifies this`areas, heap
      ensures Valid() && areas == old(areas)[k := Area(old(areas)[k].p, old(areas)[k].data[off := x])]
    {
      hide Tiling, Aligned, Linked, LiveSame, UsedSize, Lowest, Coalesced, UsedCount;
      Written(heap.g, heap.blocks, heap.bytes, areas, k, off, x);
      ghost var i :| Owned(heap.g, heap.blocks, areas[k].p, |areas[k].data|, i);
      OwnedInside(heap.g, heap.blocks, areas[k].p, |areas[k].data|, i);
      hide Intact;
      heap.Store(areas[k].p + off, x);
      areas := areas[k := Area(areas[k].p, areas[k].data[off := x])];
    }

    /** mem_free */
    method Release(k: nat)
      requires Valid() && k < |areas|
      modifies this`areas, heap
      ensures Valid() && areas == old(areas)[..k] + old(areas)[k + 1..]
      ensures heap.usedStat <= old(heap.usedStat) - heap.g.hdr - |old(areas)[k].data|
    {
      hide Tiling, Aligned, Linked, LiveSame, UsedSize, Lowest, Coalesced, Plugged, UsedCount;
      ghost var l, b := heap.blocks, heap.bytes;
      assert HasOwner(heap.g, l, areas[k]);
      ghost var i :| Owned(heap.g, l, areas[k].p, |areas[k].data|, i);
      BelowSize(heap.g, l, i);
      hide Intact;
      FreedCount(l, i);
      heap.Free(At(areas[k].p), i);
      Shrunk(heap.g, l, i, b, heap.bytes, areas, k);
      areas := areas[..k] + areas[k + 1..];
    }

    /** mem_trim. It never fails for a size the area has; the area keeps that size unless rounding it up wraps around. */
    method TrimTo(k: nat, n: nat) returns (ok: bool)
      requires Valid() && k < |areas| && n < heap.modulus
      modifies this`areas, heap
      ensures Valid() && (n <= |old(areas)[k].data| ==> ok)
      ensures var a, need := old(areas)[k], Need(heap.g, heap.modulus, n);
              areas == if ok then old(areas)[k := Area(a.p, Prefix(a.data, Min(n, need)))] else old(areas)
    {
      hide Tiling, Aligned, Linked, LiveSame, UsedSize, Lowest, Coalesced, Trimmed, Need, UsedCount;
      ghost var l, b := heap.blocks, heap.bytes;
      assert HasOwner(heap.g, l, areas[k]);
      ghost var i :| Owned(heap.g, l, areas[k].p, |areas[k].data|, i);
      BelowSize(heap.g, l, i);
      hide Intact;
      NeedCovers(heap.g, heap.modulus, n);
      if n <= |areas[k].data| {
        NeedWithin(heap.g, l, i, heap.modulus, n);
      }
      var r := heap.Trim(areas[k].p, n, i);
      ok := r.At?;
      if ok {
        var keep: nat := Min(n, Need(heap.g, heap.modulus, n));
        TrimmedCount(heap.g, l, i, Need(heap.g, heap.modulus, n));
        Cut(heap.g, l, i, Need(heap.g, heap.modulus, n), keep, b, heap.bytes, areas, k);
        areas := areas[k := Area(areas[k].p, Prefix(areas[k].data, keep))];
      }
    }
  }

  // -------------------------------------------------------------------- runs

  datatype Op = Allocate(size: nat) | Write(k: nat, off: nat, x: byte) | Free(k: nat) | Trim(k: nat, n: nat)

  /** The operation makes sense here: it names an area and a place in it, and its size is a mem_size_t. */
  predicate Allowed(c: Client, op: Op)
    reads c
  {
    match op
    case Allocate(size) => size < c.heap.modulus
    case Write(k, off, _) => k < |c.areas| && off < |c.areas[k].data|
    case Free(k) => k < |c.areas|
    case Trim(k, n) => k < |c.areas| && n < c.heap.modulus
  }

  /** Over every run the blocks tile the heap, every area holds what its owner wrote, and nothing leaks. */
  method Run(c: Client, ops: seq<Op>)
    requires c.Valid()
    modifies c, c.heap
    ensures c.Valid()
    ensures c.areas == [] ==> c.heap.blocks == [Block(0, false)]
  {
    var j := 0;
    while j < |ops| && Allowed(c, ops[j])
      invariant c.Valid()
    {
      match ops[j] {
        case Allocate(size) => var _ := c.Alloc(size);
        case Write(k, off, x) => c.Put(k, off, x);
        case Free(k) => c.Release(k);
        case Trim(k, n) => var _ := c.TrimTo(k, n);
      }
      j := j + 1;
    }
    if c.areas == [] {
      c.NothingLeaks();
    }
  }
}
