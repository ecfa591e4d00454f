/**
 * The heap allocator: mem_init, mem_malloc, mem_free with plug_holes, mem_trim.
 * The struct mem headers lie in the heap itself: writing one destroys the bytes under
 * it, and writing a byte destroys the header it belongs to.
 */
module Heap {
  import opened Common
  import opened HeapBlocks

  datatype Pointer = NULL | At(addr: int)

  /** Bytes outside the header at `p` are the same. */
  ghost predicate SameBut(g: Layout, b: seq<byte>, b': seq<byte>, p: int) {
    |b'| == |b| && forall a :: 0 <= a < |b| && !(p <= a < p + g.hdr) ==> b'[a] == b[a]
  }

  /** Every byte that is live in `l` is the same. */
  ghost predicate LiveSame(g: Layout, l: seq<Block>, b: seq<byte>, b': seq<byte>) {
    |b'| == |b| && forall a :: 0 <= a < |b| && Live(g, l, a) ==> b'[a] == b[a]
  }

  /** A header write at a block of `l`, at the sentinel or in a free block leaves the live bytes alone. */
  lemma HeaderSpares(g: Layout, l: seq<Block>, b: seq<byte>, b': seq<byte>, p: int, k: nat)
    requires Tiling(g, l) && SameBut(g, b, b', p) && k < |l|
    requires p == l[k].off || p == g.size || (!l[k].used && l[k].off + g.hdr <= p && p + g.hdr <= End(g, l, k))
    ensures LiveSame(g, l, b, b')
  {
    forall a | 0 <= a < |b| && Live(g, l, a)
      ensures !(p <= a < p + g.hdr)
    {
      LiveNotHeader(g, l, a, k);
      if !l[k].used && l[k].off + g.hdr <= p && p + g.hdr <= End(g, l, k) && p <= a < p + g.hdr {
        var i :| 0 <= i < |l| && l[i].used && l[i].off + g.hdr <= a < End(g, l, i);
        LiveDisjoint(g, l, i, k, a);
      }
    }
  }

  lemma LiveSameTrans(g: Layout, l: seq<Block>, b: seq<byte>, b': seq<byte>, b'': seq<byte>)
    requires LiveSame(g, l, b, b') && LiveSame(g, l, b', b'')
    ensures LiveSame(g, l, b, b'')
  {
  }

  /** The size mem_malloc and mem_trim work with: rounded up, in mem_size_t, and at least the minimum. */
  function Need(g: Layout, modulus: int, size: nat): int
    requires g.Ok() && 0 < modulus
  {
    var n := AlignUp(size, g.align) % modulus;
    if n < g.min then g.min else n
  }

  /** The rounding covers the request exactly if it does not wrap around in mem_size_t; if it does, the smallest size is taken. */
  lemma NeedCovers(g: Layout, modulus: int, size: nat)
    requires g.Ok() && g.size < modulus && modulus % g.align == 0 && size < modulus
    ensures Need(g, modulus, size) % g.align == 0
    ensures Need(g, modulus, size) == if AlignUp(size, g.align) < modulus then Max(g.min, AlignUp(size, g.align)) else g.min
    ensures g.min < size ==> (size <= Need(g, modulus, size) <==> AlignUp(size, g.align) < modulus)
  {
    RoundUp(size, g.align, modulus);
  }

  /** mem_init leaves one free block and the sentinel. */
  lemma OneBlock(g: Layout, h: map<int, Mem>)
    requires g.Ok() && h == map[0 := Mem(g.size, 0, false), g.size := Mem(g.size, g.size, true)]
    ensures var l := [Block(0, false)];
            && Tiling(g, l) && Aligned(g, l) && Linked(g, h, l) && Coalesced(l) && Lowest(g, l, 0) && UsedSize(g, l) == 0
  {
    var l := [Block(0, false)];
    assert l[1..] == [];
    assert Aligned(g, l) by { Reduced(0, g.align); }
    hide Layout.Ok;
    assert FreeAt(l, 0) by { assert !l[0].used && l[0].off == 0; }
  }

  class MemHeap {
    const g: Layout
    const modulus: int        // number of values of mem_size_t

    var headers: map<int, Mem>
    var bytes: seq<byte>
    var lfree: int
    var usedStat: int         // the statistics counter "used"

    ghost var blocks: seq<Block>

    /** The list of blocks is intact. */
    ghost predicate Listed()
      reads this
    {
      && g.Ok() && Tiling(g, blocks) && Aligned(g, blocks) && Linked(g, headers, blocks)
      && |bytes| == g.size + g.hdr && g.size < modulus && modulus % g.align == 0
    }

    ghost predicate Valid()
      reads this
    {
      && Listed() && Coalesced(blocks) && Lowest(g, blocks, lfree)
      && usedStat == UsedSize(g, blocks)
    }

    /** mem_init: one free block and the sentinel. */
    constructor (g: Layout, modulus: int)
      requires g.Ok() && g.size < modulus && modulus % g.align == 0
      ensures Valid() && blocks == [Block(0, false)] && this.g == g && this.modulus == modulus
    {
      this.g, this.modulus := g, modulus;
      headers := map[0 := Mem(g.size, 0, false), g.size := Mem(g.size, g.size, true)];
      bytes := seq(g.size + g.hdr, i => 0);
      lfree, usedStat := 0, 0;
      blocks := [Block(0, false)];
      new;
      hide Tiling, Aligned, Linked, Coalesced, Lowest, UsedSize;
      OneBlock(g, headers);
    }

    /** Store a struct mem: what its bytes are is not specified. */
    method WriteHeader(p: int, m: Mem)
      requires 0 <= p && 0 < g.hdr && p + g.hdr <= |bytes|
      modifies this`headers, this`bytes
      ensures headers == Put(g, headers, p, m) == Put(g, old(headers), p, m)
      ensures SameBut(g, old(bytes), bytes, p)
    {
      headers := Put(g, headers, p, m);
      var junk: seq<byte> := *;
      if |junk| != g.hdr {
        junk := seq(g.hdr, i => 0);
      }
      bytes := bytes[..p] + junk + bytes[p + g.hdr..];
    }

    /** A user of the heap writes into memory it has allocated. */
    method Store(a: int, b: byte)
      requires Valid() && Live(g, blocks, a)
      modifies this`headers, this`bytes
      ensures Valid() && 0 <= a < |old(bytes)| && bytes == old(bytes)[a := b]
    {
      hide Tiling, Aligned, Linked, Coalesced, Lowest, UsedSize, Live, Poke;
      LiveInside(g, blocks, a);
      PokeLinked(g, headers, blocks, a);
      headers := Poke(g, headers, a);
      bytes := bytes[a := b];
    }

    // -------------------------------------------------------------- list steps

    /** Read the header of block `i`. */
    method Header(p: int, ghost i: nat) returns (m: Mem)
      requires Listed() && i < |blocks| && blocks[i].off == p
      ensures p in headers && m == headers[p] == Node(g, blocks, i)
    {
      m := headers[p];
    }

    /** Set the used flag of block `i`. */
    method Mark(p: int, used: bool, ghost i: nat)
      requires Listed() && i < |blocks| && blocks[i].off == p
      modifies this`headers, this`bytes, this`blocks
      ensures Listed() && blocks == Marked(old(blocks), i, used)
      ensures LiveSame(g, blocks, old(bytes), bytes)
    {
      hide Tiling, Aligned, Linked, Live, Put, LiveSame, UsedSize;
      var m := Header(p, i);
      BelowSize(g, blocks, i);
      MarkedLinked(g, headers, blocks, i, used);
      MarkedTiling(g, blocks, i, used);
      AlignedKept(g, blocks, i);
      Apart(g, blocks, i, i);
      ghost var b := bytes;
      WriteHeader(p, m.(used := used));
      HeaderSpares(g, Marked(blocks, i, used), b, bytes, p, i);
      blocks := Marked(blocks, i, used);
    }

    /** Join block `i` with the block behind it; both are free. */
    method Join(p: int, ghost i: nat)
      requires Listed() && i + 1 < |blocks| && blocks[i].off == p && !blocks[i].used && !blocks[i + 1].used
      modifies this`headers, this`bytes, this`blocks
      ensures Listed() && blocks == Merged(old(blocks), i)
      ensures LiveSame(g, blocks, old(bytes), bytes) && UsedSize(g, blocks) == UsedSize(g, old(blocks))
    {
      hide Tiling, Aligned, Linked, Live, Put, LiveSame, UsedSize;
      ghost var l, b0 := blocks, bytes;
      MergedLinked(g, headers, l, i);
      MergedTiling(g, l, i);
      AlignedKept(g, l, i);
      ghost var r := Merged(l, i);
      SizeKept(g, r, i, i);
      Apart(g, r, i, i);
      BelowSize(g, r, i);
      var m := Header(p, i);
      var n := Header(m.next, i + 1);
      WriteHeader(p, m.(next := n.next));
      HeaderSpares(g, r, b0, bytes, p, i);
      ghost var b1 := bytes;
      NextHeader(g, old(headers), p, n.next);
      WriteHeader(n.next, headers[n.next].(prev := p));
      HeaderSpares(g, r, b1, bytes, n.next, if i + 1 < |r| then i + 1 else i);
      LiveSameTrans(g, r, b0, b1, bytes);
      blocks := r;
    }

    /** plug_holes: block `i` has just become free. */
    method PlugHoles(mem: int, ghost i: nat)
      requires Listed() && i < |blocks| && blocks[i].off == mem && !blocks[i].used
      requires CoalescedBut(blocks, i) && Lowest(g, blocks, lfree)
      modifies this`headers, this`bytes, this`blocks, this`lfree
      ensures Listed() && Coalesced(blocks) && Lowest(g, blocks, lfree)
      ensures blocks == Plugged(old(blocks), i)
      ensures LiveSame(g, blocks, old(bytes), bytes) && UsedSize(g, blocks) == UsedSize(g, old(blocks))
    {
      hide Tiling, Aligned, Linked, Live, LiveSame, UsedSize, Lowest, Coalesced, CoalescedBut, CoalescedBehind, Merged;
      ghost var l, b0 := blocks, bytes;
      PlugForward(l, i);
      PlugForwardLength(l, i);
      SameIsSame(g, l, b0);
      var m := Header(mem, i);
      var nextUsed := IsUsed(m.next, i + 1);
      if !nextUsed {
        MergedLowest(g, blocks, i, lfree);
        lfree := if lfree == m.next then mem else lfree;
        Join(mem, i);
      }
      ghost var l1, b1 := blocks, bytes;
      PlugBackward(l1, i);
      m := Header(mem, i);
      FirstBlock(g, l1);
      if i > 0 {
        Apart(g, l1, i - 1, i);
      }
      if m.prev != mem {
        var p := Header(m.prev, i - 1);
        if !p.used {
          MergedLowest(g, blocks, i - 1, lfree);
          lfree := if lfree == mem then m.prev else lfree;
          Join(m.prev, i - 1);
          MergedSame(g, l1, i - 1, b0, b1);
          LiveSameTrans(g, blocks, b0, b1, bytes);
        }
      }
    }

    /** Whether the block at `p`, number `i`, is in use; the sentinel counts as used. */
    method IsUsed(p: int, ghost i: nat) returns (used: bool)
      requires Listed() && i <= |blocks| && p == (if i < |blocks| then blocks[i].off else g.size)
      ensures used <==> i == |blocks| || blocks[i].used
    {
      if i < |blocks| {
        BelowSize(g, blocks, i);
      }
      used := p == g.size || headers[p].used;
    }

    // ---------------------------------------------------------------- mem_free

    /** `p` is what mem_malloc returned for block `i`, which is still in use. */
    ghost predicate Owns(p: int, i: nat)
      reads this
    {
      i < |blocks| && blocks[i].used && p == blocks[i].off + g.hdr
    }

    /**
     * mem_free. Exactly the bytes of the freed block stop being live; the others keep their value.
     * A pointer outside the heap is ignored.
     */
    method Free(rmem: Pointer, ghost i: nat)
      requires Valid() && (rmem.At? && 0 <= rmem.addr < g.size ==> Owns(rmem.addr, i))
      modifies this`headers, this`bytes, this`blocks, this`lfree, this`usedStat
      ensures Valid()
      ensures if rmem.At? && 0 <= rmem.addr < g.size then blocks == Plugged(Marked(old(blocks), i, false), i) else blocks == old(blocks)
      ensures usedStat == old(usedStat) - if rmem.At? && 0 <= rmem.addr < g.size then g.hdr + Room(g, old(blocks), i) else 0
      ensures LiveSame(g, blocks, old(bytes), bytes)
    {
      hide Tiling, Aligned, Linked, Live, LiveSame, UsedSize, Lowest, Coalesced, CoalescedBut, Merged, Plugged;
      if rmem.NULL? || rmem.addr < 0 || rmem.addr >= g.size {
        SameIsSame(g, blocks, bytes);
        return;
      }
      var mem := rmem.addr - g.hdr;
      ghost var l, b0 := blocks, bytes;
      MarkedTiling(g, l, i, false);
      FreedLowest(g, l, i, lfree);
      Mark(mem, false, i);
      ghost var b1 := bytes;
      if mem < lfree {
        lfree := mem;
      }
      var m := Header(mem, i);
      usedStat := usedStat - (m.next - mem);
      PlugHoles(mem, i);
      PluggedSame(g, Marked(l, i, false), i, b0, b1);
      LiveSameTrans(g, blocks, b0, b1, bytes);
    }

    // -------------------------------------------------------------- mem_malloc

    /** The scan of mem_malloc, from the lowest free block on, for the first block with room for `need` bytes. */
    method FindFit(need: int) returns (ptr: Pointer, ghost i: nat)
      requires Valid() && 0 < need <= g.size
      ensures ptr.NULL? ==> forall k :: 0 <= k < |blocks| ==> !FitsIn(g, blocks, need, k)
      ensures ptr.At? ==> FirstFit(g, blocks, need, i) && ptr.addr == blocks[i].off
    {
      hide Aligned, Linked, Coalesced, UsedSize, Room;
      var p := lfree;
      i := LowestIndex(g, blocks, lfree);
      NoFitBelow(g, blocks, need, i);
      while p < g.size - need
        invariant i <= |blocks| && p == (if i < |blocks| then blocks[i].off else g.size)
        invariant forall k :: 0 <= k < i ==> !FitsIn(g, blocks, need, k)
        decreases |blocks| - i
      {
        var m := Header(p, i);
        if !m.used && m.next - (p + g.hdr) >= need {
          FitMeans(g, blocks, need, i);
          return At(p), i;
        }
        FitMeans(g, blocks, need, i);
        p := m.next;
        i := i + 1;
      }
      NoFitAbove(g, blocks, need, i, p);
      return NULL, i;
    }

    /** Find the next free block from block `i` on. */
    method ScanFree(p: int, ghost i: nat) returns (q: int)
      requires Listed() && i < |blocks| && blocks[i].off == p && forall k :: 0 <= k < i ==> blocks[k].used
      ensures Lowest(g, blocks, q)
    {
      hide Aligned, Linked;
      q := p;
      ghost var j: nat := i;
      while true
        invariant j <= |blocks| && q == (if j < |blocks| then blocks[j].off else g.size)
        invariant forall k :: 0 <= k < j ==> blocks[k].used
        decreases |blocks| - j
      {
        var used := IsUsed(q, j);
        if !used || q == g.size {
          LowestFrom(g, blocks, j);
          return;
        }
        LowestFrom(g, blocks, j);
        var m := Header(q, j);
        q := m.next;
        j := j + 1;
      }
    }

    /** The three header writes that put the free block `i + 1` of `r` behind the used block `i`. */
    method InsertBehind(off: int, prev: int, cut: int, e: int, ghost r: seq<Block>, ghost i: nat)
      requires Tiling(g, r) && i + 1 < |r| && r[i].off == off && r[i + 1].off == cut && End(g, r, i + 1) == e
      requires (e != g.size ==> e in headers && cut + g.hdr <= e && off + g.hdr <= e) && |bytes| == g.size + g.hdr
      modifies this`headers, this`bytes
      ensures headers == Inserted(g, old(headers), off, prev, cut, e) && |bytes| == |old(bytes)|
      ensures LiveSame(g, r, old(bytes), bytes)
    {
      hide Tiling, Live, LiveSame;
      ghost var b0 := bytes;
      Apart(g, r, i, i);
      SizeKept(g, r, i, i + 1);
      BelowSize(g, r, i);
      BelowSize(g, r, i + 1);
      WriteHeader(cut, Mem(e, off, false));
      HeaderSpares(g, r, b0, bytes, cut, i + 1);
      ghost var b1 := bytes;
      WriteHeader(off, Mem(cut, prev, true));
      HeaderSpares(g, r, b1, bytes, off, i);
      LiveSameTrans(g, r, b0, b1, bytes);
      if e != g.size {
        ghost var b2 := bytes;
        WriteHeader(e, headers[e].(prev := cut));
        HeaderSpares(g, r, b2, bytes, e, if i + 2 < |r| then i + 2 else i);
        LiveSameTrans(g, r, b0, b2, bytes);
      }
    }

    /** Give block `i`, which fits, to the caller: split it if the rest can hold a block. */
    method Take(ptr: int, need: int, ghost i: nat)
      requires Valid() && i < |blocks| && blocks[i].off == ptr && FitsIn(g, blocks, need, i)
      requires g.min <= need && need % g.align == 0
      modifies this`headers, this`bytes, this`blocks, this`usedStat
      ensures Listed() && Coalesced(blocks) && usedStat == UsedSize(g, blocks)
      ensures blocks == Given(g, old(blocks), i, need) && i < |blocks|
      ensures need <= Room(g, blocks, i) < need + g.hdr + g.min && usedStat == old(usedStat) + g.hdr + Room(g, blocks, i)
      ensures RestIsFree(g, old(blocks), blocks, i)
      ensures lfree != ptr ==> Lowest(g, blocks, lfree)
      ensures LiveSame(g, blocks, old(bytes), bytes)
    {
      hide Tiling, Aligned, Linked, Live, LiveSame, UsedSize, Lowest, Coalesced, Inserted, Split, Marked, Layout.Ok, RestIsFree;
      var m := Header(ptr, i);
      FitMeans(g, blocks, need, i);
      GivenTight(g, blocks, i, need);
      if m.next - (ptr + g.hdr) >= need + g.hdr + g.min {
        var ptr2 := ptr + g.hdr + need;
        ghost var r := Split(blocks, i, ptr2);
        CutAligned(g, blocks, i, need);
        NextIsUsed(blocks, i);
        SplitTiling(g, blocks, i, ptr2);
        SplitLinked(g, headers, blocks, i, ptr2);
        SplitLowest(g, blocks, i, ptr2, lfree);
        AlignedCut(g, blocks, i, ptr2);
        SplitIndex(g, blocks, i, ptr2, i);
        SplitIndex(g, blocks, i, ptr2, i + 1);
        InsertBehind(ptr, m.prev, ptr2, m.next, r, i);
        usedStat := usedStat + (need + g.hdr);
        blocks := r;
      } else {
        MarkedTiling(g, blocks, i, true);
        TakenLowest(g, blocks, i, lfree);
        Mark(ptr, true, i);
        usedStat := usedStat + (m.next - ptr);
      }
    }

    /**
     * mem_malloc. NULL is returned exactly when no free block has room; otherwise the lowest block
     * with room is given out and no live byte has changed. The block has less than a smallest block more than
     * was asked for; what it does not take stays free.
     */
    method Malloc(size: nat) returns (r: Pointer, ghost i: nat)
      requires Valid() && size < modulus
      modifies this`headers, this`bytes, this`blocks, this`lfree, this`usedStat
      ensures Valid()
      ensures r.NULL? <==> size == 0 || forall k :: 0 <= k < |old(blocks)| ==> !FitsIn(g, old(blocks), Need(g, modulus, size), k)
      ensures r.NULL? ==> unchanged(this)
      ensures r.At? ==>
                && FirstFit(g, old(blocks), Need(g, modulus, size), i)
                && blocks == Given(g, old(blocks), i, Need(g, modulus, size))
                && Owns(r.addr, i) && r.addr % g.align == 0
                && Need(g, modulus, size) <= Room(g, blocks, i) < Need(g, modulus, size) + g.hdr + g.min
                && usedStat == old(usedStat) + g.hdr + Room(g, blocks, i)
                && RestIsFree(g, old(blocks), blocks, i)
      ensures LiveSame(g, blocks, old(bytes), bytes)
    {
      hide Tiling, Aligned, Linked, Live, LiveSame, UsedSize, Lowest, Coalesced, Given, FitsIn, Need, RestIsFree;
      i := 0;
      SameIsSame(g, blocks, bytes);
      if size == 0 {
        return NULL, i;
      }
      NeedCovers(g, modulus, size);
      var need := Need(g, modulus, size);
      if need > g.size {
        TooLarge(g, blocks, need);
        return NULL, i;
      }
      var ptr;
      ptr, i := FindFit(need);
      if ptr.NULL? {
        return NULL, i;
      }
      GivenIndex(g, blocks, i, need);
      Take(ptr.addr, need, i);
      if ptr.addr == lfree {
        AllBeforeUsed(g, old(blocks), lfree, i, need);
        lfree := ScanFree(ptr.addr, i);
      }
      return At(ptr.addr + g.hdr), i;
    }

    // ---------------------------------------------------------------- mem_trim

    /** Shrink block `i` in front of a free block, which simply begins earlier. */
    method ShrinkBefore(ptr: int, need: int, ghost i: nat)
      requires Valid() && i < |blocks| && blocks[i].used && blocks[i].off == ptr
      requires g.min <= need < Room(g, blocks, i) && need % g.align == 0
      requires i + 1 < |blocks| && !blocks[i + 1].used
      modifies this`headers, this`bytes, this`blocks, this`lfree, this`usedStat
      ensures Valid() && blocks == Moved(old(blocks), i, ptr + g.hdr + need)
      ensures usedStat == old(usedStat) - (Room(g, old(blocks), i) - need)
      ensures LiveSame(g, blocks, old(bytes), bytes)
    {
      hide Tiling, Aligned, Linked, Live, LiveSame, UsedSize, Lowest, Coalesced, Inserted, Split, Moved, Layout.Ok;
      var m := Header(ptr, i);
      var n := Header(m.next, i + 1);
      var size, ptr2 := m.next - ptr - g.hdr, ptr + g.hdr + need;
      ghost var r := Moved(blocks, i, ptr2);
      CutAligned(g, blocks, i, need);
      AlignedCut(g, blocks, i, ptr2);
      MovedIndex(g, blocks, i, ptr2);
      MovedTiling(g, blocks, i, ptr2);
      MovedLinked(g, headers, blocks, i, ptr2);
      MovedLowest(g, blocks, i, ptr2, lfree);
      if lfree == m.next {
        lfree := ptr2;
      }
      InsertBehind(ptr, m.prev, ptr2, n.next, r, i);
      usedStat := usedStat - (size - need);
      blocks := r;
    }

    /** Shrink block `i` in front of a used one: the rest becomes a block. */
    method ShrinkSplit(ptr: int, need: int, ghost i: nat)
      requires Valid() && i < |blocks| && blocks[i].used && blocks[i].off == ptr
      requires g.min <= need < Room(g, blocks, i) && need % g.align == 0
      requires (i + 1 < |blocks| ==> blocks[i + 1].used) && need + g.hdr + g.min <= Room(g, blocks, i)
      modifies this`headers, this`bytes, this`blocks, this`lfree, this`usedStat
      ensures Valid() && blocks == Split(old(blocks), i, ptr + g.hdr + need)
      ensures usedStat == old(usedStat) - (Room(g, old(blocks), i) - need)
      ensures LiveSame(g, blocks, old(bytes), bytes)
    {
      hide Tiling, Aligned, Linked, Live, LiveSame, UsedSize, Lowest, Coalesced, Inserted, Split, Moved, Layout.Ok;
      var m := Header(ptr, i);
      var size, ptr2 := m.next - ptr - g.hdr, ptr + g.hdr + need;
      ghost var r := Split(blocks, i, ptr2);
      CutAligned(g, blocks, i, need);
      AlignedCut(g, blocks, i, ptr2);
      SplitTiling(g, blocks, i, ptr2);
      SplitLinked(g, headers, blocks, i, ptr2);
      SplitLowest(g, blocks, i, ptr2, lfree);
      SplitIndex(g, blocks, i, ptr2, i);
      SplitIndex(g, blocks, i, ptr2, i + 1);
      if ptr2 < lfree {
        lfree := ptr2;
      }
      InsertBehind(ptr, m.prev, ptr2, m.next, r, i);
      usedStat := usedStat - (size - need);
      blocks := r;
    }

    /** Shrink block `i` to `need` bytes; the rest joins the free block behind it or becomes one, if large enough. */
    method Shrink(ptr: int, need: int, ghost i: nat)
      requires Valid() && i < |blocks| && blocks[i].used && blocks[i].off == ptr
      requires g.min <= need < Room(g, blocks, i) && need % g.align == 0
      modifies this`headers, this`bytes, this`blocks, this`lfree, this`usedStat
      ensures Valid() && blocks == Trimmed(g, old(blocks), i, need) && i < |blocks|
      ensures usedStat == old(usedStat) - (Room(g, old(blocks), i) - Room(g, blocks, i))
      ensures LiveSame(g, blocks, old(bytes), bytes)
    {
      hide Tiling, Aligned, Linked, Live, LiveSame, UsedSize, Lowest, Coalesced, Inserted, Split, Moved, Layout.Ok;
      var m := Header(ptr, i);
      SameIsSame(g, blocks, bytes);
      TrimmedTight(g, blocks, i, need);
      var nextUsed := IsUsed(m.next, i + 1);
      if !nextUsed {
        ShrinkBefore(ptr, need, i);
      } else if need + g.hdr + g.min <= m.next - ptr - g.hdr {
        ShrinkSplit(ptr, need, i);
      }
    }

    /** mem_trim: the kept part of the block and everything else that is live stays as it was. */
    method Trim(rmem: int, newsize: nat, ghost i: nat) returns (r: Pointer)
      requires Valid() && newsize < modulus && (0 <= rmem < g.size ==> Owns(rmem, i))
      modifies this`headers, this`bytes, this`blocks, this`lfree, this`usedStat
      ensures Valid()
      ensures r.NULL? <==> Need(g, modulus, newsize) > (if 0 <= rmem < g.size then Room(g, old(blocks), i) else g.size)
      ensures r.At? ==> r.addr == rmem
      ensures if r.At? && 0 <= rmem < g.size then blocks == Trimmed(g, old(blocks), i, Need(g, modulus, newsize)) else unchanged(this)
      ensures r.At? && 0 <= rmem < g.size ==>
                var need, room := Need(g, modulus, newsize), Room(g, old(blocks), i);
                && Owns(rmem, i) && usedStat == old(usedStat) - (room - Room(g, blocks, i))
                && Room(g, blocks, i) == if (i + 1 == |old(blocks)| || old(blocks)[i + 1].used) && room < need + g.hdr + g.min
                                         then room else need
      ensures LiveSame(g, blocks, old(bytes), bytes)
    {
      hide Tiling, Aligned, Linked, Live, LiveSame, UsedSize, Lowest, Coalesced, Trimmed, Need;
      SameIsSame(g, blocks, bytes);
      NeedCovers(g, modulus, newsize);
      var need := Need(g, modulus, newsize);
      if 0 <= rmem < g.size {
        BelowSize(g, blocks, i);
        TrimmedSame(g, blocks, i, need);
        if need <= Room(g, blocks, i) {
          TrimmedTight(g, blocks, i, need);
        }
      }
      if need > g.size {
        return NULL;
      }
      if rmem < 0 || rmem >= g.size {
        return At(rmem);
      }
      var ptr := rmem - g.hdr;
      var m := Header(ptr, i);
      var size := m.next - ptr - g.hdr;
      if need > size {
        return NULL;
      }
      if need == size {
        return At(rmem);
      }
      Shrink(ptr, need, i);
      return At(rmem);
    }
  }

  /** The blocks after block `i` was trimmed to `need` bytes. */
  function Trimmed(g: Layout, l: seq<Block>, i: nat, need: int): seq<Block>
    requires i < |l|
  {
    var cut := l[i].off + g.hdr + need;
    if need == Room(g, l, i) then l
    else if i + 1 < |l| && !l[i + 1].used then Moved(l, i, cut)
    else if need + g.hdr + g.min <= Room(g, l, i) then Split(l, i, cut)
    else l
  }

  /**
   * Trimming leaves exactly what is needed, unless the block behind is used and the rest too small for
   * a block; what is cut off is free, in one block with a free one behind.
   */
  lemma TrimmedTight(g: Layout, l: seq<Block>, i: nat, need: int)
    requires i < |l| && l[i].used && g.Ok() && g.min <= need <= Room(g, l, i)
    ensures var r := Trimmed(g, l, i, need);
            && i < |r| && r[i] == l[i] && Room(g, r, i) <= Room(g, l, i)
            && Room(g, r, i) == (if (i + 1 == |l| || l[i + 1].used) && Room(g, l, i) < need + g.hdr + g.min then Room(g, l, i) else need)
            && (Room(g, r, i) < Room(g, l, i) ==>
                  && i + 1 < |r| && !r[i + 1].used
                  && End(g, r, i + 1) == if i + 1 < |l| && !l[i + 1].used then End(g, l, i + 1) else End(g, l, i))
  {
    var cut := l[i].off + g.hdr + need;
    if need < Room(g, l, i) && !(i + 1 < |l| && !l[i + 1].used) && need + g.hdr + g.min <= Room(g, l, i) {
      SplitIndex(g, l, i, cut, i);
      SplitIndex(g, l, i, cut, i + 1);
    }
  }

  lemma MovedIndex(g: Layout, l: seq<Block>, i: nat, cut: int)
    requires i + 1 < |l|
    ensures var r := Moved(l, i, cut);
            && |r| == |l| && r[i] == l[i] && r[i + 1] == Block(cut, false) && End(g, r, i) == cut && End(g, r, i + 1) == End(g, l, i + 1)
  {
  }

  lemma TrimmedSame(g: Layout, l: seq<Block>, i: nat, need: int)
    requires i < |l|
    ensures need == Room(g, l, i) ==> Trimmed(g, l, i, need) == l
  {
  }

  /** Trimming keeps the first `need` bytes of the block alive, and everything alive outside it. */
  lemma TrimmedLive(g: Layout, l: seq<Block>, i: nat, need: int, a: int)
    requires Tiling(g, l) && i < |l| && l[i].used && g.min <= need <= Room(g, l, i)
    ensures Live(g, Trimmed(g, l, i, need), a) ==> Live(g, l, a)
    ensures Live(g, l, a) && !(l[i].off + g.hdr + need <= a < End(g, l, i)) ==> Live(g, Trimmed(g, l, i, need), a)
  {
    var cut := l[i].off + g.hdr + need;
    if l[i].off + g.hdr <= a < End(g, l, i) {
      assert Live(g, l, a);
    }
    if need == Room(g, l, i) {
    } else if i + 1 < |l| && !l[i + 1].used {
      MovedLive(g, l, i, cut, a);
    } else if need + g.hdr + g.min <= Room(g, l, i) {
      SplitLive(g, l, i, cut, a);
    }
  }

  /** The blocks after block `i` was given out for `need` bytes. */
  function Given(g: Layout, l: seq<Block>, i: nat, need: int): seq<Block>
    requires i < |l|
  {
    if Room(g, l, i) >= need + g.hdr + g.min then Split(l, i, l[i].off + g.hdr + need) else Marked(l, i, true)
  }

  /** Block `i` of `r` is block `i` of `l` or the beginning of it, with one free block behind it up to the same end. */
  ghost predicate RestIsFree(g: Layout, l: seq<Block>, r: seq<Block>, i: nat) {
    && i < |l| && i < |r| && r[i].off == l[i].off
    && (End(g, r, i) == End(g, l, i)
        || (End(g, r, i) < End(g, l, i) && i + 1 < |r| && !r[i + 1].used && End(g, r, i + 1) == End(g, l, i)))
  }

  /** What is given out is less than a smallest block larger than needed, and the rest is free. */
  lemma GivenTight(g: Layout, l: seq<Block>, i: nat, need: int)
    requires i < |l| && FitsIn(g, l, need, i) && g.Ok()
    ensures var r := Given(g, l, i, need);
            && RestIsFree(g, l, r, i) && need <= Room(g, r, i) < need + g.hdr + g.min
            && (End(g, r, i) < End(g, l, i) ==> Room(g, r, i) == need)
  {
    if Room(g, l, i) >= need + g.hdr + g.min {
      SplitIndex(g, l, i, l[i].off + g.hdr + need, i);
      SplitIndex(g, l, i, l[i].off + g.hdr + need, i + 1);
    }
  }

  lemma GivenIndex(g: Layout, l: seq<Block>, i: nat, need: int)
    requires Aligned(g, l) && i < |l|
    ensures var r := Given(g, l, i, need);
            i < |r| && r[i] == Block(l[i].off, true) && (forall k :: 0 <= k < i ==> r[k] == l[k])
    ensures (l[i].off + g.hdr) % g.align == 0
  {
    ModAdd(l[i].off, g.hdr, g.align);
  }

  /** A block given out has at least `need` bytes, none of which was live; everything live stays live. */
  lemma GivenLive(g: Layout, l: seq<Block>, i: nat, need: int, a: int)
    requires Tiling(g, l) && i < |l| && g.min <= need && FitsIn(g, l, need, i)
    ensures var r := Given(g, l, i, need);
            && i < |r| && need <= Room(g, r, i)
            && (Live(g, r, a) <==> Live(g, l, a) || l[i].off + g.hdr <= a < End(g, r, i))
            && !(Live(g, l, a) && l[i].off + g.hdr <= a < End(g, r, i))
  {
    var r := Given(g, l, i, need);
    if Room(g, l, i) >= need + g.hdr + g.min {
      SplitLive(g, l, i, l[i].off + g.hdr + need, a);
      SplitIndex(g, l, i, l[i].off + g.hdr + need, i);
    } else {
      MarkedLive(g, l, i, true, a);
      MarkedTiling(g, l, i, true);
    }
    if Live(g, l, a) && l[i].off + g.hdr <= a < End(g, l, i) {
      var k :| 0 <= k < |l| && l[k].used && l[k].off + g.hdr <= a < End(g, l, k);
      LiveDisjoint(g, l, i, k, a);
    }
  }

  /** Freeing what was just allocated restores the list of blocks. */
  lemma MallocThenFree(g: Layout, l: seq<Block>, i: nat, need: int)
    requires Tiling(g, l) && Coalesced(l) && i < |l| && FitsIn(g, l, need, i)
    ensures var r := Given(g, l, i, need);
            i < |r| && Plugged(Marked(r, i, false), i) == l
  {
    var r := Given(g, l, i, need);
    var m := Marked(r, i, false);
    if Room(g, l, i) >= need + g.hdr + g.min {
      SplitIndex(g, l, i, l[i].off + g.hdr + need, i + 1);
      assert m[i + 1..] == [Block(l[i].off + g.hdr + need, false)] + l[i + 1..];
      assert m[..i + 1] == l[..i + 1];
      assert Merged(m, i) == l[..i + 1] + l[i + 1..] == l;
    } else {
      assert m == l;
    }
    assert i > 0 ==> l[i - 1].used;
  }

  /** With 16-bit sizes the largest request is rounded to zero and gets the smallest block. */
  lemma LargestRequest()
    ensures Need(Layout(1600, 8, 12, 4), 0x1_0000, 0xFFFF) == 12
  {
    NeedCovers(Layout(1600, 8, 12, 4), 0x1_0000, 0xFFFF);
  }

  lemma CutAligned(g: Layout, l: seq<Block>, i: nat, need: int)
    requires Aligned(g, l) && i < |l| && need % g.align == 0
    ensures (l[i].off + g.hdr + need) % g.align == 0
  {
    ModAdd(l[i].off, g.hdr, g.align);
    ModAdd(l[i].off + g.hdr, need, g.align);
  }

  lemma NextIsUsed(l: seq<Block>, i: nat)
    requires Coalesced(l) && i < |l| && !l[i].used
    ensures i + 1 < |l| ==> l[i + 1].used
  {
  }

  lemma TooLarge(g: Layout, l: seq<Block>, need: int)
    requires Tiling(g, l) && g.size < need
    ensures forall k :: 0 <= k < |l| ==> !FitsIn(g, l, need, k)
  {
    forall k | 0 <= k < |l|
      ensures !FitsIn(g, l, need, k)
    {
      BelowSize(g, l, k);
    }
  }

  /** If the lowest free block was given out, all blocks before it are used. */
  lemma AllBeforeUsed(g: Layout, l: seq<Block>, p: int, i: nat, need: int)
    requires Tiling(g, l) && Lowest(g, l, p) && i < |l| && l[i].off == p
    ensures forall k :: 0 <= k < i ==> l[k].used
  {
    forall k | 0 <= k < i
      ensures l[k].used
    {
      Increasing(g, l, k, i);
    }
  }

  /** Block `k` is free and has room for `need` bytes. */
  ghost predicate FitsIn(g: Layout, l: seq<Block>, need: int, k: nat)
    requires k < |l|
  {
    !l[k].used && need <= Room(g, l, k)
  }

  /** Block `i` is the lowest one that fits. */
  ghost predicate FirstFit(g: Layout, l: seq<Block>, need: int, i: nat) {
    i < |l| && FitsIn(g, l, need, i) && forall k :: 0 <= k < i ==> !FitsIn(g, l, need, k)
  }

  lemma FitMeans(g: Layout, l: seq<Block>, need: int, k: nat)
    requires k < |l|
    ensures FitsIn(g, l, need, k) <==> !l[k].used && End(g, l, k) - (l[k].off + g.hdr) >= need
  {
  }

  /** The number of the lowest free block: all before it are used. */
  lemma LowestIndex(g: Layout, l: seq<Block>, p: int) returns (i: nat)
    requires Tiling(g, l) && Lowest(g, l, p)
    ensures i <= |l| && p == (if i < |l| then l[i].off else g.size)
    ensures forall k :: 0 <= k < i ==> l[k].used
  {
    if p == g.size {
      i := |l|;
      forall k | 0 <= k < |l|
        ensures l[k].used
      {
        BelowSize(g, l, k);
      }
    } else {
      i :| 0 <= i < |l| && !l[i].used && l[i].off == p;
      forall k | 0 <= k < i
        ensures l[k].used
      {
        Increasing(g, l, k, i);
      }
    }
  }

  lemma LowestFrom(g: Layout, l: seq<Block>, j: nat)
    requires Tiling(g, l) && j <= |l| && forall k :: 0 <= k < j ==> l[k].used
    ensures j < |l| ==> l[j].off < g.size
    ensures j < |l| && !l[j].used ==> Lowest(g, l, l[j].off)
    ensures j == |l| ==> Lowest(g, l, g.size)
  {
    if j < |l| {
      BelowSize(g, l, j);
      forall k | j < k < |l|
        ensures l[j].off < l[k].off
      {
        Increasing(g, l, j, k);
      }
    }
  }

  lemma NoFitBelow(g: Layout, l: seq<Block>, need: int, i: nat)
    requires i <= |l| && forall k :: 0 <= k < i ==> l[k].used
    ensures forall k :: 0 <= k < i ==> !FitsIn(g, l, need, k)
  {
  }

  /** Stopping early is safe: no block that begins so late has room. */
  lemma NoFitAbove(g: Layout, l: seq<Block>, need: int, i: nat, p: int)
    requires Tiling(g, l) && i <= |l| && p == (if i < |l| then l[i].off else g.size) && g.size - need <= p
    requires forall k :: 0 <= k < i ==> !FitsIn(g, l, need, k)
    ensures forall k :: 0 <= k < |l| ==> !FitsIn(g, l, need, k)
  {
    forall k | i <= k < |l|
      ensures !FitsIn(g, l, need, k)
    {
      BelowSize(g, l, k);
      if i < k {
        Increasing(g, l, i, k);
      }
    }
  }

  /** Joining free blocks around block `i` changes no live byte. */
  lemma PluggedLive(g: Layout, l: seq<Block>, i: nat, a: int)
    requires Tiling(g, l) && i < |l| && !l[i].used
    ensures Live(g, Plugged(l, i), a) <==> Live(g, l, a)
  {
    var f := if i + 1 < |l| && !l[i + 1].used then Merged(l, i) else l;
    PlugForwardLength(l, i);
    if f != l {
      MergedTiling(g, l, i);
      MergedLive(g, l, i, a);
    }
    if i > 0 && !f[i - 1].used {
      MergedLive(g, f, i - 1, a);
    }
  }

  lemma PluggedSame(g: Layout, l: seq<Block>, i: nat, b: seq<byte>, b': seq<byte>)
    requires Tiling(g, l) && i < |l| && !l[i].used && LiveSame(g, l, b, b')
    ensures LiveSame(g, Plugged(l, i), b, b')
  {
    forall a | 0 <= a < |b| && Live(g, Plugged(l, i), a)
      ensures b'[a] == b[a]
    {
      PluggedLive(g, l, i, a);
    }
  }

  /** Freeing block `i` ends the life of its data area and of nothing else. */
  lemma FreedLive(g: Layout, l: seq<Block>, i: nat, a: int)
    requires Tiling(g, l) && i < |l| && l[i].used
    ensures Live(g, Plugged(Marked(l, i, false), i), a) <==> Live(g, l, a) && !(l[i].off + g.hdr <= a < End(g, l, i))
  {
    MarkedTiling(g, l, i, false);
    MarkedLive(g, l, i, false, a);
    PluggedLive(g, Marked(l, i, false), i, a);
  }

  /** The blocks after plug_holes. */
  function Plugged(l: seq<Block>, i: nat): seq<Block>
    requires i < |l|
  {
    var f := if i + 1 < |l| && !l[i + 1].used then Merged(l, i) else l;
    if i > 0 && !f[i - 1].used then Merged(f, i - 1) else f
  }

  lemma SameIsSame(g: Layout, l: seq<Block>, b: seq<byte>)
    ensures LiveSame(g, l, b, b)
  {
  }

  lemma MergedSame(g: Layout, l: seq<Block>, i: nat, b: seq<byte>, b': seq<byte>)
    requires Tiling(g, l) && i + 1 < |l| && !l[i].used && !l[i + 1].used && LiveSame(g, l, b, b')
    ensures LiveSame(g, Merged(l, i), b, b')
  {
    forall a | 0 <= a < |b| && Live(g, Merged(l, i), a)
      ensures b'[a] == b[a]
    {
      MergedLive(g, l, i, a);
    }
  }

  lemma PlugForwardLength(l: seq<Block>, i: nat)
    ensures i + 1 < |l| ==> |Merged(l, i)| == |l| - 1 && Merged(l, i)[i] == l[i] && (i > 0 ==> Merged(l, i)[i - 1] == l[i - 1])
  {
  }

  lemma NextHeader(g: Layout, h: map<int, Mem>, off: int, e: int)
    requires off in h && e in h && 0 < g.hdr && off + g.hdr <= e
    ensures var h1 := Put(g, h, off, h[off].(next := e));
            e in h1 && Joined(g, h, off, e) == Put(g, h1, e, h1[e].(prev := off))
  {
  }
}
