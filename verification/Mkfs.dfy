/** The program that builds the first image (tools/mkfs.c). Blocks are handed out in order
    from `freeblock`; the bitmap is written last. */
module Mkfs {
  import opened Disk
  import opened BlockMap
  import opened FileSystem
  import RedoLog

  const FSSIZE := 4000
  const NINODES := 200
  const NLOG := RedoLog.LOGSIZE
  const NINODEBLOCKS := NINODES / IPB + 1
  const NBITMAP := FSSIZE / BPB + 1
  const NMETA := 2 + NLOG + NINODEBLOCKS + NBITMAP

  const EMPTY := Inode(0, 0, seq(NDIRECT + 1, _ => 0))

  /** Blocks are in use exactly below `used`. */
  ghost predicate InOrder(owner: seq<Owner>, used: nat) {
    used <= |owner| && (forall b: nat | b < |owner| :: owner[b] == Free <==> used <= b) && NoneHeld(owner)
  }

  /** Blocks that a packed file of `size` bytes takes, its indirect block among them. */
  function BlocksOf(size: nat): (n: nat) {
    (size + BSIZE - 1) / BSIZE + if size > NDIRECT * BSIZE then 1 else 0
  }

  /** The file has the blocks its size calls for and no others. */
  ghost predicate Packed(ip: Inode, data: Blocks)
    requires ip.Ok()
  {
    Tight(ip, data) && (ip.addrs[INDIRECT] != 0 <==> ip.size > NDIRECT * BSIZE)
  }

  /** How many blocks must be taken before block `fbn` has one. */
  function Needed(ip: Inode, data: Blocks, fbn: nat): (n: nat)
    requires ip.Ok() && fbn < MAXFILE
  {
    (if Slot(ip, data, DataSlot(fbn)) == 0 then 1 else 0) + if fbn >= NDIRECT && ip.addrs[INDIRECT] == 0 then 1 else 0
  }

  ghost predicate ZeroFrom(data: Blocks, used: nat) {
    forall b: nat | used <= b < |data| :: data[b] == ZERO_BLOCK
  }

  class Image {
    var data: Blocks
    var dinodes: seq<Inode>
    var freeblock: nat
    var freeinode: nat
    ghost var owner: seq<Owner>

    ghost predicate Valid()
      reads this
    {
      && |data| == FSSIZE && |dinodes| == NINODES
      && Owned(dinodes, data, owner, NMETA)
      && InOrder(owner, freeblock)
      && ZeroFrom(data, freeblock)
      && (forall i | 0 <= i < NINODES :: Packed(dinodes[i], data))
      && (forall i | freeinode <= i < NINODES :: dinodes[i] == EMPTY)
    }

    constructor ()
      ensures Valid() && freeblock == NMETA && freeinode == 1
      ensures forall i | 0 <= i < NINODES :: dinodes[i] == EMPTY
    {
      data := seq(FSSIZE, _ => ZERO_BLOCK);
      dinodes := seq(NINODES, _ => EMPTY);
      owner := seq(FSSIZE, b => if b < NMETA then Meta else Free);
      freeblock, freeinode := NMETA, 1;
    }

    /** The caller creates no more than NINODES - 1 inodes. */
    method Ialloc(typ: nat) returns (inum: nat)
      requires Valid() && freeinode < NINODES
      modifies this`dinodes, this`freeinode
      ensures Valid() && inum == old(freeinode) && freeinode == inum + 1
      ensures dinodes == old(dinodes)[inum := EMPTY.(typ := typ)]
    {
      hide GetWord;
      inum := freeinode;
      freeinode := freeinode + 1;
      RetypeOwned(dinodes, data, owner, inum, typ);
      dinodes := dinodes[inum := EMPTY.(typ := typ)];
    }

    /** Map block `fbn` of `din`, the working copy of inode `inum`. */
    method MapBlock(inum: nat, din: Inode, fbn: nat) returns (ok: bool, din': Inode, x: Word)
      requires inum < |dinodes| && din.Ok() && fbn < MAXFILE && |data| == FSSIZE
      requires Owned(dinodes[inum := din], data, owner, NMETA) && InOrder(owner, freeblock) && ZeroFrom(data, freeblock)
      modifies this`data, this`freeblock, this`owner
      ensures din'.Ok() && din' == din.(addrs := din'.addrs) && |data| == FSSIZE
      ensures ok <==> old(freeblock) + Needed(din, old(data), fbn) <= FSSIZE
      ensures ok ==>
        && freeblock == old(freeblock) + Needed(din, old(data), fbn)
        && Confined(din, old(data), din', data, fbn, fbn + 1)
        && (din'.addrs[INDIRECT] == din.addrs[INDIRECT] || fbn >= NDIRECT)
        && Owned(dinodes[inum := din'], data, owner, NMETA) && InOrder(owner, freeblock) && ZeroFrom(data, freeblock)
        && Mapped(dinodes[inum := din], old(data), dinodes[inum := din'], data, inum)
        && Slot(din', data, DataSlot(fbn)) == x && 0 < x < |data| && din'.addrs[AddrIndex(fbn)] != 0
        && (din.addrs[AddrIndex(fbn)] != 0 ==> din' == din)
    {
      hide GetWord, Owned, InOrder, ZeroFrom, Mapped, SlotSet, SameFiles, Inodes, Confined;
      din', x, ok := din, 0, true;
      ConfinedSelf(din, data, fbn, fbn + 1);
      UsedBound(owner, freeblock);
      ghost var cur := dinodes[inum := din];
      SlotsOf(cur, data, owner, NMETA, inum, fbn);
      MappedSelf(cur, data, inum);
      if fbn < NDIRECT {
        if din.addrs[fbn] == 0 {
          ok, din' := TakeAddr(inum, din, fbn);
          if ok {
            SlotConfined(din, data, din', data, fbn, fbn);
          }
        }
        x := din'.addrs[fbn];
      } else {
        if din.addrs[INDIRECT] == 0 {
          ok, din' := TakeAddr(inum, din, INDIRECT);
          if !ok {
            return;
          }
          SlotConfined(din, data, din', data, INDIRECT, fbn);
        }
        ghost var mid, cur1 := data, dinodes[inum := din'];
        SlotsOf(cur1, data, owner, NMETA, inum, fbn);
        var ind := din'.addrs[INDIRECT];
        x := GetWord(data[ind], fbn - NDIRECT);
        if x == 0 {
          if freeblock >= FSSIZE {
            return false, din', x;
          }
          x := freeblock;
          FreeblockFree(cur1, data, owner, freeblock);
          LinkIndirect(cur1, data, owner, NMETA, inum, fbn - NDIRECT, x);
          ZeroAlready(data, x);
          SlotMapped(cur1, data, cur1, data[ind := PutWord(data[ind], fbn - NDIRECT, x)], inum, DataSlot(fbn), x);
          SlotConfined(din', data, din', data[ind := PutWord(data[ind], fbn - NDIRECT, x)], DataSlot(fbn), fbn);
          Advance(cur1, data, owner, freeblock, inum, DataSlot(fbn), ind, PutWord(data[ind], fbn - NDIRECT, x));
          data := data[ind := PutWord(data[ind], fbn - NDIRECT, x)];
          owner := owner[x := Of(inum, DataSlot(fbn))];
          freeblock := freeblock + 1;
          MappedThen(cur, old(data), cur1, mid, cur1, data, inum);
          ConfinedThen(din, old(data), din', mid, din', data, fbn, fbn + 1, fbn, fbn + 1);
        }
      }
    }

    /** Point an empty address of `din` at the next free block. */
    method TakeAddr(inum: nat, din: Inode, k: nat) returns (ok: bool, din': Inode)
      requires inum < |dinodes| && din.Ok() && k <= INDIRECT && din.addrs[k] == 0 && |data| == FSSIZE
      requires Owned(dinodes[inum := din], data, owner, NMETA) && InOrder(owner, freeblock) && ZeroFrom(data, freeblock)
      modifies this`freeblock, this`owner
      ensures din'.Ok() && (ok <==> old(freeblock) < FSSIZE)
      ensures din' == if ok then din.(addrs := din.addrs[k := old(freeblock)]) else din
      ensures freeblock == old(freeblock) + if ok then 1 else 0
      ensures ok ==>
        && Owned(dinodes[inum := din'], data, owner, NMETA) && InOrder(owner, freeblock) && ZeroFrom(data, freeblock)
        && Mapped(dinodes[inum := din], data, dinodes[inum := din'], data, inum)
        && 0 < din'.addrs[k] < |data|
        && forall l | 0 <= l < SLOTS && l != k :: Slot(din', data, l) == Slot(din, data, l)
    {
      hide GetWord, Owned, InOrder, ZeroFrom, Mapped, SlotSet, SameFiles, Inodes;
      din', ok := din, false;
      if freeblock < FSSIZE {
        ghost var cur := dinodes[inum := din];
        FreeblockFree(cur, data, owner, freeblock);
        LinkAddr(cur, data, owner, NMETA, inum, k, freeblock);
        ZeroAlready(data, freeblock);
        din' := din.(addrs := din.addrs[k := freeblock]);
        assert cur[inum := din'] == dinodes[inum := din'];
        SlotMapped(cur, data, dinodes[inum := din'], data, inum, k, freeblock);
        Advance(cur, data, owner, freeblock, inum, k, freeblock, data[freeblock]);
        assert data[freeblock := data[freeblock]] == data;
        owner := owner[freeblock := Of(inum, k)];
        freeblock := freeblock + 1;
        ok := true;
      }
    }

    /** Append `p` to an inode. False stands for an aborted mkfs: the assertion on MAXFILE,
        or rsect's exit on a block past the end of the image. */
    method Iappend(inum: nat, p: seq<Byte>) returns (ok: bool)
      requires Valid() && inum < freeinode <= NINODES
      modifies this`data, this`dinodes, this`freeblock, this`owner
      ensures var size := old(dinodes)[inum].size;
        ok <==> size + |p| <= MAXFILE * BSIZE && old(freeblock) + BlocksOf(size + |p|) - BlocksOf(size) <= FSSIZE
      ensures ok ==>
        && Valid() && dinodes == old(dinodes)[inum := dinodes[inum]]
        && dinodes[inum].size == old(dinodes)[inum].size + |p|
        && freeblock == old(freeblock) + BlocksOf(dinodes[inum].size) - BlocksOf(old(dinodes)[inum].size)
        && Overlaid(old(dinodes), old(data), dinodes, data, inum, old(dinodes)[inum].size, p, |p|)
    {
      hide Slot, Owned, Written, Inodes, InOrder, ZeroFrom, Tight, BlocksOf;
      ghost var cur, was := dinodes, data;
      OwnerLength(cur, was, owner, NMETA);
      var din := dinodes[inum];
      assert dinodes[inum := din] == dinodes;
      var off := din.size;
      WrittenStart(cur, was, {}, inum, off, p);
      SizeBound(din, data);
      var n: nat := |p|;
      var tot: nat := 0;
      while tot < n
        invariant tot <= n && Boundary(off, tot, n) && Appending(inum, din, cur, was, p, tot)
        invariant freeblock == old(freeblock) + BlocksOf(off + tot) - BlocksOf(off)
      {
        if (off + tot) / BSIZE >= MAXFILE {
          PastEnd(off, tot);
          return false;
        }
        var m;
        ok, din, m := AppendChunk(inum, din, off, p, tot, cur, was);
        MoreBlocks(off + tot + m, off + n);
        if !ok {
          return;
        }
        tot := tot + m;
      }
      UsedBound(owner, freeblock);
      OwnerLength(dinodes[inum := din], data, owner, NMETA);
      Winode(inum, din, off, p, cur, was);
      ok := true;
    }

    /** The first `tot` bytes of `p` are in the blocks of the working copy `din`. */
    ghost predicate Appending(inum: nat, din: Inode, cur: seq<Inode>, was: Blocks, p: seq<Byte>, tot: nat)
      reads this
    {
      && dinodes == cur && inum < |cur| && |data| == FSSIZE && din.Ok() && din == cur[inum].(addrs := din.addrs)
      && Owned(cur[inum := din], data, owner, NMETA) && InOrder(owner, freeblock) && ZeroFrom(data, freeblock)
      && Written(cur, was, cur[inum := din], data, inum, din.size, p, tot)
      && din.size + tot <= MAXFILE * BSIZE
      && (din.addrs[INDIRECT] != 0 <==> din.size + tot > NDIRECT * BSIZE)
    }

    /** One turn of the loop. */
    method AppendChunk(inum: nat, din: Inode, off: Word, p: seq<Byte>, tot: nat, ghost cur: seq<Inode>,
                       ghost was: Blocks)
      returns (ok: bool, din': Inode, m: nat)
      requires Appending(inum, din, cur, was, p, tot) && off == din.size && cur[inum].Ok() && Packed(cur[inum], was)
      requires tot < |p| && Boundary(off, tot, |p|) && (off + tot) / BSIZE < MAXFILE
      modifies this`data, this`freeblock, this`owner
      ensures 0 < m <= |p| - tot && Boundary(off, tot + m, |p|) && din'.size == off
      ensures ok <==> old(freeblock) + BlocksOf(off + tot + m) - BlocksOf(off + tot) <= FSSIZE
      ensures ok ==>
        && Appending(inum, din', cur, was, p, tot + m)
        && freeblock == old(freeblock) + BlocksOf(off + tot + m) - BlocksOf(off + tot)
    {
      hide Slot, FileBlock, Owned, Written, Kept, Inodes, ChunkWritten, InOrder, ZeroFrom, Mapped, Tight, Indirect,
           Needed, BlocksOf, Confined;
      var fbn, n := (off + tot) / BSIZE, |p|;
      m := if n - tot < BSIZE - (off + tot) % BSIZE then n - tot else BSIZE - (off + tot) % BSIZE;
      ReadStep(off, tot, n, m);
      InOneChunk(off, tot, n, m);
      ghost var cur1, data1 := cur[inum := din], data;
      NeededNext(cur, was, cur1, data, inum, off, p, tot, m);
      var x;
      ok, din', x := MapBlock(inum, din, fbn);
      if ok {
        ghost var maps: set<nat>, cur2 := {}, cur[inum := din'];
        PatchChunk(cur1, data1, {}, cur2, data, {}, owner, NMETA, inum, fbn, (off + tot) % BSIZE, p, tot, m, x, maps);
        ZeroKept(cur2, data, owner, freeblock, x, Patched(data[x], (off + tot) % BSIZE, p, tot, m), inum,
                 DataSlot(fbn));
        data := data[x := Patched(data[x], (off + tot) % BSIZE, p, tot, m)];
        WrittenStep(cur, was, cur1, data1, {}, cur2, data, {} + {x}, inum, off, p, tot, m, x, maps);
      }
    }

    /** Store the working copy with its new size. */
    method Winode(inum: nat, din: Inode, off: Word, p: seq<Byte>, ghost cur: seq<Inode>, ghost was: Blocks)
      requires dinodes == cur && inum < freeinode <= NINODES == |dinodes| && |data| == FSSIZE
      requires din.Ok() && din == cur[inum].(addrs := din.addrs) && off == cur[inum].size
      requires Owned(cur[inum := din], data, owner, NMETA) && InOrder(owner, freeblock) && ZeroFrom(data, freeblock)
      requires Written(cur, was, cur[inum := din], data, inum, off, p, |p|)
      requires off + |p| <= MAXFILE * BSIZE && (din.addrs[INDIRECT] != 0 <==> off + |p| > NDIRECT * BSIZE)
      requires forall i | 0 <= i < NINODES :: cur[i].Ok() && Packed(cur[i], was)
      requires forall i | freeinode <= i < NINODES :: cur[i] == EMPTY
      modifies this`dinodes
      ensures Valid() && dinodes == cur[inum := din.(size := off + |p|)]
      ensures Overlaid(cur, was, dinodes, data, inum, off, p, |p|)
    {
      hide Slot, FileBlock, Owned, InOrder, ZeroFrom, Overlaid, Reached, Confined, Grown, Tight, Addressed, Extended;
      var din' := din.(size := off + |p|);
      ResizeOwned(cur[inum := din], data, owner, NMETA, inum, off + |p|);
      assert cur[inum := din][inum := din'] == cur[inum := din'];
      dinodes := dinodes[inum := din'];
      Regrown(cur, was, cur[inum := din], dinodes, data, inum, off, p);
      Resized(din, din', cur[inum], was, data, off, |p|);
      WrittenExtended(cur[inum], was, din', data, off, |p|);
      TightAfter(cur[inum], was, din', data, off, |p|);
      OthersPacked(cur, was, dinodes, data, inum);
    }

    /** mkfs's balloc: mark the first `freeblock` blocks, in one bitmap block. */
    method Balloc() returns (bitmap: seq<bv8>)
      requires Valid()
      ensures |bitmap| == BSIZE && Marked(bitmap, owner)
    {
      hide Owned, ZeroFrom, Backed, Bit, SetBit;
      OwnerLength(dinodes, data, owner, NMETA);
      bitmap := seq(BSIZE, _ => 0);
      NoBits(bitmap);
      for i := 0 to freeblock
        invariant freeblock <= FSSIZE
        invariant |bitmap| == BSIZE && forall b: nat | b < BPB :: Bit(bitmap, b) <==> b < i
      {
        forall b: nat | b < BPB
          ensures Bit(SetBit(bitmap, i), b) <==> (i == b || Bit(bitmap, b))
        {
          BitUpdates(bitmap, i, b);
        }
        bitmap := SetBit(bitmap, i);
      }
    }

    /** The finished image: every file-system invariant holds when the kernel mounts it. */
    method Mount() returns (fs: FileSystem)
      requires Valid()
      ensures fresh(fs) && fs.Settled() && fs.Cur() == dinodes == fs.dinodes && fs.data == data && fs.icache == map[]
      ensures fs.logstart == 2 && fs.nlog == 30 && fs.inodestart == 32 && fs.bmapstart == 133 && fs.nmeta == 134
      ensures forall i | 0 <= i < NINODES :: Tight(fs.Cur()[i], fs.data)
    {
      hide Owned, Marked, Tight, ZeroFrom;
      var bitmap := Balloc();
      fs := new FileSystem(NMETA, 2, NLOG, 2 + NLOG, 2 + NLOG + NINODEBLOCKS, dinodes, data, bitmap, owner);
    }
  }

  // ----- steps of mkfs

  lemma NoBits(bitmap: seq<bv8>)
    requires |bitmap| == BSIZE && forall k | 0 <= k < BSIZE :: bitmap[k] == 0
    ensures forall b: nat | b < BPB :: !Bit(bitmap, b)
  {
    hide Mask;
  }

  lemma RetypeOwned(cur: seq<Inode>, data: Blocks, owner: seq<Owner>, i: nat, typ: nat)
    requires Owned(cur, data, owner, NMETA) && i < |cur| && cur[i] == EMPTY
    requires forall j | 0 <= j < |cur| :: Packed(cur[j], data)
    ensures Owned(cur[i := EMPTY.(typ := typ)], data, owner, NMETA)
    ensures var cur' := cur[i := EMPTY.(typ := typ)];
            forall j | 0 <= j < |cur| :: Packed(cur'[j], data)
  {
    hide GetWord;
    var cur' := cur[i := EMPTY.(typ := typ)];
    forall j, k | 0 <= j < |cur| && 0 <= k < SLOTS
      ensures Slot(cur'[j], data, k) == Slot(cur[j], data, k)
    {
    }
    SlotsOwned(cur, cur', data, owner);
  }

  lemma SlotsOwned(cur: seq<Inode>, cur': seq<Inode>, data: Blocks, owner: seq<Owner>)
    requires Owned(cur, data, owner, NMETA) && SameSlots(cur, data, cur', data)
    ensures Owned(cur', data, owner, NMETA)
  {
    hide Slot;
  }

  lemma FreeblockFree(cur: seq<Inode>, data: Blocks, owner: seq<Owner>, used: nat)
    requires Owned(cur, data, owner, NMETA) && InOrder(owner, used) && used < |data| && ZeroFrom(data, used)
    ensures owner[used] == Free && used > 0 && data[used] == ZERO_BLOCK && |owner| == |data|
  {
    hide Slot;
  }

  lemma ZeroAlready(data: Blocks, b: nat)
    requires b < |data| && data[b] == ZERO_BLOCK
    ensures data[b := ZERO_BLOCK] == data
  {
  }

  /** Handing out the next block, while the block `c` in use gets the contents `x`. */
  lemma Advance(cur: seq<Inode>, data: Blocks, owner: seq<Owner>, used: nat, i: nat, k: nat, c: nat, x: Block)
    requires Owned(cur, data, owner, NMETA) && InOrder(owner, used) && ZeroFrom(data, used) && used < |data| &&
             c < |data|
    requires c == used || (c != 0 && i < |cur| && Slot(cur[i], data, INDIRECT) == c)
    ensures InOrder(owner[used := Of(i, k)], used + 1) && ZeroFrom(data[c := x], used + 1)
  {
    hide Slot;
  }

  lemma ZeroKept(cur: seq<Inode>, data: Blocks, owner: seq<Owner>, used: nat, c: Word, x: Block, i: nat, k: nat)
    requires Owned(cur, data, owner, NMETA) && InOrder(owner, used) && ZeroFrom(data, used)
    requires 0 < c < |data| && i < |cur| && k < SLOTS && Slot(cur[i], data, k) == c
    ensures ZeroFrom(data[c := x], used)
  {
    hide Slot;
  }

  lemma InOneChunk(off: nat, tot: nat, n: nat, m: nat)
    requires tot < n && Boundary(off, tot, n) && (off + tot) / BSIZE < MAXFILE
    requires 0 < m && (off + tot) % BSIZE + m <= BSIZE && tot + m <= n
    ensures InChunk(off, tot, m) && off + tot + m <= MAXFILE * BSIZE
  {
    assert off + tot == (off + tot) / BSIZE * BSIZE + (off + tot) % BSIZE;
  }

  lemma OthersPacked(cur: seq<Inode>, was: Blocks, cur': seq<Inode>, data: Blocks, i: nat)
    requires Kept(cur, was, cur', data, i) && cur' == cur[i := cur'[i]] && Packed(cur'[i], data)
    requires forall j | 0 <= j < |cur| :: Packed(cur[j], was)
    ensures forall j | 0 <= j < |cur| :: Packed(cur'[j], data)
  {
    hide Slot;
  }

  lemma UsedBound(owner: seq<Owner>, used: nat)
    requires InOrder(owner, used)
    ensures used <= |owner|
  {
  }

  lemma SizeBound(ip: Inode, data: Blocks)
    requires ip.Ok() && Tight(ip, data)
    ensures ip.size <= MAXFILE * BSIZE
  {
  }

  lemma PastEnd(off: nat, tot: nat)
    requires (off + tot) / BSIZE >= MAXFILE
    ensures off + tot >= MAXFILE * BSIZE
  {
  }

  lemma MoreBlocks(a: nat, b: nat)
    requires a <= b
    ensures BlocksOf(a) <= BlocksOf(b)
  {
  }

  /** In a packed file that has grown to `off + tot`, the next chunk needs a new block exactly
      at a block boundary, and an indirect block with the first block past the direct ones. */
  lemma NeededNext(cur: seq<Inode>, was: Blocks, cur': seq<Inode>, data: Blocks, i: nat, off: nat, src: seq<Byte>,
                   tot: nat, m: nat)
    requires Written(cur, was, cur', data, i, off, src, tot) && Packed(cur[i], was) && cur[i].size == off
    requires cur'[i].addrs[INDIRECT] != 0 <==> off + tot > NDIRECT * BSIZE
    requires InChunk(off, tot, m)
    ensures Needed(cur'[i], data, (off + tot) / BSIZE) == BlocksOf(off + tot + m) - BlocksOf(off + tot)
  {
    hide Slot, Overlaid, Reached, Addressed;
    var bn := (off + tot) / BSIZE;
    assert Slot(cur[i], was, DataSlot(bn)) != 0 <==> tot == 0 && off % BSIZE != 0;
    assert tot > 0 ==> !(off / BSIZE <= bn < off / BSIZE + Span(off, tot)) by {
      assert tot > 0 ==> Span(off, tot) == (off + tot - 1) / BSIZE - off / BSIZE + 1;
    }
    assert Slot(cur'[i], data, DataSlot(bn)) == 0 <==> (off + tot) % BSIZE == 0;
  }
}
