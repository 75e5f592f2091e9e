/** Block allocation, the block map, truncation, and reading and writing through an inode
    (kernel/fs.c), over the flat disk that the log and the buffer cache provide. */
module FileSystem {
  import opened Options
  import opened Disk
  import opened BlockMap

  const BPB := BSIZE * 8
  const IPB := 2

  /** Rejected is the return value -1; Panicked stops the machine inside its transaction. */
  datatype Outcome = Done | Rejected | Panicked

  /** The inodes in force: the in-memory copy where there is a valid one. */
  function Current(dinodes: seq<Inode>, icache: map<nat, Inode>): (cur: seq<Inode>)
    ensures |cur| == |dinodes|
  {
    seq(|dinodes|, i requires 0 <= i < |dinodes| => if i in icache then icache[i] else dinodes[i])
  }

  lemma CurrentAt(dinodes: seq<Inode>, icache: map<nat, Inode>, i: nat)
    requires i < |dinodes| && i in icache
    ensures Current(dinodes, icache)[i] == icache[i]
  {
  }

  lemma CurrentUpdate(dinodes: seq<Inode>, icache: map<nat, Inode>, i: nat, ip: Inode)
    requires i < |dinodes| && i in icache
    ensures Current(dinodes, icache)[i] == icache[i]
    ensures Current(dinodes, icache[i := ip]) == Current(dinodes, icache)[i := ip]
    ensures Current(dinodes[i := ip], icache) == Current(dinodes, icache)
  {
  }

  /** The address in the inode through which block `bn` is reached. */
  function AddrIndex(bn: nat): (k: nat)
    ensures k <= INDIRECT
  {
    if bn < NDIRECT then bn else INDIRECT
  }

  /** Every block below the file size is allocated. */
  ghost predicate Backed(ip: Inode, data: Blocks)
    requires ip.Ok()
  {
    && ip.size <= MAXFILE * BSIZE
    && forall bn | 0 <= bn < MAXFILE && bn * BSIZE < ip.size :: Slot(ip, data, DataSlot(bn)) != 0
  }

  ghost predicate Full(owner: seq<Owner>) {
    forall b: nat | b < |owner| :: owner[b] != Free
  }

  ghost predicate NoneHeld(owner: seq<Owner>) {
    forall b: nat | b < |owner| :: owner[b] != Held
  }

  /** Slots once filled stay as they are. */
  ghost predicate Grown(ip: Inode, data: Blocks, ip': Inode, data': Blocks) {
    && ip.Ok() && ip'.Ok()
    && forall k | 0 <= k < SLOTS && Slot(ip, data, k) != 0 :: Slot(ip', data', k) == Slot(ip, data, k)
  }

  /** Blocks of the file outside `lo..hi` that had no disk block still have none, and the
      indirect block is the same unless the range needs it. */
  ghost predicate Confined(ip: Inode, data: Blocks, ip': Inode, data': Blocks, lo: nat, hi: nat) {
    && ip.Ok() && ip'.Ok()
    && (Indirectly(lo, hi) || ip'.addrs[INDIRECT] == ip.addrs[INDIRECT])
    && forall bn | 0 <= bn < MAXFILE && !(lo <= bn < hi) && Slot(ip, data, DataSlot(bn)) == 0 ::
         Slot(ip', data', DataSlot(bn)) == 0
  }

  /** Some block of `lo..hi` is reached through the indirect block. */
  predicate Indirectly(lo: nat, hi: nat) {
    lo < hi && NDIRECT < hi
  }

  /** The file has disk blocks for exactly its first `m` blocks, and its size lies in them. */
  ghost predicate Dense(ip: Inode, data: Blocks, m: nat)
    requires ip.Ok()
  {
    && m <= MAXFILE && ip.size <= m * BSIZE
    && forall bn | 0 <= bn < MAXFILE :: Slot(ip, data, DataSlot(bn)) != 0 <==> bn < m
  }

  /** The file has disk blocks for exactly its blocks below the size. */
  ghost predicate Tight(ip: Inode, data: Blocks)
    requires ip.Ok()
  {
    Dense(ip, data, (ip.size + BSIZE - 1) / BSIZE)
  }

  /** The first block from `bn` on that has no disk block. */
  ghost function FirstHole(ip: Inode, data: Blocks, bn: nat): (h: nat)
    requires ip.Ok() && bn <= MAXFILE
    ensures bn <= h <= MAXFILE && (h < MAXFILE ==> Slot(ip, data, DataSlot(h)) == 0)
    ensures forall c | bn <= c < h :: Slot(ip, data, DataSlot(c)) != 0
    decreases MAXFILE - bn
  {
    if bn == MAXFILE || Slot(ip, data, DataSlot(bn)) == 0 then bn else FirstHole(ip, data, bn + 1)
  }

  // ----- blocks that a range lacks

  ghost function FreeBlocks(owner: seq<Owner>): (s: set<nat>) {
    set b: nat | b < |owner| && owner[b] == Free
  }

  lemma FreeTaken(owner: seq<Owner>, b: nat, o: Owner)
    requires b < |owner| && owner[b] == Free && o != Free
    ensures |FreeBlocks(owner[b := o])| == |FreeBlocks(owner)| - 1
  {
    assert FreeBlocks(owner[b := o]) == FreeBlocks(owner) - {b};
  }

  lemma FullCount(owner: seq<Owner>)
    ensures Full(owner) <==> |FreeBlocks(owner)| == 0
  {
    if !Full(owner) {
      var b: nat :| b < |owner| && owner[b] == Free;
      assert b in FreeBlocks(owner);
    } else {
      assert FreeBlocks(owner) == {};
    }
  }

  /** The blocks `lo..hi` of the file without a disk block. */
  ghost function Holes(ip: Inode, data: Blocks, lo: nat, hi: nat): (s: set<nat>)
    requires ip.Ok()
  {
    set bn: nat | lo <= bn < hi && bn < MAXFILE && Slot(ip, data, DataSlot(bn)) == 0
  }

  /** How many disk blocks the blocks `lo..hi` lack, with the indirect block. */
  ghost function Lacking(ip: Inode, data: Blocks, lo: nat, hi: nat): (n: nat)
    requires ip.Ok()
  {
    |Holes(ip, data, lo, hi)| + if Indirectly(lo, hi) && ip.addrs[INDIRECT] == 0 then 1 else 0
  }

  lemma LackingOne(ip: Inode, data: Blocks, bn: nat)
    requires ip.Ok() && bn < MAXFILE
    ensures Lacking(ip, data, bn, bn + 1)
         == (if Slot(ip, data, DataSlot(bn)) == 0 then 1 else 0) + if bn >= NDIRECT && ip.addrs[INDIRECT] == 0 then 1
           else 0
  {
    hide Slot;
    assert Holes(ip, data, bn, bn + 1) == if Slot(ip, data, DataSlot(bn)) == 0 then {bn} else {};
  }

  lemma LackingNone(ip: Inode, data: Blocks, lo: nat)
    requires ip.Ok()
    ensures Lacking(ip, data, lo, lo) == 0
  {
    hide Slot;
    assert Holes(ip, data, lo, lo) == {};
  }

  lemma LackingMore(ip: Inode, data: Blocks, lo: nat, hi: nat, hi': nat)
    requires ip.Ok() && hi <= hi'
    ensures Lacking(ip, data, lo, hi) <= Lacking(ip, data, lo, hi')
  {
    hide Slot;
    SubsetCard(Holes(ip, data, lo, hi), Holes(ip, data, lo, hi'));
  }

  /** Exactly what the blocks `lo..hi` lacked has been added. */
  ghost predicate Extended(ip: Inode, data: Blocks, ip': Inode, data': Blocks, lo: nat, hi: nat) {
    && ip.Ok() && ip'.Ok()
    && (ip'.addrs[INDIRECT] == 0 <==> ip.addrs[INDIRECT] == 0 && !Indirectly(lo, hi))
    && forall bn | 0 <= bn < MAXFILE ::
         Slot(ip', data', DataSlot(bn)) == 0 <==> Slot(ip, data, DataSlot(bn)) == 0 && !(lo <= bn < hi)
  }

  lemma ExtendedSelf(ip: Inode, data: Blocks, lo: nat)
    requires ip.Ok()
    ensures Extended(ip, data, ip, data, lo, lo)
  {
    hide Slot;
  }

  /** Two ranges that follow or overlap each other are one. */
  lemma ExtendedThen(ip: Inode, data: Blocks, ip1: Inode, data1: Blocks, ip2: Inode, data2: Blocks,
                     lo: nat, hi: nat, lo': nat, hi': nat)
    requires Extended(ip, data, ip1, data1, lo, hi) && Extended(ip1, data1, ip2, data2, lo', hi')
    requires lo <= lo' <= hi <= hi'
    ensures Extended(ip, data, ip2, data2, lo, hi')
  {
    hide Slot;
  }

  /** Once the blocks `lo..hi` are there, the rest lacks what is left. */
  lemma LackingRest(ip: Inode, data: Blocks, ip': Inode, data': Blocks, lo: nat, hi: nat, lo': nat, hi': nat)
    requires Extended(ip, data, ip', data', lo, hi) && lo <= lo' <= hi <= hi'
    ensures Lacking(ip, data, lo, hi') == Lacking(ip, data, lo, hi) + Lacking(ip', data', lo', hi')
  {
    hide Slot;
    var a, b := Holes(ip, data, lo, hi), Holes(ip', data', lo', hi');
    assert Holes(ip, data, lo, hi') == a + b;
    assert a !! b;
  }

  /** The first block of a range is no hole, or starts with the range. */
  ghost predicate Ready(ip: Inode, data: Blocks, off: nat)
    requires ip.Ok()
  {
    off % BSIZE == 0 || off / BSIZE >= MAXFILE || Slot(ip, data, DataSlot(off / BSIZE)) != 0
  }

  lemma LackingBound(ip: Inode, data: Blocks, lo: nat, hi: nat)
    requires ip.Ok() && lo <= hi
    ensures Lacking(ip, data, lo, hi) <= hi - lo + 1
    ensures lo < hi && lo < MAXFILE && Slot(ip, data, DataSlot(lo)) != 0 ==> Lacking(ip, data, lo, hi) <= hi - lo
  {
    hide Slot;
    var all := Blocknos(lo, hi);
    SubsetCard(Holes(ip, data, lo, hi), all);
    if lo < hi && lo < MAXFILE && Slot(ip, data, DataSlot(lo)) != 0 {
      SubsetCard(Holes(ip, data, lo, hi), all - {lo});
    }
  }

  ghost function Blocknos(lo: nat, hi: nat): (s: set<nat>)
    requires lo <= hi
    ensures forall b: nat :: b in s <==> lo <= b < hi
    ensures |s| == hi - lo
  {
    if lo == hi then {} else Blocknos(lo, hi - 1) + {hi - 1}
  }

  // ----- bytes

  /** Files are as before, except that the first `n` bytes of `src` lie at `off` of inode `i`. */
  ghost predicate Overlaid(cur: seq<Inode>, data: Blocks, cur': seq<Inode>, data': Blocks,
                           i: nat, off: nat, src: seq<Byte>, n: nat) {
    && Inodes(cur) && Inodes(cur') && |cur'| == |cur| && n <= |src|
    && forall j, pos | 0 <= j < |cur| && 0 <= pos < MAXFILE * BSIZE ::
         FileByte(cur'[j], data', pos)
         == if j == i && off <= pos < off + n then src[pos - off] else FileByte(cur[j], data, pos)
  }

  /** A block with `src[tot..tot + m]` copied to offset `o` in it. */
  function Patched(b: Block, o: nat, src: seq<Byte>, tot: nat, m: nat): (r: Block)
    requires o + m <= BSIZE && tot + m <= |src|
  {
    b[..o] + src[tot..tot + m] + b[o + m..]
  }

  lemma OverlayStep(cur: seq<Inode>, data: Blocks, cur1: seq<Inode>, data1: Blocks, cur2: seq<Inode>, data2: Blocks,
                    i: nat, off: nat, src: seq<Byte>, tot: nat, m: nat)
    requires Overlaid(cur, data, cur1, data1, i, off, src, tot) && tot + m <= |src| && i < |cur|
    requires (off + tot) / BSIZE < MAXFILE && (off + tot) % BSIZE + m <= BSIZE
    requires var bn, o := (off + tot) / BSIZE, (off + tot) % BSIZE;
             FileBlockSet(cur1, data1, cur2, data2, i, bn, Patched(FileBlock(cur1[i], data1, bn), o, src, tot, m))
    ensures Overlaid(cur, data, cur2, data2, i, off, src, tot + m)
  {
    hide FileBlock;
    var bn, o := (off + tot) / BSIZE, (off + tot) % BSIZE;
    var x := Patched(FileBlock(cur1[i], data1, bn), o, src, tot, m);
    forall j, pos | 0 <= j < |cur| && 0 <= pos < MAXFILE * BSIZE
      ensures FileByte(cur2[j], data2, pos)
           == if j == i && off <= pos < off + tot + m then src[pos - off] else FileByte(cur[j], data, pos)
    {
      assert FileBlock(cur2[j], data2, pos / BSIZE)
          == if j == i && pos / BSIZE == bn then x else FileBlock(cur1[j], data1, pos / BSIZE);
      assert FileByte(cur1[j], data1, pos)
          == if j == i && off <= pos < off + tot then src[pos - off] else FileByte(cur[j], data, pos);
    }
  }

  // ----- what an operation must log

  /** The contents of the flat disk: data blocks, bitmap and disk inodes. */
  datatype Volume = Volume(data: Blocks, bitmap: seq<bv8>, dinodes: seq<Inode>)

  /** Every block in which two states of the disk differ is among `logged`. */
  ghost predicate Recorded(v: Volume, v': Volume, logged: set<nat>, inodestart: nat, bmapstart: nat) {
    && |v'.data| == |v.data| && |v'.bitmap| == |v.bitmap| && |v'.dinodes| == |v.dinodes|
    && (forall b: nat | b < |v.data| && v'.data[b] != v.data[b] :: b in logged)
    && (forall k: nat | k < |v.bitmap| && v'.bitmap[k] != v.bitmap[k] :: bmapstart + k / BSIZE in logged)
    && (forall i: nat | i < |v.dinodes| && v'.dinodes[i] != v.dinodes[i] :: inodestart + i / IPB in logged)
  }

  lemma RecordedThen(v: Volume, v1: Volume, v2: Volume, logged1: set<nat>, logged2: set<nat>, inodestart: nat,
                     bmapstart: nat)
    requires Recorded(v, v1, logged1, inodestart, bmapstart) && Recorded(v1, v2, logged2, inodestart, bmapstart)
    requires logged1 <= logged2
    ensures Recorded(v, v2, logged2, inodestart, bmapstart)
  {
  }

  lemma RecordedSelf(v: Volume, logged: set<nat>, inodestart: nat, bmapstart: nat)
    ensures Recorded(v, v, logged, inodestart, bmapstart)
  {
  }

  lemma RecordedData(v: Volume, b: nat, x: Block, logged: set<nat>, inodestart: nat, bmapstart: nat)
    requires b < |v.data| && b in logged
    ensures Recorded(v, v.(data := v.data[b := x]), logged, inodestart, bmapstart)
  {
  }

  lemma RecordedMore(v: Volume, v': Volume, logged: set<nat>, b: nat, x: Block, inodestart: nat, bmapstart: nat)
    requires Recorded(v, v', logged, inodestart, bmapstart) && b < |v'.data|
    ensures Recorded(v, v'.(data := v'.data[b := x]), logged + {b}, inodestart, bmapstart)
  {
  }

  lemma RecordedBit(v: Volume, bitmap: seq<bv8>, b: nat, logged: set<nat>, inodestart: nat, bmapstart: nat)
    requires b < 8 * |v.bitmap| && (bitmap == SetBit(v.bitmap, b) || bitmap == ClearBit(v.bitmap, b))
    requires bmapstart + b / BPB in logged
    ensures Recorded(v, v.(bitmap := bitmap), logged, inodestart, bmapstart)
  {
    hide OrMask, AndNotMask;
    assert b / 8 / BSIZE == b / BPB;
  }

  lemma HeldRecorded(v: Volume, b: nat, logged: set<nat>, inodestart: nat, bmapstart: nat)
    requires b < |v.data| && b < 8 * |v.bitmap|
    ensures Recorded(v, Volume(v.data[b := ZERO_BLOCK], SetBit(v.bitmap, b), v.dinodes),
                     logged + {bmapstart + b / BPB} + {b}, inodestart, bmapstart)
  {
    hide Recorded, SetBit;
    var l := logged + {bmapstart + b / BPB} + {b};
    RecordedBit(v, SetBit(v.bitmap, b), b, l, inodestart, bmapstart);
    var v1 := v.(bitmap := SetBit(v.bitmap, b));
    RecordedData(v1, b, ZERO_BLOCK, l, inodestart, bmapstart);
    RecordedThen(v, v1, v1.(data := v1.data[b := ZERO_BLOCK]), l, l, inodestart, bmapstart);
  }

  lemma RecordedInode(v: Volume, i: nat, ip: Inode, logged: set<nat>, inodestart: nat, bmapstart: nat)
    requires i < |v.dinodes| && inodestart + i / IPB in logged
    ensures Recorded(v, v.(dinodes := v.dinodes[i := ip]), logged, inodestart, bmapstart)
  {
  }

  // ----- how many blocks one write may log

  /** Blocks of the file touched by `n` bytes at `off`. */
  function Span(off: nat, n: nat): (k: nat) {
    if n == 0 then 0 else (off + n - 1) / BSIZE - off / BSIZE + 1
  }

  /** How many blocks the bitmap of a disk has. */
  function BitmapBlocks(size: nat): (k: nat) {
    (size + BPB - 1) / BPB
  }

  ghost function BitmapArea(bmapstart: nat, size: nat): (s: set<nat>) {
    Blocknos(bmapstart, bmapstart + BitmapBlocks(size))
  }

  lemma InBitmap(bmapstart: nat, size: nat, b: nat)
    requires b < size
    ensures bmapstart + b / BPB in BitmapArea(bmapstart, size)
  {
  }

  // ----- where things are on the disk

  function InodeBlocks(ninodes: nat): (k: nat) {
    (ninodes + IPB - 1) / IPB
  }

  /** Two areas of the disk have no block in common. */
  predicate Beside(a: nat, n: nat, b: nat, m: nat) {
    a + n <= b || b + m <= a
  }

  /** The log, the inodes and the bitmap lie behind the boot block and the superblock and before
      the first data block, and do not overlap. */
  predicate Layout(nmeta: nat, logstart: nat, nlog: nat, inodestart: nat, bmapstart: nat, ninodes: nat, size: nat) {
    && nmeta <= size
    && 2 <= logstart && logstart + nlog <= nmeta
    && 2 <= inodestart && inodestart + InodeBlocks(ninodes) <= nmeta
    && 2 <= bmapstart && bmapstart + BitmapBlocks(size) <= nmeta
    && Beside(logstart, nlog, inodestart, InodeBlocks(ninodes))
    && Beside(logstart, nlog, bmapstart, BitmapBlocks(size))
    && Beside(inodestart, InodeBlocks(ninodes), bmapstart, BitmapBlocks(size))
  }

  /** What may be logged: blocks of the disk that are neither the first two nor in the log. */
  ghost predicate Loggable(logged: set<nat>, logstart: nat, nlog: nat, size: nat) {
    forall b <- logged :: 2 <= b < size && !(logstart <= b < logstart + nlog)
  }

  lemma LogMeta(logged: set<nat>, nmeta: nat, logstart: nat, nlog: nat, inodestart: nat, bmapstart: nat, ninodes: nat,
                size: nat)
    requires Layout(nmeta, logstart, nlog, inodestart, bmapstart, ninodes, size) &&
             Loggable(logged, logstart, nlog, size)
    ensures forall i: nat | i < ninodes :: Loggable(logged + {inodestart + i / IPB}, logstart, nlog, size)
    ensures forall b: nat | b < size :: Loggable(logged + {bmapstart + b / BPB}, logstart, nlog, size)
    ensures forall b: nat | nmeta <= b < size :: Loggable(logged + {b}, logstart, nlog, size)
  {
    forall i: nat | i < ninodes
      ensures i / IPB < InodeBlocks(ninodes)
    {
    }
    forall b: nat | b < size
      ensures b / BPB < BitmapBlocks(size)
    {
    }
  }

  /** No block that a file names is the boot block, the superblock, or in the log, or holds inodes
      or a part of the bitmap. */
  lemma NamedApart(cur: seq<Inode>, data: Blocks, owner: seq<Owner>, nmeta: nat, logstart: nat, nlog: nat,
                   inodestart: nat, bmapstart: nat, ninodes: nat, i: nat, k: nat)
    requires Owned(cur, data, owner, nmeta) && i < |cur| && k < SLOTS && Slot(cur[i], data, k) != 0
    requires Layout(nmeta, logstart, nlog, inodestart, bmapstart, ninodes, |data|)
    ensures var b := Slot(cur[i], data, k);
            && 2 <= b < |data| && !(logstart <= b < logstart + nlog)
            && (forall j: nat | j < ninodes :: b != inodestart + j / IPB)
            && (forall c: nat | c < |data| :: b != bmapstart + c / BPB)
  {
    hide Slot;
    LogMeta({}, nmeta, logstart, nlog, inodestart, bmapstart, ninodes, |data|);
    forall j: nat | j < ninodes
      ensures inodestart + j / IPB < nmeta
    {
    }
    forall c: nat | c < |data|
      ensures bmapstart + c / BPB < nmeta
    {
    }
  }

  /** What one block of the disk holds. */
  datatype Contents = Raw(block: Block) | Bits(bytes: seq<bv8>) | Dinodes(inodes: seq<Inode>)

  function Part<T>(s: seq<T>, n: nat, k: nat): (t: seq<T>) {
    var lo, hi := k * n, (k + 1) * n;
    if |s| <= lo then [] else if |s| <= hi then s[lo..] else s[lo..hi]
  }

  function At(v: Volume, inodestart: nat, bmapstart: nat, c: nat): (x: Contents)
    requires c < |v.data|
  {
    if inodestart <= c < inodestart + InodeBlocks(|v.dinodes|) then Dinodes(Part(v.dinodes, IPB, c - inodestart))
    else if bmapstart <= c < bmapstart + BitmapBlocks(|v.data|) then Bits(Part(v.bitmap, BSIZE, c - bmapstart))
    else Raw(v.data[c])
  }

  lemma PartAt<T>(s: seq<T>, n: nat, i: nat)
    requires 0 < n && i < |s|
    ensures i % n < |Part(s, n, i / n)| && Part(s, n, i / n)[i % n] == s[i]
  {
    assert i == i / n * n + i % n;
    assert (i / n + 1) * n == i / n * n + n;
  }

  /** Inodes, bitmap and data blocks all have their own places on the one disk. */
  lemma DataPlace(v: Volume, nmeta: nat, logstart: nat, nlog: nat, inodestart: nat, bmapstart: nat, b: nat)
    requires Layout(nmeta, logstart, nlog, inodestart, bmapstart, |v.dinodes|, |v.data|) && nmeta <= b < |v.data|
    ensures At(v, inodestart, bmapstart, b) == Raw(v.data[b])
  {
  }

  lemma InodePlace(v: Volume, nmeta: nat, logstart: nat, nlog: nat, inodestart: nat, bmapstart: nat, i: nat)
    requires Layout(nmeta, logstart, nlog, inodestart, bmapstart, |v.dinodes|, |v.data|) && i < |v.dinodes|
    ensures inodestart + i / IPB < |v.data|
    ensures var x := At(v, inodestart, bmapstart, inodestart + i / IPB);
            x.Dinodes? && i % IPB < |x.inodes| && x.inodes[i % IPB] == v.dinodes[i]
  {
    hide Part;
    assert i / IPB < InodeBlocks(|v.dinodes|);
    PartAt(v.dinodes, IPB, i);
  }

  lemma BitmapPlace(v: Volume, nmeta: nat, logstart: nat, nlog: nat, inodestart: nat, bmapstart: nat, k: nat)
    requires Layout(nmeta, logstart, nlog, inodestart, bmapstart, |v.dinodes|, |v.data|)
    requires k < |v.bitmap| && 8 * k < |v.data|
    ensures bmapstart + k / BSIZE < |v.data|
    ensures var x := At(v, inodestart, bmapstart, bmapstart + k / BSIZE);
            x.Bits? && k % BSIZE < |x.bytes| && x.bytes[k % BSIZE] == v.bitmap[k]
  {
    hide Part;
    assert k / BSIZE < BitmapBlocks(|v.data|);
    PartAt(v.bitmap, BSIZE, k);
  }

  /** Every block of the disk that differs has been logged. */
  lemma DiskRecorded(v: Volume, v': Volume, logged: set<nat>, inodestart: nat, bmapstart: nat, c: nat)
    requires Recorded(v, v', logged, inodestart, bmapstart) && c < |v.data|
    ensures At(v', inodestart, bmapstart, c) == At(v, inodestart, bmapstart, c) || c in logged
  {
    hide Part;
    if c !in logged {
      if inodestart <= c < inodestart + InodeBlocks(|v.dinodes|) {
        SamePart(v.dinodes, v'.dinodes, IPB, c - inodestart);
      } else if bmapstart <= c < bmapstart + BitmapBlocks(|v.data|) {
        SamePart(v.bitmap, v'.bitmap, BSIZE, c - bmapstart);
      }
    }
  }

  lemma SamePart<T>(s: seq<T>, t: seq<T>, n: nat, k: nat)
    requires 0 < n && |t| == |s| && forall i: nat | i < |s| && t[i] != s[i] :: i / n != k
    ensures Part(t, n, k) == Part(s, n, k)
  {
    forall i: nat | k * n <= i < (k + 1) * n && i < |s|
      ensures t[i] == s[i]
    {
      Quotient(i, n, k);
    }
  }

  lemma Quotient(i: nat, n: nat, k: nat)
    requires 0 < n && k * n <= i < (k + 1) * n
    ensures i / n == k
  {
    var q := i / n;
    assert q * n <= i < (q + 1) * n;
    assert q < k ==> (q + 1) * n <= k * n;
    assert q > k ==> (k + 1) * n <= q * n;
  }

  /** Data blocks, a bitmap block for each block that was lacking or all bitmap blocks, the
      indirect block, and the inode block. */
  ghost function LogBound(ip: Inode, data: Blocks, off: nat, n: nat): (k: nat)
    requires ip.Ok()
  {
    var lacking := Lacking(ip, data, off / BSIZE, off / BSIZE + Span(off, n));
    Span(off, n) + (if lacking < BitmapBlocks(|data|) then lacking else BitmapBlocks(|data|)) + 2
  }

  lemma UnionCard(a: set<nat>, b: set<nat>)
    ensures |a + b| <= |a| + |b|
  {
    assert a + b == a + (b - a);
    assert b == (b - a) + (a * b);
    assert |b| == |b - a| + |a * b|;
  }

  lemma SubsetCard(a: set<nat>, b: set<nat>)
    requires a <= b
    ensures |a| <= |b|
  {
    assert b == a + (b - a);
  }

  class FileSystem {
    const nmeta: nat
    const logstart: nat
    const nlog: nat
    const inodestart: nat
    const bmapstart: nat
    var bitmap: seq<bv8>
    var data: Blocks
    var dinodes: seq<Inode>
    var icache: map<nat, Inode>
    ghost var owner: seq<Owner>
    /** Blocks given to log_write by the current operation. */
    ghost var logged: set<nat>

    ghost function Cur(): (cur: seq<Inode>)
      reads this
    {
      Current(dinodes, icache)
    }

    ghost function OnDisk(): (v: Volume)
      reads this
    {
      Volume(data, bitmap, dinodes)
    }

    /** The operation has logged every block that differs from `v`. */
    ghost predicate Logs(v: Volume, before: set<nat>)
      reads this
    {
      before <= logged && Recorded(v, OnDisk(), logged, inodestart, bmapstart)
    }

    /** Mount an image, with nothing in memory yet. */
    constructor (nmeta: nat, logstart: nat, nlog: nat, inodestart: nat, bmapstart: nat, dinodes: seq<Inode>,
                 data: Blocks, bitmap: seq<bv8>, ghost owner: seq<Owner>)
      requires Layout(nmeta, logstart, nlog, inodestart, bmapstart, |dinodes|, |data|)
      requires |data| < 0x1_0000_0000 && Owned(dinodes, data, owner, nmeta) && Marked(bitmap, owner) && NoneHeld(owner)
      ensures Settled() && Cur() == dinodes == this.dinodes && this.data == data && icache == map[]
      ensures this.nmeta == nmeta && this.logstart == logstart && this.nlog == nlog
      ensures this.inodestart == inodestart && this.bmapstart == bmapstart
      ensures this.bitmap == bitmap && this.owner == owner && logged == {}
    {
      this.nmeta, this.logstart, this.nlog := nmeta, logstart, nlog;
      this.inodestart, this.bmapstart := inodestart, bmapstart;
      this.dinodes, this.data, this.bitmap, this.owner := dinodes, data, bitmap, owner;
      icache, logged := map[], {};
      new;
      assert Cur() == dinodes;
    }

    ghost predicate Valid()
      reads this
    {
      && |data| < 0x1_0000_0000
      && (forall i <- icache :: i < |dinodes|)
      && Owned(Cur(), data, owner, nmeta)
      && Marked(bitmap, owner)
      && Layout(nmeta, logstart, nlog, inodestart, bmapstart, |dinodes|, |data|)
      && Loggable(logged, logstart, nlog, |data|)
    }

    /** No operation is half way through an allocation. */
    ghost predicate Settled()
      reads this
    {
      Valid() && NoneHeld(owner)
    }

    /** ilock once the sleep-lock is held: read the inode from disk unless it is in memory.
        False is the panic "ilock: no type". */
    method Ilock(inum: nat) returns (ok: bool)
      requires Valid() && inum < |dinodes|
      modifies this`icache
      ensures Valid() && Cur() == old(Cur())
      ensures inum in icache && icache == old(icache)[inum := Cur()[inum]]
      ensures !ok <==> inum !in old(icache) && dinodes[inum].typ == 0
    {
      hide Owned, Marked;
      ok := true;
      if inum !in icache {
        icache := icache[inum := dinodes[inum]];
        ok := icache[inum].typ != 0;
      }
      assert Cur() == old(Cur());
    }

    /** balloc's scan of the bitmap blocks for the lowest clear bit. */
    method FindFree() returns (r: Option<Word>)
      requires Valid()
      ensures r.None? <==> Full(owner)
      ensures r.Some? ==> r.value < |owner| && owner[r.value] == Free && forall c: nat | c < r.value :: owner[c] != Free
    {
      hide Owned, Marked, TestMask, Layout, Loggable, Current;
      OwnerLength(Cur(), data, owner, nmeta);
      var b := 0;
      while b < |data|
        invariant b % BPB == 0
        invariant forall c: nat | c < b && c < |data| :: owner[c] != Free
      {
        var bi := 0;
        while bi < BPB && b + bi < |data|
          invariant 0 <= bi <= BPB
          invariant forall c: nat | c < b + bi && c < |data| :: owner[c] != Free
        {
          TestBit(bitmap, owner, b, bi);
          if !TestMask(bitmap[b / 8 + bi / 8], bi % 8) {
            return Some(b + bi);
          }
          bi := bi + 1;
        }
        b := b + BPB;
      }
      r := None;
    }

    /** Allocate a zeroed block: the lowest free one. None is the panic "out of blocks". */
    method Balloc() returns (r: Option<Word>)
      requires Valid()
      modifies this`bitmap, this`data, this`owner, this`logged
      ensures Logs(old(OnDisk()), old(logged))
      ensures Valid()
      ensures r.None? <==> Full(old(owner))
      ensures r.None? ==> bitmap == old(bitmap) && data == old(data) && owner == old(owner) && logged == old(logged)
      ensures r.Some? ==>
        var b := r.value;
        && 0 < nmeta <= b < |old(data)| && old(owner)[b] == Free && (forall c: nat | c < b :: old(owner)[c] != Free)
        && owner == old(owner)[b := Held] && data == old(data)[b := ZERO_BLOCK]
        && logged == old(logged) + {bmapstart + b / BPB, b}
    {
      hide Recorded, Layout, Loggable;
      RecordedSelf(OnDisk(), logged, inodestart, bmapstart);
      r := FindFree();
      if r.Some? {
        MarkHeld(r.value);
      }
    }

    /** Mark a free block in use, log the bitmap block, and zero the block. */
    method MarkHeld(b: Word)
      requires Valid() && b < |data| && owner[b] == Free
      modifies this`bitmap, this`data, this`owner, this`logged
      ensures Logs(old(OnDisk()), old(logged))
      ensures Valid()
      ensures owner == old(owner)[b := Held] && data == old(data)[b := ZERO_BLOCK]
      ensures logged == old(logged) + {bmapstart + b / BPB, b}
      ensures b >= nmeta > 0
    {
      hide Slot, Bit, Recorded, Layout, Loggable, Owned, Current;
      OwnerLength(Cur(), data, owner, nmeta);
      MarkUsed(bitmap, owner, b);
      ZeroHeld(Cur(), data, owner, nmeta, b);
      LogMeta(logged, nmeta, logstart, nlog, inodestart, bmapstart, |dinodes|, |data|);
      LogMeta(logged + {bmapstart + b / BPB}, nmeta, logstart, nlog, inodestart, bmapstart, |dinodes|, |data|);
      HeldRecorded(OnDisk(), b, logged, inodestart, bmapstart);
      bitmap, logged := SetBit(bitmap, b), logged + {bmapstart + b / BPB};
      data, logged, owner := data[b := ZERO_BLOCK], logged + {b}, owner[b := Held];
      assert logged == old(logged) + {bmapstart + b / BPB, b};
    }

    /** balloc for an empty address of the inode. */
    method AllocAddr(inum: nat, k: nat) returns (r: Option<Word>)
      requires Valid() && inum in icache && k <= INDIRECT && icache[inum].Ok() && icache[inum].addrs[k] == 0
      modifies this`bitmap, this`data, this`owner, this`logged, this`icache
      ensures Logs(old(OnDisk()), old(logged))
      ensures Valid()
      ensures r.None? <==> |FreeBlocks(old(owner))| == 0
      ensures r.None? ==> bitmap == old(bitmap) && data == old(data) && owner == old(owner) && icache == old(icache)
                          && logged == old(logged) && Full(owner)
      ensures r.Some? ==>
        var b := r.value;
        && 0 < b < |old(data)| && old(owner)[b] == Free && |FreeBlocks(owner)| == |FreeBlocks(old(owner))| - 1
        && icache == old(icache)[inum := old(icache)[inum].(addrs := old(icache)[inum].addrs[k := b])]
        && data == old(data)[b := ZERO_BLOCK] && owner == old(owner)[b := Of(inum, k)]
        && logged == old(logged) + {bmapstart + b / BPB, b}
        && SlotSet(old(Cur()), old(data), Cur(), data, inum, k, b)
        && SameFiles(old(Cur()), old(data), Cur(), data)
    {
      hide Slot, FileBlock, SlotSet, Marked, Owned, SameFiles, Current, Inodes, Recorded, Layout, Loggable, FreeBlocks,
           Full;
      SlotsOf(Cur(), data, owner, nmeta, inum, 0);
      ghost var was := owner;
      FullCount(was);
      r := Balloc();
      if r.Some? {
        FreeTaken(was, r.value, Of(inum, k));
        LinkField(inum, k, r.value, old(data), was);
      }
    }

    /** Store a new block in the inode in memory. */
    method LinkField(inum: nat, k: nat, b: Word, ghost was: Blocks, ghost owned: seq<Owner>)
      requires Valid() && inum in icache && k <= INDIRECT && icache[inum].Ok() && icache[inum].addrs[k] == 0
      requires Owned(Cur(), was, owned, nmeta) && b < |was| == |owned| && owned[b] == Free
      requires data == was[b := ZERO_BLOCK] && owner == owned[b := Held]
      modifies this`icache, this`owner
      ensures Valid() && owner == owned[b := Of(inum, k)]
      ensures icache == old(icache)[inum := old(icache)[inum].(addrs := old(icache)[inum].addrs[k := b])]
      ensures SlotSet(old(Cur()), was, Cur(), data, inum, k, b) && SameFiles(old(Cur()), was, Cur(), data)
    {
      hide Slot, FileBlock, SlotSet, Marked, Owned, SameFiles, Current, Inodes, Recorded, Layout, Loggable;
      var ip := icache[inum].(addrs := icache[inum].addrs[k := b]);
      CurrentUpdate(dinodes, icache, inum, ip);
      LinkAddr(Cur(), was, owned, nmeta, inum, k, b);
      MarkOwned(bitmap, owner, b, inum, k);
      assert owner[b := Of(inum, k)] == owned[b := Of(inum, k)];
      icache, owner := icache[inum := ip], owned[b := Of(inum, k)];
    }

    /** balloc for an empty word of the inode's indirect block. */
    method AllocIndirect(inum: nat, j: nat) returns (r: Option<Word>)
      requires Valid() && inum in icache && j < NINDIRECT && icache[inum].Ok()
      requires 0 < icache[inum].addrs[INDIRECT] < |data| && GetWord(data[icache[inum].addrs[INDIRECT]], j) == 0
      modifies this`bitmap, this`data, this`owner, this`logged
      ensures Logs(old(OnDisk()), old(logged))
      ensures Valid()
      ensures r.None? <==> |FreeBlocks(old(owner))| == 0
      ensures r.None? ==> bitmap == old(bitmap) && data == old(data) && owner == old(owner)
                          && logged == old(logged) && Full(owner)
      ensures r.Some? ==>
        var b, ind := r.value, icache[inum].addrs[INDIRECT];
        && 0 < b < |old(data)| && old(owner)[b] == Free && |data| == |old(data)|
        && |FreeBlocks(owner)| == |FreeBlocks(old(owner))| - 1
        && owner == old(owner)[b := Of(inum, INDIRECT + 1 + j)]
        && logged == old(logged) + {bmapstart + b / BPB, b} + {ind}
        && SlotSet(Cur(), old(data), Cur(), data, inum, INDIRECT + 1 + j, b)
        && SameFiles(Cur(), old(data), Cur(), data)
    {
      CurrentAt(dinodes, icache, inum);
      SlotsOf(Cur(), data, owner, nmeta, inum, 0);
      hide Slot, FileBlock, SlotSet, Marked, GetWord, PutWord, Owned, SameFiles, Current, Inodes, Recorded, Layout,
           Loggable, FreeBlocks, Full;
      RecordedSelf(OnDisk(), logged, inodestart, bmapstart);
      var ind := icache[inum].addrs[INDIRECT];
      FullCount(owner);
      r := Balloc();
      if r.Some? {
        var b := r.value;
        FreeTaken(old(owner), b, Of(inum, INDIRECT + 1 + j));
        ghost var v, logged1 := OnDisk(), logged;
        LinkWord(inum, j, b, old(data), old(owner));
        RecordedThen(old(OnDisk()), v, OnDisk(), logged1, logged, inodestart, bmapstart);
      }
    }

    /** Store a new block in the indirect block. */
    method LinkWord(inum: nat, j: nat, b: Word, ghost was: Blocks, ghost owned: seq<Owner>)
      requires Valid() && inum in icache && j < NINDIRECT && icache[inum].Ok() && Owned(Cur(), was, owned, nmeta)
      requires 0 < icache[inum].addrs[INDIRECT] < |was| && GetWord(was[icache[inum].addrs[INDIRECT]], j) == 0
      requires b < |was| == |owned| && owned[b] == Free && data == was[b := ZERO_BLOCK] && owner == owned[b := Held]
      modifies this`data, this`owner, this`logged
      ensures Logs(old(OnDisk()), old(logged))
      ensures Valid() && |data| == |was| && owner == owned[b := Of(inum, INDIRECT + 1 + j)]
      ensures logged == old(logged) + {icache[inum].addrs[INDIRECT]}
      ensures SlotSet(Cur(), was, Cur(), data, inum, INDIRECT + 1 + j, b) && SameFiles(Cur(), was, Cur(), data)
    {
      CurrentAt(dinodes, icache, inum);
      SlotsOf(Cur(), was, owned, nmeta, inum, 0);
      LogMeta(logged, nmeta, logstart, nlog, inodestart, bmapstart, |dinodes|, |data|);
      hide Slot, FileBlock, SlotSet, Marked, GetWord, PutWord, Owned, SameFiles, Current, Inodes, Recorded, Layout,
           Loggable;
      var ind := icache[inum].addrs[INDIRECT];
      ghost var o := Of(inum, INDIRECT + 1 + j);
      LinkIndirect(Cur(), was, owned, nmeta, inum, j, b);
      MarkOwned(bitmap, owner, b, inum, INDIRECT + 1 + j);
      assert owner[b := o] == owned[b := o];
      RecordedData(OnDisk(), ind, PutWord(data[ind], j, b), logged + {ind}, inodestart, bmapstart);
      data, logged, owner := data[ind := PutWord(data[ind], j, b)], logged + {ind}, owned[b := o];
    }

    /** The disk address of block `bn` of the inode, allocating where there is none. None is
        the panic for a block number out of range or a full disk. */
    method Bmap(inum: nat, bn: nat) returns (r: Option<Word>, ghost maps: set<nat>)
      requires Valid() && inum in icache && icache[inum].Ok()
      modifies this`bitmap, this`data, this`owner, this`logged, this`icache
      ensures Logs(old(OnDisk()), old(logged))
      ensures Valid() && |data| == |old(data)|
      ensures NoneHeld(old(owner)) ==> NoneHeld(owner)
      ensures inum in icache && icache == old(icache)[inum := icache[inum]] && icache[inum].Ok()
      ensures icache[inum] == old(icache)[inum].(addrs := icache[inum].addrs)
      ensures Mapped(old(Cur()), old(data), Cur(), data, inum)
      ensures Confined(old(Cur())[inum], old(data), Cur()[inum], data, bn, bn + 1)
      ensures r.None? <==>
        bn >= MAXFILE || |FreeBlocks(old(owner))| < Lacking(old(Cur())[inum], old(data), bn, bn + 1)
      ensures r.None? ==> bn >= MAXFILE || Full(owner)
      ensures bn < MAXFILE && Slot(old(Cur())[inum], old(data), DataSlot(bn)) != 0 ==>
        r.Some? && bitmap == old(bitmap) && data == old(data) && owner == old(owner) && icache == old(icache) &&
          logged == old(logged)
      ensures r.Some? ==>
        && bn < MAXFILE && Slot(Cur()[inum], data, DataSlot(bn)) == r.value && 0 < r.value < |data|
        && icache[inum].addrs[AddrIndex(bn)] != 0
        && (old(icache)[inum].addrs[AddrIndex(bn)] != 0 ==> icache == old(icache))
        && logged <= old(logged) + maps + {r.value} + Indirect(icache[inum])
        && |FreeBlocks(owner)| == |FreeBlocks(old(owner))| - Lacking(old(Cur())[inum], old(data), bn, bn + 1)
        && maps <= BitmapArea(bmapstart, |data|) && |maps| <= Lacking(old(Cur())[inum], old(data), bn, bn + 1)
    {
      hide FileBlock, SlotSet, Marked, GetWord, Owned, Inodes, Confined, Recorded, Layout, Loggable, FreeBlocks,
           Lacking, BitmapArea;
      RecordedSelf(OnDisk(), logged, inodestart, bmapstart);
      ghost var cur, was := Cur(), data;
      CurrentAt(dinodes, icache, inum);
      SlotsOf(Cur(), data, owner, nmeta, inum, bn);
      MappedSelf(Cur(), data, inum);
      ConfinedSelf(Cur()[inum], data, bn, bn + 1);
      if bn < MAXFILE {
        LackingOne(Cur()[inum], data, bn);
      }
      maps := {};
      if bn < NDIRECT {
        var addr := icache[inum].addrs[bn];
        if addr == 0 {
          r := AllocAddr(inum, bn);
          if r.Some? {
            maps := {bmapstart + r.value / BPB};
            InBitmap(bmapstart, |data|, r.value);
            CurrentAt(dinodes, icache, inum);
            SlotMapped(cur, was, Cur(), data, inum, bn, r.value);
            SlotConfined(cur[inum], was, Cur()[inum], data, bn, bn);
          }
          return;
        }
        return Some(addr), maps;
      }
      if bn - NDIRECT < NINDIRECT {
        var addr := icache[inum].addrs[INDIRECT];
        if addr == 0 {
          var a := AllocAddr(inum, INDIRECT);
          if a.None? {
            return None, maps;
          }
          addr := a.value;
          maps := {bmapstart + addr / BPB};
          InBitmap(bmapstart, |data|, addr);
          CurrentAt(dinodes, icache, inum);
          SlotMapped(cur, was, Cur(), data, inum, INDIRECT, addr);
          SlotConfined(cur[inum], was, Cur()[inum], data, INDIRECT, bn);
          SlotsOf(Cur(), data, owner, nmeta, inum, bn);
        }
        ghost var v, logged1 := OnDisk(), logged;
        r, maps := FinishIndirect(inum, bn, addr, cur, was, maps);
        RecordedThen(old(OnDisk()), v, OnDisk(), logged1, logged, inodestart, bmapstart);
        return;
      }
      r := None;
    }

    /** bmap from the point where the indirect block exists. */
    method FinishIndirect(inum: nat, bn: nat, ind: Word, ghost cur: seq<Inode>, ghost was: Blocks,
                          ghost maps0: set<nat>)
      returns (r: Option<Word>, ghost maps: set<nat>)
      requires Valid() && inum in icache && icache[inum].Ok() && NDIRECT <= bn < MAXFILE
      requires 0 < ind == icache[inum].addrs[INDIRECT] < |data|
      requires Mapped(cur, was, Cur(), data, inum) && Confined(cur[inum], was, Cur()[inum], data, bn, bn + 1)
      requires maps0 <= BitmapArea(bmapstart, |data|)
      modifies this`bitmap, this`data, this`owner, this`logged
      ensures Logs(old(OnDisk()), old(logged))
      ensures Valid() && |data| == |old(data)|
      ensures NoneHeld(old(owner)) ==> NoneHeld(owner)
      ensures Mapped(cur, was, Cur(), data, inum) && Confined(cur[inum], was, Cur()[inum], data, bn, bn + 1)
      ensures r.None? <==> Slot(Cur()[inum], old(data), DataSlot(bn)) == 0 && |FreeBlocks(old(owner))| == 0
      ensures r.None? ==> Full(owner)
      ensures Slot(Cur()[inum], old(data), DataSlot(bn)) != 0 ==>
        r.Some? && bitmap == old(bitmap) && data == old(data) && owner == old(owner) && logged == old(logged) &&
          maps == maps0
      ensures r.Some? ==>
        && Slot(Cur()[inum], data, DataSlot(bn)) == r.value && 0 < r.value < |data|
        && logged <= old(logged) + maps + {r.value, ind}
        && maps0 <= maps <= BitmapArea(bmapstart, |data|)
        && |maps| <= |maps0| + (if Slot(Cur()[inum], old(data), DataSlot(bn)) == 0 then 1 else 0)
        && |FreeBlocks(owner)|
           == |FreeBlocks(old(owner))| - if Slot(Cur()[inum], old(data), DataSlot(bn)) == 0 then 1 else 0
    {
      hide FileBlock, SlotSet, Marked, GetWord, Owned, Inodes, Confined, Recorded, Layout, Loggable, FreeBlocks,
           BitmapArea;
      RecordedSelf(OnDisk(), logged, inodestart, bmapstart);
      ghost var mid := data;
      CurrentAt(dinodes, icache, inum);
      SlotsOf(Cur(), data, owner, nmeta, inum, bn);
      maps := maps0;
      var addr := GetWord(data[ind], bn - NDIRECT);
      if addr == 0 {
        r := AllocIndirect(inum, bn - NDIRECT);
        if r.Some? {
          maps := maps + {bmapstart + r.value / BPB};
          InBitmap(bmapstart, |data|, r.value);
          SlotMapped(Cur(), mid, Cur(), data, inum, DataSlot(bn), r.value);
          MappedThen(cur, was, Cur(), mid, Cur(), data, inum);
          SlotConfined(Cur()[inum], mid, Cur()[inum], data, DataSlot(bn), bn);
          ConfinedThen(cur[inum], was, Cur()[inum], mid, Cur()[inum], data, bn, bn + 1, bn, bn + 1);
        }
        return;
      }
      r := Some(addr);
    }

    /** Copy the in-memory inode to its disk block. */
    method Iupdate(inum: nat)
      requires Valid() && inum in icache
      modifies this`dinodes, this`logged
      ensures Logs(old(OnDisk()), old(logged))
      ensures Valid() && Cur() == old(Cur())
      ensures dinodes == old(dinodes)[inum := icache[inum]]
      ensures logged == old(logged) + {inodestart + inum / IPB}
    {
      LogMeta(logged, nmeta, logstart, nlog, inodestart, bmapstart, |dinodes|, |data|);
      hide Slot, Marked, Recorded, Layout, Loggable;
      RecordedInode(OnDisk(), inum, icache[inum], logged + {inodestart + inum / IPB}, inodestart, bmapstart);
      CurrentUpdate(dinodes, icache, inum, icache[inum]);
      dinodes := dinodes[inum := icache[inum]];
      assert Cur() == old(Cur());
      logged := logged + {inodestart + inum / IPB};
    }

    /** One turn of writei's loop: map the block and copy `m` bytes into it. */
    method WriteBlock(inum: nat, bn: nat, o: nat, src: seq<Byte>, tot: nat, m: nat)
      returns (r: Option<Word>, ghost maps: set<nat>)
      requires Valid() && inum in icache && icache[inum].Ok() && bn < MAXFILE
      requires o + m <= BSIZE && tot + m <= |src|
      modifies this`bitmap, this`data, this`owner, this`logged, this`icache
      ensures Logs(old(OnDisk()), old(logged))
      ensures Valid() && |data| == |old(data)|
      ensures NoneHeld(old(owner)) ==> NoneHeld(owner)
      ensures inum in icache && icache == old(icache)[inum := icache[inum]] && icache[inum].Ok()
      ensures icache[inum] == old(icache)[inum].(addrs := icache[inum].addrs)
      ensures Kept(old(Cur()), old(data), Cur(), data, inum)
      ensures r.None? <==> |FreeBlocks(old(owner))| < Lacking(old(Cur())[inum], old(data), bn, bn + 1)
      ensures r.None? ==> Full(owner)
      ensures r.Some? ==>
        && ChunkWritten(old(Cur()), old(data), old(logged), Cur(), data, logged, inum, bn, o, src, tot, m, r.value,
                        maps)
        && |FreeBlocks(owner)| == |FreeBlocks(old(owner))| - Lacking(old(Cur())[inum], old(data), bn, bn + 1)
        && maps <= BitmapArea(bmapstart, |data|)
    {
      hide Slot, FileBlock, Owned, Marked, Inodes, Current, ChunkWritten, NoneHeld, Full, Mapped, Kept, Indirect,
           Confined, Recorded, Layout, Loggable, FreeBlocks, Lacking, BitmapArea;
      RecordedSelf(OnDisk(), logged, inodestart, bmapstart);
      CurrentAt(dinodes, icache, inum);
      r, maps := Bmap(inum, bn);
      CurrentAt(dinodes, icache, inum);
      MappedKept(old(Cur()), old(data), Cur(), data, inum);
      if r.Some? {
        PatchChunk(old(Cur()), old(data), old(logged), Cur(), data, logged, owner, nmeta, inum, bn, o, src, tot, m,
                   r.value, maps);
        RecordedMore(old(OnDisk()), OnDisk(), logged, r.value, Patched(data[r.value], o, src, tot, m), inodestart,
                     bmapstart);
        SlotsOf(Cur(), data, owner, nmeta, inum, bn);
        LogMeta(logged, nmeta, logstart, nlog, inodestart, bmapstart, |dinodes|, |data|);
        data := data[r.value := Patched(data[r.value], o, src, tot, m)];
        logged := logged + {r.value};
      }
    }

    /** Record the new size in memory and on disk. */
    method GrowSize(inum: nat, size: Word)
      requires Valid() && inum in icache
      modifies this`icache, this`dinodes, this`logged
      ensures Logs(old(OnDisk()), old(logged))
      ensures Valid()
      ensures icache == old(icache)[inum := old(icache)[inum].(size := size)]
      ensures dinodes == old(dinodes)[inum := icache[inum]]
      ensures logged == old(logged) + {inodestart + inum / IPB}
      ensures Cur() == old(Cur())[inum := icache[inum]] && SameSlots(old(Cur()), data, Cur(), data)
    {
      hide GetWord, Marked, Recorded, Layout, Loggable;
      CurrentUpdate(dinodes, icache, inum, icache[inum].(size := size));
      ResizeOwned(Cur(), data, owner, nmeta, inum, size);
      icache := icache[inum := icache[inum].(size := size)];
      Iupdate(inum);
    }

    /** writei on a file or directory, for the `|src|` bytes at `off`. */
    method Writei(inum: nat, src: seq<Byte>, off: Word) returns (r: Outcome)
      requires Settled() && inum in icache && icache[inum].Ok() && |src| < 0x1_0000_0000
      modifies this`bitmap, this`data, this`owner, this`logged, this`icache, this`dinodes
      ensures Logs(old(OnDisk()), old(logged))
      ensures Settled() && |data| == |old(data)|
      ensures r.Rejected? <==>
        off > old(icache)[inum].size || off + |src| >= 0x1_0000_0000 || off + |src| > MAXFILE * BSIZE
      ensures r.Rejected? ==>
        bitmap == old(bitmap) && data == old(data) && icache == old(icache) && dinodes == old(dinodes) &&
          logged == old(logged)
      ensures r.Panicked? <==>
        && !r.Rejected?
        && |FreeBlocks(old(owner))|
           < Lacking(old(Cur())[inum], old(data), off / BSIZE, off / BSIZE + Span(off, |src|))
      ensures r.Panicked? ==> Full(owner)
      ensures inum in icache && icache == old(icache)[inum := icache[inum]] && icache[inum].Ok()
      ensures Kept(old(Cur()), old(data), Cur(), data, inum)
      // exactly the blocks that were lacking are allocated
      ensures r.Done? ==>
        && Extended(old(Cur())[inum], old(data), Cur()[inum], data, off / BSIZE, off / BSIZE + Span(off, |src|))
        && |FreeBlocks(owner)|
           == |FreeBlocks(old(owner))|
              - Lacking(old(Cur())[inum], old(data), off / BSIZE, off / BSIZE + Span(off, |src|))
      // the bytes
      ensures r.Done? ==> Overlaid(old(Cur()), old(data), Cur(), data, inum, off, src, |src|)
      ensures r.Done? ==> icache[inum].size == if off + |src| > old(icache)[inum].size then off + |src|
              else old(icache)[inum].size
      // every block below the size stays allocated
      ensures r.Done? && Backed(old(Cur())[inum], old(data)) ==> Backed(Cur()[inum], data)
      ensures r.Done? ==> forall m: nat | Dense(old(Cur())[inum], old(data), m) ::
                Dense(Cur()[inum], data, DenseAfter(m, off, |src|))
      ensures r.Done? && Tight(old(Cur())[inum], old(data)) ==> Tight(Cur()[inum], data)
      // write-through: the disk copy agrees exactly when the size grew or no new address was needed
      ensures |dinodes| == |old(dinodes)| && forall i | 0 <= i < |dinodes| && i != inum :: dinodes[i] == old(dinodes)[i]
      ensures r.Done? && old(icache)[inum] == old(dinodes)[inum] ==>
        (icache[inum] == dinodes[inum] <==>
         off + |src| > old(icache)[inum].size || Addressed(old(icache)[inum], off, |src|))
      ensures r.Done? && old(icache)[inum] == old(dinodes)[inum] && Backed(old(Cur())[inum], old(data)) ==>
        icache[inum] == dinodes[inum]
      // the transaction
      ensures r.Done? ==> |logged - old(logged)| <= LogBound(old(Cur())[inum], old(data), off, |src|)
    {
      hide Slot, FileBlock, Owned, Marked, Span, Overlaid, Inodes, NoneHeld, Full, Confined, Tight, Backed, Addressed,
           Reached, Recorded, Layout, Loggable, FreeBlocks, Lacking, Dense, Extended, BitmapArea, Grown;
      RecordedSelf(OnDisk(), logged, inodestart, bmapstart);
      var n := |src|;
      CurrentAt(dinodes, icache, inum);
      OwnerLength(Cur(), data, owner, nmeta);
      KeptSelf(Cur(), data, inum);
      if off > icache[inum].size || (off + n) % 0x1_0000_0000 < off {
        return Rejected;
      }
      if off + n > MAXFILE * BSIZE {
        return Rejected;
      }
      ghost var ip := icache[inum];
      var ok, ds, ms := WriteExtent(inum, src, off);
      if !ok {
        return Panicked;
      }
      ghost var cur1, ip1 := Cur(), icache[inum];
      CurrentAt(dinodes, icache, inum);
      if n > 0 && off + n > icache[inum].size {
        ghost var v, logged1 := OnDisk(), logged;
        GrowSize(inum, off + n);
        RecordedThen(old(OnDisk()), v, OnDisk(), logged1, logged, inodestart, bmapstart);
        Regrown(old(Cur()), old(data), cur1, Cur(), data, inum, off, src);
      }
      AddressedSame(ip, ip1, data, off, n);
      BackedAddressed(ip, old(data), off, n);
      Resized(cur1[inum], Cur()[inum], old(Cur())[inum], old(data), data, off, n);
      BackedAfter(old(Cur())[inum], old(data), Cur()[inum], data, off, n);
      WrittenExtended(old(Cur())[inum], old(data), Cur()[inum], data, off, n);
      AllDenseAfter(old(Cur())[inum], old(data), Cur()[inum], data, off, n);
      LogCount(old(logged), logged, ds, ms, Indirect(ip1), {inodestart + inum / IPB});
      AreaCard(ms, bmapstart, |data|);
      r := Done;
    }

    /** readi on a file or directory: up to `n` bytes from `off`. `trans` says whether some
        operation is outstanding in the log: bmap fills a hole, and log_write panics outside
        of one. */
    method Readi(inum: nat, off: Word, n: Word, trans: bool) returns (r: Outcome, dst: seq<Byte>)
      requires Settled() && inum in icache && icache[inum].Ok()
      modifies this`bitmap, this`data, this`owner, this`logged, this`icache
      ensures Logs(old(OnDisk()), old(logged))
      ensures Settled() && |data| == |old(data)|
      ensures r.Rejected? <==> off > old(icache)[inum].size || off + n >= 0x1_0000_0000
      ensures Mapped(old(Cur()), old(data), Cur(), data, inum)
      ensures r.Done? ==>
        && |dst| == (if off + n > old(icache)[inum].size then old(icache)[inum].size - off else n)
        && ReadBack(old(Cur())[inum], old(data), off, dst)
      ensures trans && r.Panicked? ==> Full(owner) || old(icache)[inum].size > MAXFILE * BSIZE
      // without an outstanding operation nothing changes, and holes are fatal
      ensures !trans ==> bitmap == old(bitmap) && data == old(data) && icache == old(icache) && logged == old(logged)
      ensures !trans ==>
        var m := if off + n > old(icache)[inum].size then old(icache)[inum].size - off else n;
        r.Panicked? <==> !r.Rejected? && HoleIn(old(icache)[inum], old(data), off, m)
      // a file without holes is only looked at
      ensures Backed(old(Cur())[inum], old(data)) ==>
        !r.Panicked? && bitmap == old(bitmap) && data == old(data) && icache == old(icache) && logged == old(logged)
    {
      hide Slot, FileBlock, Owned, Marked, Inodes, NoneHeld, Full, Mapped, Current, Backed, ReadBack, Confined, HoleIn,
           Missing, Boundary, Recorded, Layout, Loggable;
      RecordedSelf(OnDisk(), logged, inodestart, bmapstart);
      CurrentAt(dinodes, icache, inum);
      OwnerLength(Cur(), data, owner, nmeta);
      MappedSelf(Cur(), data, inum);
      ReadNothing(Cur()[inum], data, off);
      dst := [];
      if off > icache[inum].size || (off + n) % 0x1_0000_0000 < off {
        return Rejected, dst;
      }
      var n1: nat := if off + n > icache[inum].size then icache[inum].size - off else n;
      ghost var cur, was := Cur(), data;
      var tot: nat := 0;
      NoHoleYet(icache[inum], data, off);
      while tot < n1
        invariant tot <= n1 && Boundary(off, tot, n1) && |dst| == tot
        invariant !HoleIn(cur[inum], was, off, tot) || trans
        invariant Settled() && |data| == |was| && Logs(old(OnDisk()), old(logged))
        invariant inum in icache && icache[inum].Ok() && Cur()[inum] == icache[inum]
        invariant Mapped(cur, was, Cur(), data, inum)
        invariant ReadBack(cur[inum], was, off, dst)
        invariant !trans || Backed(cur[inum], was) ==>
          bitmap == old(bitmap) && data == old(data) && icache == old(icache) && logged == old(logged)
      {
        var o := (off + tot) % BSIZE;
        var m := if n1 - tot < BSIZE - o then n1 - tot else BSIZE - o;
        ReadStep(off, tot, n1, m);
        BackedBlock(cur[inum], was, off, tot, n1);
        HoleStep(cur[inum], was, off, tot, n1, m);
        ghost var cur1, data1, v, logged1 := Cur(), data, OnDisk(), logged;
        var addr := FetchBlock(inum, (off + tot) / BSIZE, trans);
        RecordedThen(old(OnDisk()), v, OnDisk(), logged1, logged, inodestart, bmapstart);
        MappedThen(cur, was, cur1, data1, Cur(), data, inum);
        if addr.None? {
          return Panicked, dst;
        }
        ReadBackStep(cur, was, Cur(), data, inum, off, dst, addr.value, m);
        dst := dst + data[addr.value][o..o + m];
        tot := tot + m;
      }
      r := Done;
    }

    /** bmap in readi, with the panic of log_write. */
    method FetchBlock(inum: nat, bn: nat, trans: bool) returns (r: Option<Word>)
      requires Settled() && inum in icache && icache[inum].Ok()
      modifies this`bitmap, this`data, this`owner, this`logged, this`icache
      ensures Logs(old(OnDisk()), old(logged))
      ensures Settled() && |data| == |old(data)|
      ensures inum in icache && icache[inum].Ok() && Cur()[inum] == icache[inum]
      ensures Mapped(old(Cur()), old(data), Cur(), data, inum)
      ensures !trans || !Missing(old(icache)[inum], old(data), bn) ==>
        bitmap == old(bitmap) && data == old(data) && icache == old(icache) && logged == old(logged)
        && (r.None? <==> Missing(old(icache)[inum], old(data), bn))
      ensures r.None? && trans ==> bn >= MAXFILE || Full(owner)
      ensures r.Some? ==> bn < MAXFILE && Slot(Cur()[inum], data, DataSlot(bn)) == r.value && 0 < r.value < |data|
    {
      hide Slot, FileBlock, Owned, Marked, Inodes, NoneHeld, Full, Mapped, Current, Confined, Recorded, Layout,
           Loggable;
      RecordedSelf(OnDisk(), logged, inodestart, bmapstart);
      CurrentAt(dinodes, icache, inum);
      OwnerLength(Cur(), data, owner, nmeta);
      MappedSelf(Cur(), data, inum);
      if !trans && Missing(icache[inum], data, bn) {
        return None;
      }
      ghost var maps;
      r, maps := Bmap(inum, bn);
      CurrentAt(dinodes, icache, inum);
    }

    /** Clear a block's bit; false is the panic "freeing free block". */
    method Bfree(b: Word) returns (ok: bool)
      requires b < |owner| == |data| && Marked(bitmap, owner) && Loggable(logged, logstart, nlog, |data|)
      requires Layout(nmeta, logstart, nlog, inodestart, bmapstart, |dinodes|, |data|)
      modifies this`bitmap, this`owner, this`logged
      ensures Logs(old(OnDisk()), old(logged))
      ensures Marked(bitmap, owner) && Loggable(logged, logstart, nlog, |data|)
      ensures ok == (old(owner)[b] != Free)
      ensures owner == if ok then old(owner)[b := Free] else old(owner)
      ensures logged == if ok then old(logged) + {bmapstart + b / BPB} else old(logged)
    {
      LogMeta(logged, nmeta, logstart, nlog, inodestart, bmapstart, |dinodes|, |data|);
      hide TestMask, AndNotMask, Recorded, Layout, Loggable;
      RecordedSelf(OnDisk(), logged, inodestart, bmapstart);
      if !TestMask(bitmap[b / 8], b % 8) {
        assert !Bit(bitmap, b);
        return false;
      }
      assert Bit(bitmap, b);
      MarkUsed(bitmap, owner, b);
      RecordedBit(OnDisk(), ClearBit(bitmap, b), b, logged + {bmapstart + b / BPB}, inodestart, bmapstart);
      bitmap := ClearBit(bitmap, b);
      owner := owner[b := Free];
      logged := logged + {bmapstart + b / BPB};
      ok := true;
    }

    /** Discard the contents of an inode. No block is freed twice, so there is no way to
        reach the panic in bfree. */
    method Itrunc(inum: nat)
      requires Settled() && inum in icache && icache[inum].Ok()
      modifies this`bitmap, this`owner, this`logged, this`icache, this`dinodes
      ensures Logs(old(OnDisk()), old(logged))
      ensures Settled()
      ensures Released(old(owner), owner, inum, 0, SLOTS, Free)
      ensures Emptied(old(Cur()), Cur(), data, inum, 0, SLOTS)
      ensures inum in icache && icache == old(icache)[inum := icache[inum]]
      ensures icache[inum].size == 0 && icache[inum].typ == old(icache)[inum].typ
      ensures dinodes == old(dinodes)[inum := icache[inum]]
      ensures icache[inum].Ok() && Cur()[inum] == icache[inum] && Tight(icache[inum], data)
    {
      hide Slot, Owned, Marked, Released, Emptied, NoneHeld, Tight, Recorded, Layout, Loggable;
      FreeDirect(inum);
      ghost var cur1, owner1 := Cur(), owner;
      if icache[inum].addrs[INDIRECT] != 0 {
        ghost var v, logged1 := OnDisk(), logged;
        FreeIndirect(inum);
        RecordedThen(old(OnDisk()), v, OnDisk(), logged1, logged, inodestart, bmapstart);
      } else {
        NothingIndirect(Cur(), data, owner, nmeta, inum, icache[inum]);
      }
      EmptiedThen(old(Cur()), cur1, Cur(), data, inum);
      ReleasedThen(old(owner), owner1, owner, inum);
      ReleasedNoneHeld(old(owner), owner, inum);
      ghost var cur2 := Cur();
      ghost var v, logged1 := OnDisk(), logged;
      GrowSize(inum, 0);
      RecordedThen(old(OnDisk()), v, OnDisk(), logged1, logged, inodestart, bmapstart);
      EmptiedSame(old(Cur()), cur2, Cur(), data, inum);
      CurrentAt(dinodes, icache, inum);
      EmptyTight(old(Cur()), Cur(), data, inum);
    }

    method FreeDirect(inum: nat)
      requires Valid() && inum in icache && icache[inum].Ok()
      modifies this`bitmap, this`owner, this`logged, this`icache
      ensures Logs(old(OnDisk()), old(logged))
      ensures Valid()
      ensures Released(old(owner), owner, inum, 0, NDIRECT, Free)
      ensures Emptied(old(Cur()), Cur(), data, inum, 0, NDIRECT)
      ensures inum in icache && icache[inum].Ok() && icache == old(icache)[inum := icache[inum]]
      ensures icache[inum] == old(icache)[inum].(addrs := icache[inum].addrs)
    {
      hide Slot, Owned, Marked, Released, Emptied, Current, Recorded, Layout, Loggable;
      RecordedSelf(OnDisk(), logged, inodestart, bmapstart);
      ghost var cur, was := Cur(), owner;
      OwnerLength(cur, data, owner, nmeta);
      EmptiedStart(cur, data, owner, nmeta, inum);
      for i := 0 to NDIRECT
        invariant Valid() && |owner| == |data| && Logs(old(OnDisk()), old(logged))
        invariant Released(was, owner, inum, 0, i, Free)
        invariant Emptied(cur, Cur(), data, inum, 0, i)
        invariant inum in icache && icache[inum].Ok() && icache == old(icache)[inum := icache[inum]]
        invariant icache[inum] == old(icache)[inum].(addrs := icache[inum].addrs)
      {
        var b := icache[inum].addrs[i];
        ghost var cur1, owner1 := Cur(), owner;
        CurrentAt(dinodes, icache, inum);
        if b != 0 {
          EmptyOne(cur1, data, owner1, nmeta, inum, i);
          var ip := icache[inum].(addrs := icache[inum].addrs[i := 0]);
          CurrentUpdate(dinodes, icache, inum, ip);
          ghost var v, logged1 := OnDisk(), logged;
          var ok := Bfree(b);
          RecordedThen(old(OnDisk()), v, OnDisk(), logged1, logged, inodestart, bmapstart);
          assert ok;
          icache := icache[inum := ip];
        } else {
          EmptyNone(cur1, data, owner1, nmeta, inum, i);
        }
        EmptiedMore(cur, cur1, Cur(), data, inum, i);
        ReleasedMore(was, owner1, owner, inum, i);
      }
    }

    method FreeIndirect(inum: nat)
      requires Valid() && inum in icache && icache[inum].Ok() && icache[inum].addrs[INDIRECT] != 0
      modifies this`bitmap, this`owner, this`logged, this`icache
      ensures Logs(old(OnDisk()), old(logged))
      ensures Valid()
      ensures Released(old(owner), owner, inum, INDIRECT, SLOTS, Free)
      ensures Emptied(old(Cur()), Cur(), data, inum, INDIRECT, SLOTS)
      ensures inum in icache && icache[inum].Ok() && icache == old(icache)[inum := icache[inum]]
      ensures icache[inum] == old(icache)[inum].(addrs := icache[inum].addrs)
    {
      hide Slot, Owned, Marked, Freeing, Emptied, Current, Released, Recorded, Layout, Loggable;
      RecordedSelf(OnDisk(), logged, inodestart, bmapstart);
      var ind := icache[inum].addrs[INDIRECT];
      ghost var cur := Cur();
      CurrentAt(dinodes, icache, inum);
      OwnerLength(cur, data, owner, nmeta);
      FreeingStart(cur, data, owner, nmeta, inum);
      var ip := icache[inum].(addrs := icache[inum].addrs[INDIRECT := 0]);
      CurrentUpdate(dinodes, icache, inum, ip);
      var a := data[ind];
      for j := 0 to NINDIRECT
        invariant Marked(bitmap, owner) && Freeing(old(owner), owner, inum, j) && |owner| == |data|
        invariant Loggable(logged, logstart, nlog, |data|)
        invariant icache == old(icache) && Logs(old(OnDisk()), old(logged))
      {
        var b := GetWord(a, j);
        FreeingStep(cur, data, old(owner), owner, nmeta, inum, j);
        if b != 0 {
          ghost var v, logged1 := OnDisk(), logged;
          var ok := Bfree(b);
          RecordedThen(old(OnDisk()), v, OnDisk(), logged1, logged, inodestart, bmapstart);
          assert ok;
        }
      }
      FreeingEnd(cur, data, old(owner), owner, nmeta, inum);
      ghost var v, logged1 := OnDisk(), logged;
      var ok := Bfree(ind);
      RecordedThen(old(OnDisk()), v, OnDisk(), logged1, logged, inodestart, bmapstart);
      assert ok;
      icache := icache[inum := ip];
    }

    /** sys_trim: set the size to the file offset, in memory and on disk. */
    method Trim(inum: nat, off: Word)
      requires Settled() && inum in icache && icache[inum].Ok()
      modifies this`icache, this`dinodes, this`logged
      ensures Logs(old(OnDisk()), old(logged))
      ensures Settled()
      ensures icache == old(icache)[inum := old(icache)[inum].(size := off)]
      ensures dinodes == old(dinodes)[inum := icache[inum]]
      ensures SameFiles(old(Cur()), data, Cur(), data)
      // every block below the size is allocated exactly if the size does not pass the first hole
      ensures Backed(Cur()[inum], data) <==> off <= FirstHole(old(Cur())[inum], data, 0) * BSIZE
      // of a file with exactly its first m blocks, this is the end of those blocks
      ensures forall m: nat | Dense(old(Cur())[inum], data, m) ::
                && (Backed(Cur()[inum], data) <==> off <= m * BSIZE)
                && (Dense(Cur()[inum], data, m) <==> off <= m * BSIZE)
    {
      hide Slot, Owned, Marked, NoneHeld, Dense, Recorded, Layout, Loggable, FirstHole, Backed;
      CurrentAt(dinodes, icache, inum);
      OwnerLength(Cur(), data, owner, nmeta);
      ghost var cur := Cur();
      GrowSize(inum, off);
      SlotsToFiles(cur, Cur(), data);
      CurrentAt(dinodes, icache, inum);
      TrimExact(cur[inum], Cur()[inum], data);
    }

    /** writei's loop. */
    method WriteExtent(inum: nat, src: seq<Byte>, off: Word) returns (ok: bool, ghost ds: set<nat>, ghost ms: set<nat>)
      requires Settled() && inum in icache && icache[inum].Ok()
      requires off <= icache[inum].size && off + |src| <= MAXFILE * BSIZE
      modifies this`bitmap, this`data, this`owner, this`logged, this`icache
      ensures Logs(old(OnDisk()), old(logged))
      ensures Settled() && |data| == |old(data)|
      ensures inum in icache && icache == old(icache)[inum := icache[inum]] && icache[inum].Ok()
      ensures icache[inum] == old(icache)[inum].(addrs := icache[inum].addrs)
      ensures Kept(old(Cur()), old(data), Cur(), data, inum)
      ensures ok <==>
        Lacking(old(Cur())[inum], old(data), off / BSIZE, off / BSIZE + Span(off, |src|)) <= |FreeBlocks(old(owner))|
      ensures !ok ==> Full(owner)
      ensures ok ==>
        && Written(old(Cur()), old(data), Cur(), data, inum, off, src, |src|)
        && Accounted(old(logged), logged, ds, ms, old(Cur())[inum], old(data), Cur()[inum], off, |src|)
        && ms <= BitmapArea(bmapstart, |data|)
        && |FreeBlocks(owner)| + Lacking(old(Cur())[inum], old(data), off / BSIZE, off / BSIZE + Span(off, |src|))
           == |FreeBlocks(old(owner))|
    {
      hide Slot, FileBlock, Owned, Marked, Written, Accounted, Kept, Inodes, Current, ChunkWritten, NoneHeld, Full,
           InChunk, Recorded, Layout, Loggable, FreeBlocks, Lacking, BitmapArea;
      RecordedSelf(OnDisk(), logged, inodestart, bmapstart);
      var n := |src|;
      ghost var cur, was := Cur(), data;
      CurrentAt(dinodes, icache, inum);
      SlotsOf(cur, was, owner, nmeta, inum, 0);
      WrittenStart(cur, was, logged, inum, off, src);
      var tot: nat := 0;
      ds, ms := {}, {};
      while tot < n
        invariant tot <= n && Boundary(off, tot, n)
        invariant Settled() && |data| == |was| && Logs(old(OnDisk()), old(logged))
        invariant inum in icache && icache == old(icache)[inum := icache[inum]] && icache[inum].Ok()
        invariant icache[inum] == old(icache)[inum].(addrs := icache[inum].addrs)
        invariant Cur()[inum] == icache[inum]
        invariant Kept(cur, was, Cur(), data, inum)
        invariant Written(cur, was, Cur(), data, inum, off, src, tot)
        invariant Accounted(old(logged), logged, ds, ms, cur[inum], was, Cur()[inum], off, tot)
        invariant ms <= BitmapArea(bmapstart, |data|)
        invariant |FreeBlocks(owner)| + Lacking(cur[inum], was, off / BSIZE, off / BSIZE + Span(off, tot))
               == |FreeBlocks(old(owner))|
      {
        var o := (off + tot) % BSIZE;
        var m := if n - tot < BSIZE - o then n - tot else BSIZE - o;
        var bn := (off + tot) / BSIZE;
        BoundaryStep(off, tot, n, m);
        LackingStep(cur, was, Cur(), data, inum, off, src, tot, m);
        LackingGrows(cur[inum], was, off, tot + m, n);
        ghost var cur1, data1, logged1, v := Cur(), data, logged, OnDisk();
        var addr, maps := WriteBlock(inum, bn, o, src, tot, m);
        RecordedThen(old(OnDisk()), v, OnDisk(), logged1, logged, inodestart, bmapstart);
        KeptTrans(cur, was, cur1, data1, Cur(), data, inum);
        if addr.None? {
          return false, ds, ms;
        }
        CurrentAt(dinodes, icache, inum);
        WrittenStep(cur, was, cur1, data1, logged1, Cur(), data, logged, inum, off, src, tot, m, addr.value, maps);
        AccountedStep(old(logged), ds, ms, cur, was, cur1, data1, logged1, Cur(), data, logged, inum, off, src, tot, m,
                      addr.value, maps);
        ds, ms := ds + {addr.value}, ms + maps;
        tot := tot + m;
      }
      ok := true;
    }
  }

  lemma LackingGrows(ip: Inode, data: Blocks, off: nat, tot: nat, n: nat)
    requires ip.Ok() && tot <= n
    ensures Lacking(ip, data, off / BSIZE, off / BSIZE + Span(off, tot))
         <= Lacking(ip, data, off / BSIZE, off / BSIZE + Span(off, n))
  {
    hide Lacking;
    assert Span(off, tot) <= Span(off, n);
    LackingMore(ip, data, off / BSIZE, off / BSIZE + Span(off, tot), off / BSIZE + Span(off, n));
  }

  /** One turn of the loop: block `bn` of inode `i` is mapped to `addr` and patched, the
      bitmap blocks `maps` were logged for what had to be allocated. */
  ghost predicate ChunkWritten(cur: seq<Inode>, data: Blocks, logged: set<nat>, cur': seq<Inode>, data': Blocks,
                               logged': set<nat>,
                               i: nat, bn: nat, o: nat, src: seq<Byte>, tot: nat, m: nat, addr: Word, maps: set<nat>) {
    && Kept(cur, data, cur', data', i) && bn < MAXFILE && o + m <= BSIZE && tot + m <= |src|
    && Slot(cur'[i], data', DataSlot(bn)) != 0 && cur'[i].addrs[AddrIndex(bn)] != 0
    && Confined(cur[i], data, cur'[i], data', bn, bn + 1)
    && (cur[i].addrs[AddrIndex(bn)] != 0 ==> cur'[i] == cur[i])
    && FileBlockSet(cur, data, cur', data', i, bn, Patched(FileBlock(cur[i], data, bn), o, src, tot, m))
    && logged' <= logged + maps + {addr} + Indirect(cur'[i])
    && |maps| <= Lacking(cur[i], data, bn, bn + 1)
  }

  /** bmap, then a copy into the mapped block. */
  lemma PatchChunk(cur: seq<Inode>, was: Blocks, logged0: set<nat>, cur': seq<Inode>, mid: Blocks, logged: set<nat>,
                   owner: seq<Owner>, nmeta: nat, i: nat, bn: nat, o: nat, src: seq<Byte>, tot: nat, m: nat,
                   addr: Word, maps: set<nat>)
    requires Mapped(cur, was, cur', mid, i) && Owned(cur', mid, owner, nmeta)
    requires bn < MAXFILE && Slot(cur'[i], mid, DataSlot(bn)) == addr && 0 < addr < |mid|
    requires o + m <= BSIZE && tot + m <= |src| && Confined(cur[i], was, cur'[i], mid, bn, bn + 1)
    requires cur'[i].addrs[AddrIndex(bn)] != 0 && (cur[i].addrs[AddrIndex(bn)] != 0 ==> cur'[i] == cur[i])
    requires logged <= logged0 + maps + {addr} + Indirect(cur'[i])
    requires |maps| <= Lacking(cur[i], was, bn, bn + 1)
    ensures var data := mid[addr := Patched(mid[addr], o, src, tot, m)];
            && Owned(cur', data, owner, nmeta)
            && Kept(cur, was, cur', data, i)
            && ChunkWritten(cur, was, logged0, cur', data, logged + {addr}, i, bn, o, src, tot, m, addr, maps)
  {
    hide GetWord, SameSlots, FileBlockSet, Grown, Confined, Lacking;
    var x := Patched(mid[addr], o, src, tot, m);
    var data := mid[addr := x];
    assert owner[addr] == Of(i, DataSlot(bn));
    DataUpdateSlots(cur', mid, owner, nmeta, addr, x);
    DataUpdateFiles(cur', mid, owner, nmeta, i, bn, x);
    MappedKept(cur, was, cur', mid, i);
    KeptThen(cur, was, cur', mid, data, i);
    FilesThenBlock(cur, was, cur', mid, data, i, bn, x);
    SameAt(cur, was, cur', mid, data, i, bn);
    SlotsConfined(cur', mid, data, i);
    ConfinedThen(cur[i], was, cur'[i], mid, cur'[i], data, bn, bn + 1, 0, 0);
  }

  lemma ConfinedSelf(ip: Inode, data: Blocks, lo: nat, hi: nat)
    requires ip.Ok()
    ensures Confined(ip, data, ip, data, lo, hi)
  {
    hide Slot;
  }

  lemma SlotConfined(ip: Inode, data: Blocks, ip': Inode, data': Blocks, k: nat, bn: nat)
    requires ip.Ok() && ip'.Ok() && forall l | 0 <= l < SLOTS && l != k :: Slot(ip', data', l) == Slot(ip, data, l)
    requires bn < MAXFILE && (if k == INDIRECT then bn >= NDIRECT else k == DataSlot(bn))
    ensures Confined(ip, data, ip', data', bn, bn + 1)
  {
    assert k != INDIRECT ==> Slot(ip', data', INDIRECT) == Slot(ip, data, INDIRECT);
    hide Slot;
  }

  lemma SlotsConfined(cur: seq<Inode>, data: Blocks, data': Blocks, i: nat)
    requires SameSlots(cur, data, cur, data') && i < |cur|
    ensures Confined(cur[i], data, cur[i], data', 0, 0)
  {
    hide Slot;
  }

  lemma ConfinedThen(ip: Inode, data: Blocks, ip1: Inode, data1: Blocks, ip2: Inode, data2: Blocks,
                     lo: nat, hi: nat, lo': nat, hi': nat)
    requires Confined(ip, data, ip1, data1, lo, hi) && Confined(ip1, data1, ip2, data2, lo', hi')
    ensures forall a: nat, b: nat | (lo < hi ==> a <= lo && hi <= b) && (lo' < hi' ==> a <= lo' && hi' <= b) ::
              Confined(ip, data, ip2, data2, a, b)
  {
    hide Slot;
  }

  lemma SameAt(cur: seq<Inode>, was: Blocks, cur': seq<Inode>, mid: Blocks, data: Blocks, i: nat, bn: nat)
    requires SameFiles(cur, was, cur', mid) && SameSlots(cur', mid, cur', data) && i < |cur| && bn < MAXFILE
    ensures FileBlock(cur'[i], mid, bn) == FileBlock(cur[i], was, bn)
    ensures Slot(cur'[i], data, DataSlot(bn)) == Slot(cur'[i], mid, DataSlot(bn))
  {
    hide Slot, FileBlock;
  }

  /** Between two turns the loop stands at its start, its end, or a block boundary. */
  predicate Boundary(off: nat, tot: nat, n: nat) {
    tot == 0 || tot == n || (off + tot) % BSIZE == 0
  }

  /** The next `m` bytes lie in one block. */
  predicate InChunk(off: nat, tot: nat, m: nat) {
    && m > 0 && (off + tot) / BSIZE < MAXFILE && (off + tot) % BSIZE + m <= BSIZE
    && (tot == 0 || (off + tot) % BSIZE == 0)
  }

  lemma BoundaryStep(off: nat, tot: nat, n: nat, m: nat)
    requires tot < n && Boundary(off, tot, n) && off + n <= MAXFILE * BSIZE
    requires m == if n - tot < BSIZE - (off + tot) % BSIZE then n - tot else BSIZE - (off + tot) % BSIZE
    ensures InChunk(off, tot, m) && tot + m <= n && Boundary(off, tot + m, n)
    ensures 0 < m && (off + tot) / BSIZE < MAXFILE && (off + tot) % BSIZE + m <= BSIZE
  {
  }

  /** What `tot` bytes of writei's loop have done to the files. */
  ghost predicate Written(cur: seq<Inode>, was: Blocks, cur': seq<Inode>, data: Blocks, i: nat,
                          off: nat, src: seq<Byte>, tot: nat) {
    && Kept(cur, was, cur', data, i)
    && Overlaid(cur, was, cur', data, i, off, src, tot)
    && Reached(cur'[i], data, off, tot)
    && Confined(cur[i], was, cur'[i], data, off / BSIZE, off / BSIZE + Span(off, tot))
    && (Addressed(cur[i], off, tot) ==> cur'[i] == cur[i])
  }

  /** What `tot` bytes of writei's loop have logged: data blocks `ds`, bitmap blocks `ms`,
      and the indirect block. */
  ghost predicate Accounted(logged0: set<nat>, logged: set<nat>, ds: set<nat>, ms: set<nat>,
                            ip: Inode, was: Blocks, ip': Inode, off: nat, tot: nat) {
    && ip.Ok() && ip'.Ok()
    && logged <= logged0 + ds + ms + Indirect(ip')
    && |ds| <= Span(off, tot) && |ms| <= Lacking(ip, was, off / BSIZE, off / BSIZE + Span(off, tot))
  }

  lemma WrittenStart(cur: seq<Inode>, data: Blocks, logged: set<nat>, i: nat, off: nat, src: seq<Byte>)
    requires Inodes(cur) && i < |cur|
    ensures Kept(cur, data, cur, data, i)
    ensures Written(cur, data, cur, data, i, off, src, 0)
    ensures Accounted(logged, logged, {}, {}, cur[i], data, cur[i], off, 0)
    ensures Lacking(cur[i], data, off / BSIZE, off / BSIZE + Span(off, 0)) == 0
  {
    hide Slot, FileBlock, Lacking;
    LackingNone(cur[i], data, off / BSIZE);
  }

  lemma WrittenStep(cur: seq<Inode>, was: Blocks, cur1: seq<Inode>, data1: Blocks, logged1: set<nat>,
                    cur2: seq<Inode>, data2: Blocks, logged2: set<nat>, i: nat, off: nat, src: seq<Byte>, tot: nat,
                    m: nat, addr: Word, maps: set<nat>)
    requires Written(cur, was, cur1, data1, i, off, src, tot) && InChunk(off, tot, m)
    requires ChunkWritten(cur1, data1, logged1, cur2, data2, logged2, i, (off + tot) / BSIZE, (off + tot) % BSIZE,
                          src, tot, m, addr, maps)
    ensures Written(cur, was, cur2, data2, i, off, src, tot + m)
  {
    hide Slot, FileBlock, Span, Overlaid, Reached, Grown, Patched, Confined;
    SpanStep(off, tot, m);
    ConfinedThen(cur[i], was, cur1[i], data1, cur2[i], data2,
                 off / BSIZE, off / BSIZE + Span(off, tot), (off + tot) / BSIZE, (off + tot) / BSIZE + 1);
    KeptTrans(cur, was, cur1, data1, cur2, data2, i);
    OverlayStep(cur, was, cur1, data1, cur2, data2, i, off, src, tot, m);
    ReachedStep(cur1[i], data1, cur2[i], data2, off, tot, m);
    AddressedStep(cur[i], off, tot, m);
  }

  lemma AccountedStep(logged0: set<nat>, ds: set<nat>, ms: set<nat>, cur: seq<Inode>, was: Blocks,
                      cur1: seq<Inode>, data1: Blocks, logged1: set<nat>, cur2: seq<Inode>, data2: Blocks,
                      logged2: set<nat>, i: nat, off: nat, src: seq<Byte>, tot: nat, m: nat, addr: Word, maps: set<nat>)
    requires Written(cur, was, cur1, data1, i, off, src, tot) && InChunk(off, tot, m)
    requires Accounted(logged0, logged1, ds, ms, cur[i], was, cur1[i], off, tot)
    requires ChunkWritten(cur1, data1, logged1, cur2, data2, logged2, i, (off + tot) / BSIZE, (off + tot) % BSIZE,
                          src, tot, m, addr, maps)
    ensures Accounted(logged0, logged2, ds + {addr}, ms + maps, cur[i], was, cur2[i], off, tot + m)
    ensures var lo, bn := off / BSIZE, (off + tot) / BSIZE;
            Lacking(cur[i], was, lo, lo + Span(off, tot + m))
            == Lacking(cur[i], was, lo, lo + Span(off, tot)) + Lacking(cur1[i], data1, bn, bn + 1)
  {
    hide Slot, Span, FileBlock, FileBlockSet, Patched, Lacking, Confined, Overlaid, Reached, Addressed, Indirect;
    SpanStep(off, tot, m);
    UnionCard(ds, {addr});
    UnionCard(ms, maps);
    LackingStep(cur, was, cur1, data1, i, off, src, tot, m);
    IndirectKept(cur1, data1, cur2, data2, i);
    LoggedMore(logged0, logged1, logged2, ds, ms, addr, maps, Indirect(cur1[i]), Indirect(cur2[i]));
  }

  lemma IndirectKept(cur: seq<Inode>, data: Blocks, cur': seq<Inode>, data': Blocks, i: nat)
    requires Kept(cur, data, cur', data', i)
    ensures Indirect(cur[i]) <= Indirect(cur'[i])
  {
    assert Slot(cur[i], data, INDIRECT) == cur[i].addrs[INDIRECT];
    assert Slot(cur'[i], data', INDIRECT) == cur'[i].addrs[INDIRECT];
  }

  lemma LoggedMore(logged0: set<nat>, logged1: set<nat>, logged2: set<nat>, ds: set<nat>, ms: set<nat>, addr: nat,
                   maps: set<nat>, ind: set<nat>, ind': set<nat>)
    requires logged1 <= logged0 + ds + ms + ind && logged2 <= logged1 + maps + {addr} + ind' && ind <= ind'
    ensures logged2 <= logged0 + (ds + {addr}) + (ms + maps) + ind'
  {
  }

  /** What the loop has done so far, said of the blocks it has passed. */
  lemma WrittenExtended(ip: Inode, data: Blocks, ip': Inode, data': Blocks, off: nat, n: nat)
    requires Grown(ip, data, ip', data') && Reached(ip', data', off, n) && off + n <= MAXFILE * BSIZE
    requires Confined(ip, data, ip', data', off / BSIZE, off / BSIZE + Span(off, n))
    ensures Extended(ip, data, ip', data', off / BSIZE, off / BSIZE + Span(off, n))
  {
    assert Slot(ip, data, INDIRECT) == ip.addrs[INDIRECT] && Slot(ip', data', INDIRECT) == ip'.addrs[INDIRECT];
    hide Slot;
    var lo, hi := off / BSIZE, off / BSIZE + Span(off, n);
    if Indirectly(lo, hi) {
      assert lo <= hi - 1 < MAXFILE && ip'.addrs[AddrIndex(hi - 1)] != 0;
    }
  }

  lemma LackingStep(cur: seq<Inode>, was: Blocks, cur1: seq<Inode>, data1: Blocks, i: nat, off: nat, src: seq<Byte>,
                    tot: nat, m: nat)
    requires Written(cur, was, cur1, data1, i, off, src, tot) && InChunk(off, tot, m)
    ensures var lo, bn := off / BSIZE, (off + tot) / BSIZE;
            Lacking(cur[i], was, lo, lo + Span(off, tot + m))
            == Lacking(cur[i], was, lo, lo + Span(off, tot)) + Lacking(cur1[i], data1, bn, bn + 1)
  {
    hide Lacking, Overlaid, Addressed, Slot, Reached, Confined;
    GrownOf(cur, was, cur1, data1, i);
    assert off + tot <= MAXFILE * BSIZE;
    WrittenExtended(cur[i], was, cur1[i], data1, off, tot);
    SpanStep(off, tot, m);
    var hi := off / BSIZE + Span(off, tot);
    LackingRest(cur[i], was, cur1[i], data1, off / BSIZE, hi, hi, hi + 1);
  }

  lemma GrownOf(cur: seq<Inode>, data: Blocks, cur': seq<Inode>, data': Blocks, i: nat)
    requires Kept(cur, data, cur', data', i)
    ensures Grown(cur[i], data, cur'[i], data')
  {
  }

  lemma AddressedStep(ip: Inode, off: nat, tot: nat, m: nat)
    requires m > 0 && (off + tot) % BSIZE + m <= BSIZE && (tot == 0 || (off + tot) % BSIZE == 0)
    requires (off + tot) / BSIZE < MAXFILE
    ensures Addressed(ip, off, tot + m) <==> Addressed(ip, off, tot) && ip.addrs[AddrIndex((off + tot) / BSIZE)] != 0
  {
    hide Span;
    SpanStep(off, tot, m);
  }

  /** Addresses were added exactly if some were missing. */
  lemma AddressedSame(ip: Inode, ip': Inode, data: Blocks, off: nat, n: nat)
    requires ip.Ok() && ip'.Ok() && (Addressed(ip, off, n) ==> ip' == ip) && Reached(ip', data, off, n)
    ensures ip' == ip <==> Addressed(ip, off, n)
  {
    hide Slot;
  }

  /** A file without holes has every address that an overwrite needs. */
  lemma BackedAddressed(ip: Inode, data: Blocks, off: nat, n: nat)
    requires ip.Ok() && off + n <= MAXFILE * BSIZE
    ensures Backed(ip, data) && off + n <= ip.size ==> Addressed(ip, off, n)
  {
    if Backed(ip, data) && off + n <= ip.size {
      forall bn | off / BSIZE <= bn < MAXFILE && bn < off / BSIZE + Span(off, n)
        ensures ip.addrs[AddrIndex(bn)] != 0
      {
        assert bn * BSIZE < ip.size;
        assert Slot(ip, data, DataSlot(bn)) != 0;
      }
    }
  }

  /** Changing the size moves no block. */
  lemma Resized(ip1: Inode, ip2: Inode, ip: Inode, data: Blocks, data': Blocks, off: nat, n: nat)
    requires ip1.Ok() && ip2 == ip1.(size := ip2.size)
    requires Grown(ip, data, ip1, data') && Reached(ip1, data', off, n)
    requires Confined(ip, data, ip1, data', off / BSIZE, off / BSIZE + Span(off, n))
    ensures Grown(ip, data, ip2, data') && Reached(ip2, data', off, n)
    ensures Confined(ip, data, ip2, data', off / BSIZE, off / BSIZE + Span(off, n))
  {
    hide Span;
    SizeSlots(ip1, ip2, data');
    hide Slot;
  }

  lemma SizeSlots(ip: Inode, ip': Inode, data: Blocks)
    requires ip.Ok() && ip' == ip.(size := ip'.size)
    ensures forall k | 0 <= k < SLOTS :: Slot(ip', data, k) == Slot(ip, data, k)
  {
    hide GetWord;
  }

  /** How many blocks a dense file has after a write. */
  function DenseAfter(m: nat, off: nat, n: nat): (m': nat) {
    if n > 0 && m < off / BSIZE + Span(off, n) then off / BSIZE + Span(off, n) else m
  }

  /** A write at or below the size leaves no gap. */
  lemma DenseWritten(ip: Inode, data: Blocks, ip': Inode, data': Blocks, off: nat, n: nat, m: nat)
    requires Extended(ip, data, ip', data', off / BSIZE, off / BSIZE + Span(off, n)) && off <= ip.size
    requires ip'.size == if off + n > ip.size then off + n else ip.size
    requires off + n <= MAXFILE * BSIZE && Dense(ip, data, m)
    ensures Dense(ip', data', DenseAfter(m, off, n))
  {
    hide Slot;
    assert off / BSIZE <= m;
  }

  lemma TightAfter(ip: Inode, data: Blocks, ip': Inode, data': Blocks, off: nat, n: nat)
    requires Extended(ip, data, ip', data', off / BSIZE, off / BSIZE + Span(off, n)) && off <= ip.size
    requires ip'.size == if off + n > ip.size then off + n else ip.size
    requires off + n <= MAXFILE * BSIZE
    ensures Tight(ip, data) ==> Tight(ip', data')
  {
    hide Dense, Slot;
    if Tight(ip, data) {
      DenseWritten(ip, data, ip', data', off, n, (ip.size + BSIZE - 1) / BSIZE);
      assert DenseAfter((ip.size + BSIZE - 1) / BSIZE, off, n) == (ip'.size + BSIZE - 1) / BSIZE;
    }
  }

  lemma AllDenseAfter(ip: Inode, data: Blocks, ip': Inode, data': Blocks, off: nat, n: nat)
    requires Extended(ip, data, ip', data', off / BSIZE, off / BSIZE + Span(off, n)) && off <= ip.size
    requires ip'.size == if off + n > ip.size then off + n else ip.size
    requires off + n <= MAXFILE * BSIZE
    ensures forall m: nat | Dense(ip, data, m) :: Dense(ip', data', DenseAfter(m, off, n))
    ensures Tight(ip, data) ==> Tight(ip', data')
  {
    hide Dense, Slot, Tight, DenseAfter;
    forall m: nat | Dense(ip, data, m)
      ensures Dense(ip', data', DenseAfter(m, off, n))
    {
      DenseWritten(ip, data, ip', data', off, n, m);
    }
    TightAfter(ip, data, ip', data', off, n);
  }

  lemma AreaCard(ms: set<nat>, bmapstart: nat, size: nat)
    requires ms <= BitmapArea(bmapstart, size)
    ensures |ms| <= BitmapBlocks(size)
  {
    hide BitmapBlocks;
    SubsetCard(ms, BitmapArea(bmapstart, size));
  }

  lemma Regrown(cur: seq<Inode>, data: Blocks, cur1: seq<Inode>, cur2: seq<Inode>, data': Blocks, i: nat, off: nat,
                src: seq<Byte>)
    requires Kept(cur, data, cur1, data', i) && Overlaid(cur, data, cur1, data', i, off, src, |src|)
    requires SameSlots(cur1, data', cur2, data')
    ensures Kept(cur, data, cur2, data', i) && Overlaid(cur, data, cur2, data', i, off, src, |src|)
  {
    hide Slot;
    forall j, pos | 0 <= j < |cur| && 0 <= pos < MAXFILE * BSIZE
      ensures FileByte(cur2[j], data', pos) == FileByte(cur1[j], data', pos)
    {
      assert Slot(cur2[j], data', DataSlot(pos / BSIZE)) == Slot(cur1[j], data', DataSlot(pos / BSIZE));
    }
  }

  lemma BackedAfter(ip: Inode, data: Blocks, ip': Inode, data': Blocks, off: nat, n: nat)
    requires Grown(ip, data, ip', data') && Reached(ip', data', off, n) && off <= ip.size
    requires ip'.size == if off + n > ip.size then off + n else ip.size
    requires off + n <= MAXFILE * BSIZE
    ensures Backed(ip, data) ==> Backed(ip', data')
  {
    hide Slot;
    if Backed(ip, data) {
      forall bn | 0 <= bn < MAXFILE && bn * BSIZE < ip'.size
        ensures Slot(ip', data', DataSlot(bn)) != 0
      {
        if bn * BSIZE < ip.size {
          assert Slot(ip, data, DataSlot(bn)) != 0;
        } else {
          assert off / BSIZE <= bn < off / BSIZE + Span(off, n);
        }
      }
    }
  }

  lemma LogCount(before: set<nat>, after: set<nat>, ds: set<nat>, ms: set<nat>, ind: set<nat>, ino: set<nat>)
    requires after <= before + ds + ms + ind + ino
    ensures |after - before| <= |ds| + |ms| + |ind| + |ino|
  {
    SubsetCard(after - before, ds + ms + ind + ino);
    UnionCard(ds, ms);
    UnionCard(ds + ms, ind);
    UnionCard(ds + ms + ind, ino);
  }

  /** The size plays no part in ownership. */
  lemma ResizeOwned(cur: seq<Inode>, data: Blocks, owner: seq<Owner>, nmeta: nat, i: nat, size: Word)
    requires Owned(cur, data, owner, nmeta) && i < |cur|
    ensures var cur' := cur[i := cur[i].(size := size)];
            SameSlots(cur, data, cur', data) && Owned(cur', data, owner, nmeta)
  {
    var cur' := cur[i := cur[i].(size := size)];
    assert SameSlots(cur, data, cur', data);
    hide Slot;
  }

  // ----- truncating

  lemma SlotsToFiles(cur: seq<Inode>, cur': seq<Inode>, data: Blocks)
    requires SameSlots(cur, data, cur', data)
    ensures SameFiles(cur, data, cur', data)
  {
    hide Slot;
  }

  lemma DenseHole(ip: Inode, data: Blocks, m: nat)
    requires ip.Ok() && Dense(ip, data, m)
    ensures FirstHole(ip, data, 0) == m
  {
    hide Slot;
    var h := FirstHole(ip, data, 0);
    assert m < MAXFILE ==> Slot(ip, data, DataSlot(m)) == 0;
    assert h < MAXFILE ==> h >= m;
  }

  /** A file without a hole below its size has one as soon as the size passes the first
      block that is not allocated. */
  lemma TrimExact(ip: Inode, ip': Inode, data: Blocks)
    requires ip.Ok() && ip' == ip.(size := ip'.size)
    ensures Backed(ip', data) <==> ip'.size <= FirstHole(ip, data, 0) * BSIZE
    ensures forall m: nat | Dense(ip, data, m) ::
              (Backed(ip', data) <==> ip'.size <= m * BSIZE) && (Dense(ip', data, m) <==> ip'.size <= m * BSIZE)
  {
    SizeSlots(ip, ip', data);
    hide Slot;
    var h := FirstHole(ip, data, 0);
    if ip'.size > h * BSIZE && h < MAXFILE {
      assert Slot(ip', data, DataSlot(h)) == 0;
    }
    forall m: nat | Dense(ip, data, m)
      ensures h == m
      ensures Dense(ip', data, m) <==> ip'.size <= m * BSIZE
    {
      DenseHole(ip, data, m);
    }
  }

  /** An empty file that is trimmed to 1000 bytes has a hole. */
  lemma TrimmedHole(ip: Inode, data: Blocks)
    requires ip.Ok() && Tight(ip, data) && ip.size == 0
    ensures !Backed(ip.(size := 1000), data)
  {
    hide Slot, Dense, Backed;
    TrimExact(ip, ip.(size := 1000), data);
    assert Dense(ip, data, 0);
  }

  /** After such a trim, writing the first byte gives the inode an address that only the copy
      in memory has. */
  method TrimThenWrite(fs: FileSystem, inum: nat) returns (r: Outcome)
    requires fs.Settled() && inum in fs.icache && fs.icache[inum].Ok()
    requires fs.icache[inum].size == 0 && fs.icache[inum].addrs[0] == 0
    modifies fs
    ensures !r.Rejected?
    ensures r.Done? ==> inum in fs.icache && inum < |fs.dinodes| && fs.icache[inum] != fs.dinodes[inum]
  {
    fs.Trim(inum, 1000);
    assert AddrIndex(0) == 0 && Span(0, 1) == 1;
    assert !Addressed(fs.icache[inum], 0, 1);
    r := fs.Writei(inum, [0], 0);
  }

  lemma EmptyTight(cur: seq<Inode>, cur': seq<Inode>, data: Blocks, i: nat)
    requires Emptied(cur, cur', data, i, 0, SLOTS) && i < |cur'| && cur'[i].Ok() && cur'[i].size == 0
    ensures Tight(cur'[i], data)
  {
    hide Slot;
  }

  lemma EmptiedStart(cur: seq<Inode>, data: Blocks, owner: seq<Owner>, nmeta: nat, i: nat)
    requires Owned(cur, data, owner, nmeta)
    ensures Emptied(cur, cur, data, i, 0, 0) && Released(owner, owner, i, 0, 0, Free)
  {
    hide Slot;
  }

  /** Freeing the block at a direct address. */
  lemma EmptyOne(cur: seq<Inode>, data: Blocks, owner: seq<Owner>, nmeta: nat, i: nat, k: nat)
    requires Owned(cur, data, owner, nmeta) && i < |cur| && k < NDIRECT && cur[i].addrs[k] != 0
    ensures var b := cur[i].addrs[k];
            var cur' := cur[i := cur[i].(addrs := cur[i].addrs[k := 0])];
            && b < |owner| && owner[b] == Of(i, k)
            && Emptied(cur, cur', data, i, k, k + 1)
            && Released(owner, owner[b := Free], i, k, k + 1, Free)
            && Owned(cur', data, owner[b := Free], nmeta)
  {
    hide GetWord;
    var b := cur[i].addrs[k];
    assert Slot(cur[i], data, k) == b;
    EmptyAddr(cur, data, i, k);
    OneName(cur, data, owner, nmeta, i, k, b);
    EmptiedOwned(cur, cur[i := cur[i].(addrs := cur[i].addrs[k := 0])], data, owner, owner[b := Free], nmeta, i, k,
                 k + 1, Free);
  }

  lemma OneName(cur: seq<Inode>, data: Blocks, owner: seq<Owner>, nmeta: nat, i: nat, k: nat, b: Word)
    requires Owned(cur, data, owner, nmeta) && i < |cur| && k < SLOTS && Slot(cur[i], data, k) == b != 0
    ensures b < |owner| && Released(owner, owner[b := Free], i, k, k + 1, Free)
  {
    hide Slot;
  }

  lemma EmptyNone(cur: seq<Inode>, data: Blocks, owner: seq<Owner>, nmeta: nat, i: nat, k: nat)
    requires Owned(cur, data, owner, nmeta) && i < |cur| && k < NDIRECT && cur[i].addrs[k] == 0
    ensures Emptied(cur, cur, data, i, k, k + 1) && Released(owner, owner, i, k, k + 1, Free)
  {
    hide GetWord;
    assert Slot(cur[i], data, k) == 0;
  }

  lemma EmptiedMore(cur: seq<Inode>, cur1: seq<Inode>, cur2: seq<Inode>, data: Blocks, i: nat, k: nat)
    requires Emptied(cur, cur1, data, i, 0, k) && Emptied(cur1, cur2, data, i, k, k + 1)
    ensures Emptied(cur, cur2, data, i, 0, k + 1)
  {
    hide Slot;
    forall j, l | 0 <= j < |cur| && 0 <= l < SLOTS
      ensures Slot(cur2[j], data, l) == if j == i && 0 <= l < k + 1 then 0 else Slot(cur[j], data, l)
    {
      assert Slot(cur1[j], data, l) == if j == i && 0 <= l < k then 0 else Slot(cur[j], data, l);
    }
  }

  lemma ReleasedMore(owner: seq<Owner>, owner1: seq<Owner>, owner2: seq<Owner>, i: nat, k: nat)
    requires Released(owner, owner1, i, 0, k, Free) && Released(owner1, owner2, i, k, k + 1, Free)
    ensures Released(owner, owner2, i, 0, k + 1, Free)
  {
  }

  lemma EmptiedThen(cur: seq<Inode>, cur1: seq<Inode>, cur2: seq<Inode>, data: Blocks, i: nat)
    requires Emptied(cur, cur1, data, i, 0, NDIRECT) && Emptied(cur1, cur2, data, i, INDIRECT, SLOTS)
    ensures Emptied(cur, cur2, data, i, 0, SLOTS)
  {
    hide Slot;
    forall j, l | 0 <= j < |cur| && 0 <= l < SLOTS
      ensures Slot(cur2[j], data, l) == if j == i then 0 else Slot(cur[j], data, l)
    {
      assert Slot(cur1[j], data, l) == if j == i && 0 <= l < NDIRECT then 0 else Slot(cur[j], data, l);
    }
  }

  lemma EmptiedSame(cur: seq<Inode>, cur1: seq<Inode>, cur2: seq<Inode>, data: Blocks, i: nat)
    requires Emptied(cur, cur1, data, i, 0, SLOTS) && SameSlots(cur1, data, cur2, data)
    ensures Emptied(cur, cur2, data, i, 0, SLOTS)
  {
    hide Slot;
    forall j, l | 0 <= j < |cur| && 0 <= l < SLOTS
      ensures Slot(cur2[j], data, l) == if j == i then 0 else Slot(cur[j], data, l)
    {
      assert Slot(cur1[j], data, l) == if j == i && 0 <= l < SLOTS then 0 else Slot(cur[j], data, l);
    }
  }

  lemma ReleasedThen(owner: seq<Owner>, owner1: seq<Owner>, owner2: seq<Owner>, i: nat)
    requires Released(owner, owner1, i, 0, NDIRECT, Free) && Released(owner1, owner2, i, INDIRECT, SLOTS, Free)
    ensures Released(owner, owner2, i, 0, SLOTS, Free)
  {
  }

  lemma ReleasedNoneHeld(owner: seq<Owner>, owner': seq<Owner>, i: nat)
    requires Released(owner, owner', i, 0, SLOTS, Free) && NoneHeld(owner)
    ensures NoneHeld(owner')
  {
  }

  lemma NothingIndirect(cur: seq<Inode>, data: Blocks, owner: seq<Owner>, nmeta: nat, i: nat, ip: Inode)
    requires Owned(cur, data, owner, nmeta) && i < |cur| && cur[i].addrs[INDIRECT] == 0
    ensures Emptied(cur, cur, data, i, INDIRECT, SLOTS) && Released(owner, owner, i, INDIRECT, SLOTS, Free)
  {
    hide GetWord;
    forall k | INDIRECT <= k < SLOTS
      ensures Slot(cur[i], data, k) == 0
    {
    }
  }

  /** The first `j` blocks listed in the indirect block of inode `i` have been freed. */
  ghost predicate Freeing(owner: seq<Owner>, owner': seq<Owner>, i: nat, j: nat) {
    Released(owner, owner', i, INDIRECT + 1, INDIRECT + 1 + j, Free)
  }

  lemma FreeingStart(cur: seq<Inode>, data: Blocks, owner: seq<Owner>, nmeta: nat, i: nat)
    requires Owned(cur, data, owner, nmeta) && i < |cur| && cur[i].addrs[INDIRECT] != 0
    ensures Freeing(owner, owner, i, 0)
    ensures cur[i].addrs[INDIRECT] < |data|
  {
    hide GetWord;
    assert Slot(cur[i], data, INDIRECT) == cur[i].addrs[INDIRECT];
  }

  lemma FreeingStep(cur: seq<Inode>, data: Blocks, owner: seq<Owner>, owner': seq<Owner>, nmeta: nat, i: nat, j: nat)
    requires Owned(cur, data, owner, nmeta) && i < |cur| && 0 < cur[i].addrs[INDIRECT] < |data| && j < NINDIRECT
    requires Freeing(owner, owner', i, j)
    ensures var b := GetWord(data[cur[i].addrs[INDIRECT]], j);
            && (b == 0 ==> Freeing(owner, owner', i, j + 1))
            && (b != 0 ==> b < |owner'| && owner'[b] != Free && Freeing(owner, owner'[b := Free], i, j + 1))
  {
    hide GetWord;
    var b := GetWord(data[cur[i].addrs[INDIRECT]], j);
    assert Slot(cur[i], data, INDIRECT + 1 + j) == b;
    OnlyName(cur, data, owner, nmeta, i, INDIRECT + 1 + j, b);
  }

  lemma OnlyName(cur: seq<Inode>, data: Blocks, owner: seq<Owner>, nmeta: nat, i: nat, k: nat, b: Word)
    requires Owned(cur, data, owner, nmeta) && i < |cur| && k < SLOTS && Slot(cur[i], data, k) == b
    ensures b != 0 ==> b < |owner| && owner[b] == Of(i, k)
    ensures forall c: nat | c < |owner| && owner[c] == Of(i, k) :: c == b && b != 0
  {
    hide Slot;
  }

  lemma FreeingEnd(cur: seq<Inode>, data: Blocks, owner: seq<Owner>, owner': seq<Owner>, nmeta: nat, i: nat)
    requires Owned(cur, data, owner, nmeta) && i < |cur| && cur[i].addrs[INDIRECT] != 0
    requires Freeing(owner, owner', i, NINDIRECT)
    ensures var b := cur[i].addrs[INDIRECT];
            var cur' := cur[i := cur[i].(addrs := cur[i].addrs[INDIRECT := 0])];
            && b < |owner'| && owner'[b] != Free
            && Released(owner, owner'[b := Free], i, INDIRECT, SLOTS, Free)
            && Emptied(cur, cur', data, i, INDIRECT, SLOTS)
            && Owned(cur', data, owner'[b := Free], nmeta)
  {
    hide GetWord;
    var b := cur[i].addrs[INDIRECT];
    var cur' := cur[i := cur[i].(addrs := cur[i].addrs[INDIRECT := 0])];
    assert Slot(cur[i], data, INDIRECT) == b;
    OnlyName(cur, data, owner, nmeta, i, INDIRECT, b);
    EmptyIndirect(cur, data, i);
    EmptiedOwned(cur, cur', data, owner, owner'[b := Free], nmeta, i, INDIRECT, SLOTS, Free);
  }

  // ----- reading

  /** `dst` holds the bytes of the file from `off`. */
  ghost predicate ReadBack(ip: Inode, data: Blocks, off: nat, dst: seq<Byte>) {
    && ip.Ok() && (dst == [] || off + |dst| <= MAXFILE * BSIZE)
    && forall i | 0 <= i < |dst| :: dst[i] == FileByte(ip, data, off + i)
  }

  lemma ReadNothing(ip: Inode, data: Blocks, off: nat)
    requires ip.Ok()
    ensures ReadBack(ip, data, off, [])
  {
  }

  lemma ReadStep(off: nat, tot: nat, n: nat, m: nat)
    requires tot < n && Boundary(off, tot, n)
    requires m == if n - tot < BSIZE - (off + tot) % BSIZE then n - tot else BSIZE - (off + tot) % BSIZE
    ensures 0 < m && (off + tot) % BSIZE + m <= BSIZE && tot + m <= n && Boundary(off, tot + m, n)
    ensures (off + tot) / BSIZE >= MAXFILE ==> off + tot >= MAXFILE * BSIZE
  {
  }

  lemma BackedBlock(ip: Inode, data: Blocks, off: nat, tot: nat, n: nat)
    requires ip.Ok() && tot < n && off + n <= ip.size
    ensures Backed(ip, data) ==>
              (off + tot) / BSIZE < MAXFILE && Slot(ip, data, DataSlot((off + tot) / BSIZE)) != 0
  {
    hide Slot;
    assert (off + tot) / BSIZE * BSIZE <= off + tot;
  }

  predicate Missing(ip: Inode, data: Blocks, bn: nat)
    requires ip.Ok()
  {
    bn >= MAXFILE || Slot(ip, data, DataSlot(bn)) == 0
  }

  /** Some block of the `n` bytes from `off` is missing. */
  ghost predicate HoleIn(ip: Inode, data: Blocks, off: nat, n: nat) {
    ip.Ok() && exists bn: nat | off / BSIZE <= bn < off / BSIZE + Span(off, n) :: Missing(ip, data, bn)
  }

  lemma NoHoleYet(ip: Inode, data: Blocks, off: nat)
    ensures !HoleIn(ip, data, off, 0) && forall n: nat :: Boundary(off, 0, n)
  {
    hide Slot;
  }

  lemma HoleStep(ip: Inode, data: Blocks, off: nat, tot: nat, n: nat, m: nat)
    requires ip.Ok() && tot < n && Boundary(off, tot, n)
    requires 0 < m && (off + tot) % BSIZE + m <= BSIZE && tot + m <= n
    ensures var bn := (off + tot) / BSIZE;
            && (HoleIn(ip, data, off, tot + m) <==> HoleIn(ip, data, off, tot) || Missing(ip, data, bn))
            && (Missing(ip, data, bn) ==> HoleIn(ip, data, off, n))
            && (Missing(ip, data, bn) <==> bn >= MAXFILE || Slot(ip, data, DataSlot(bn)) == 0)
  {
    hide Slot, Span;
    SpanStep(off, tot, m);
    SpanMore(off, tot + m, n);
  }

  lemma SpanMore(off: nat, a: nat, b: nat)
    requires a <= b
    ensures Span(off, a) <= Span(off, b)
  {
  }

  lemma ReadBackStep(cur: seq<Inode>, was: Blocks, cur': seq<Inode>, data: Blocks, i: nat, off: nat, dst: seq<Byte>,
                     addr: Word, m: nat)
    requires Mapped(cur, was, cur', data, i) && ReadBack(cur[i], was, off, dst)
    requires var bn := (off + |dst|) / BSIZE;
             bn < MAXFILE && Slot(cur'[i], data, DataSlot(bn)) == addr && 0 < addr < |data|
    requires (off + |dst|) % BSIZE + m <= BSIZE
    ensures var o := (off + |dst|) % BSIZE;
            ReadBack(cur[i], was, off, dst + data[addr][o..o + m])
  {
    hide Slot, Grown;
    var bn, o := (off + |dst|) / BSIZE, (off + |dst|) % BSIZE;
    assert FileBlock(cur[i], was, bn) == FileBlock(cur'[i], data, bn);
    var dst' := dst + data[addr][o..o + m];
    forall k | 0 <= k < |dst'|
      ensures dst'[k] == FileByte(cur[i], was, off + k)
    {
      if k >= |dst| {
        assert (off + k) / BSIZE == bn && (off + k) % BSIZE == o + (k - |dst|);
      }
    }
  }

  // ----- the extent of a write

  /** The blocks of the extent are all mapped. */
  ghost predicate Reached(ip: Inode, data: Blocks, off: nat, n: nat) {
    && ip.Ok()
    && forall bn | off / BSIZE <= bn < MAXFILE && bn < off / BSIZE + Span(off, n) ::
         Slot(ip, data, DataSlot(bn)) != 0 && ip.addrs[AddrIndex(bn)] != 0
  }

  /** The inode already has every address through which the extent is reached. */
  ghost predicate Addressed(ip: Inode, off: nat, n: nat) {
    ip.Ok() && forall bn | off / BSIZE <= bn < MAXFILE && bn < off / BSIZE + Span(off, n) ::
      ip.addrs[AddrIndex(bn)] != 0
  }

  lemma SpanStep(off: nat, tot: nat, m: nat)
    requires m > 0 && (off + tot) % BSIZE + m <= BSIZE && (tot == 0 || (off + tot) % BSIZE == 0)
    ensures Span(off, tot + m) == Span(off, tot) + 1
    ensures off / BSIZE + Span(off, tot) == (off + tot) / BSIZE
  {
  }

  lemma KeptSelf(cur: seq<Inode>, data: Blocks, i: nat)
    requires Inodes(cur) && i < |cur|
    ensures Kept(cur, data, cur, data, i)
  {
  }

  lemma ReachedStep(ip: Inode, data: Blocks, ip': Inode, data': Blocks, off: nat, tot: nat, m: nat)
    requires Reached(ip, data, off, tot) && Grown(ip, data, ip', data')
    requires m > 0 && (off + tot) % BSIZE + m <= BSIZE && (off + tot) / BSIZE < MAXFILE
    requires tot == 0 || (off + tot) % BSIZE == 0
    requires Slot(ip', data', DataSlot((off + tot) / BSIZE)) != 0 && ip'.addrs[AddrIndex((off + tot) / BSIZE)] != 0
    ensures Reached(ip', data', off, tot + m)
  {
    hide GetWord;
    SpanStep(off, tot, m);
    forall bn | off / BSIZE <= bn < MAXFILE && bn < off / BSIZE + Span(off, tot + m)
      ensures Slot(ip', data', DataSlot(bn)) != 0 && ip'.addrs[AddrIndex(bn)] != 0
    {
      if bn < off / BSIZE + Span(off, tot) {
        assert Slot(ip, data, AddrIndex(bn)) == ip.addrs[AddrIndex(bn)];
        assert Slot(ip', data', AddrIndex(bn)) == ip'.addrs[AddrIndex(bn)];
      }
    }
  }

  // ----- steps of writei

  /** Filled slots of inode `i` stay, and other inodes keep all of theirs. */
  ghost predicate Kept(cur: seq<Inode>, data: Blocks, cur': seq<Inode>, data': Blocks, i: nat) {
    && Inodes(cur) && Inodes(cur') && |cur'| == |cur|
    && i < |cur| && Grown(cur[i], data, cur'[i], data')
    && forall j, k | 0 <= j < |cur| && 0 <= k < SLOTS && j != i :: Slot(cur'[j], data', k) == Slot(cur[j], data, k)
  }

  function Indirect(ip: Inode): (s: set<nat>)
    requires ip.Ok()
  {
    if ip.addrs[INDIRECT] == 0 then {} else {ip.addrs[INDIRECT]}
  }

  lemma MappedKept(cur: seq<Inode>, data: Blocks, cur': seq<Inode>, data': Blocks, i: nat)
    requires Mapped(cur, data, cur', data', i)
    ensures Kept(cur, data, cur', data', i)
  {
  }

  lemma KeptThen(cur: seq<Inode>, data: Blocks, cur': seq<Inode>, mid: Blocks, data': Blocks, i: nat)
    requires Kept(cur, data, cur', mid, i) && SameSlots(cur', mid, cur', data')
    ensures Kept(cur, data, cur', data', i)
  {
    hide Slot;
    forall j, k | 0 <= j < |cur| && 0 <= k < SLOTS
      ensures Slot(cur'[j], data', k) == Slot(cur'[j], mid, k)
    {
    }
  }

  lemma KeptTrans(cur: seq<Inode>, data: Blocks, cur1: seq<Inode>, data1: Blocks, cur2: seq<Inode>, data2: Blocks,
                  i: nat)
    requires Kept(cur, data, cur1, data1, i) && Kept(cur1, data1, cur2, data2, i)
    ensures Kept(cur, data, cur2, data2, i)
  {
    hide Slot;
    forall j, k | 0 <= j < |cur| && 0 <= k < SLOTS && j != i
      ensures Slot(cur2[j], data2, k) == Slot(cur[j], data, k)
    {
      assert Slot(cur1[j], data1, k) == Slot(cur[j], data, k);
    }
    forall k | 0 <= k < SLOTS && Slot(cur[i], data, k) != 0
      ensures Slot(cur2[i], data2, k) == Slot(cur[i], data, k)
    {
      assert Slot(cur1[i], data1, k) == Slot(cur[i], data, k);
    }
  }

  lemma FilesThenBlock(cur: seq<Inode>, data: Blocks, cur': seq<Inode>, mid: Blocks, data': Blocks, i: nat, bn: nat,
                       x: Block)
    requires SameFiles(cur, data, cur', mid) && FileBlockSet(cur', mid, cur', data', i, bn, x)
    ensures FileBlockSet(cur, data, cur', data', i, bn, x)
  {
    hide FileBlock;
    forall j, n | 0 <= j < |cur| && 0 <= n < MAXFILE
      ensures FileBlock(cur'[j], data', n) == if j == i && n == bn then x else FileBlock(cur[j], data, n)
    {
      assert FileBlock(cur'[j], mid, n) == FileBlock(cur[j], data, n);
    }
  }

  // ----- steps of bmap

  /** What mapping a block of inode `i` may do: fill empty slots of that inode, nothing else. */
  ghost predicate Mapped(cur: seq<Inode>, data: Blocks, cur': seq<Inode>, data': Blocks, i: nat) {
    && SameFiles(cur, data, cur', data')
    && i < |cur| && Grown(cur[i], data, cur'[i], data')
    && forall j, k | 0 <= j < |cur| && 0 <= k < SLOTS && j != i :: Slot(cur'[j], data', k) == Slot(cur[j], data, k)
  }

  lemma MappedSelf(cur: seq<Inode>, data: Blocks, i: nat)
    requires Inodes(cur) && i < |cur|
    ensures Mapped(cur, data, cur, data, i)
  {
  }

  lemma MappedThen(cur: seq<Inode>, data: Blocks, cur1: seq<Inode>, data1: Blocks, cur2: seq<Inode>, data2: Blocks,
                   i: nat)
    requires Mapped(cur, data, cur1, data1, i) && Mapped(cur1, data1, cur2, data2, i)
    ensures Mapped(cur, data, cur2, data2, i)
  {
    hide Slot, FileBlock;
    forall j, bn | 0 <= j < |cur| && 0 <= bn < MAXFILE
      ensures FileBlock(cur2[j], data2, bn) == FileBlock(cur[j], data, bn)
    {
      assert FileBlock(cur1[j], data1, bn) == FileBlock(cur[j], data, bn);
    }
    forall j, k | 0 <= j < |cur| && 0 <= k < SLOTS && j != i
      ensures Slot(cur2[j], data2, k) == Slot(cur[j], data, k)
    {
      assert Slot(cur1[j], data1, k) == Slot(cur[j], data, k);
    }
    forall k | 0 <= k < SLOTS && Slot(cur[i], data, k) != 0
      ensures Slot(cur2[i], data2, k) == Slot(cur[i], data, k)
    {
      assert Slot(cur1[i], data1, k) == Slot(cur[i], data, k);
    }
  }

  lemma SlotMapped(cur: seq<Inode>, data: Blocks, cur': seq<Inode>, data': Blocks, i: nat, k: nat, b: Word)
    requires SlotSet(cur, data, cur', data', i, k, b) && SameFiles(cur, data, cur', data')
    requires i < |cur| && k < SLOTS && Slot(cur[i], data, k) == 0
    ensures Mapped(cur, data, cur', data', i)
    ensures Slot(cur'[i], data', k) == b
    ensures forall l | 0 <= l < SLOTS && l != k :: Slot(cur'[i], data', l) == Slot(cur[i], data, l)
  {
    hide Slot, FileBlock;
  }

  lemma SlotsOf(cur: seq<Inode>, data: Blocks, owner: seq<Owner>, nmeta: nat, i: nat, bn: nat)
    requires Owned(cur, data, owner, nmeta) && i < |cur|
    ensures Inodes(cur) && |owner| == |data|
    ensures nmeta <= cur[i].addrs[INDIRECT] < |data| || cur[i].addrs[INDIRECT] == 0
    ensures bn < MAXFILE ==>
      nmeta <= Slot(cur[i], data, DataSlot(bn)) < |data| || Slot(cur[i], data, DataSlot(bn)) == 0
  {
    hide GetWord;
    assert Slot(cur[i], data, INDIRECT) == cur[i].addrs[INDIRECT];
  }

  lemma ZeroHeld(cur: seq<Inode>, data: Blocks, owner: seq<Owner>, nmeta: nat, b: nat)
    requires Owned(cur, data, owner, nmeta) && b < |owner| && owner[b] == Free
    ensures Owned(cur, data[b := ZERO_BLOCK], owner[b := Held], nmeta) && nmeta <= b < |data| && 0 < nmeta
  {
    DataUpdateSlots(cur, data, owner, nmeta, b, ZERO_BLOCK);
    hide Slot;
  }

  lemma MarkOwned(bitmap: seq<bv8>, owner: seq<Owner>, b: nat, i: nat, k: nat)
    requires Marked(bitmap, owner) && b < |owner| && owner[b] == Held
    ensures Marked(bitmap, owner[b := Of(i, k)])
  {
    hide Bit;
  }

  lemma HeldOwned(cur: seq<Inode>, data: Blocks, owner: seq<Owner>, nmeta: nat, b: nat)
    requires Owned(cur, data, owner, nmeta) && b < |data| && owner[b] == Free
    ensures Owned(cur, data, owner[b := Held], nmeta) && 0 < b
  {
    hide Slot;
  }

  lemma LinkAddr(cur: seq<Inode>, data: Blocks, owner: seq<Owner>, nmeta: nat, i: nat, k: nat, b: Word)
    requires Owned(cur, data, owner, nmeta) && b < |data| && owner[b] == Free
    requires i < |cur| && k <= INDIRECT && cur[i].addrs[k] == 0
    ensures var cur' := cur[i := cur[i].(addrs := cur[i].addrs[k := b])];
            var data' := data[b := ZERO_BLOCK];
            && SlotSet(cur, data, cur', data', i, k, b)
            && SameFiles(cur, data, cur', data')
            && Owned(cur', data', owner[b := Of(i, k)], nmeta)
  {
    var data' := data[b := ZERO_BLOCK];
    var cur' := cur[i := cur[i].(addrs := cur[i].addrs[k := b])];
    DataUpdateSlots(cur, data, owner, nmeta, b, ZERO_BLOCK);
    FreeUpdateFiles(cur, data, owner, nmeta, b, ZERO_BLOCK);
    HeldOwned(cur, data', owner, nmeta, b);
    SetAddr(cur, data', i, k, b);
    assert Slot(cur[i], data', k) == 0;
    hide Slot, FileBlock;
    LinkOwned(cur, data', owner[b := Held], nmeta, cur', data', i, k, b);
    LinkFiles(cur, data', owner[b := Held], nmeta, cur', data', i, k, b);
    SlotSetAfter(cur, data, data', cur', data', i, k, b);
    SameFilesThen(cur, data, cur, data', cur', data');
    assert owner[b := Held][b := Of(i, k)] == owner[b := Of(i, k)];
  }

  lemma LinkIndirect(cur: seq<Inode>, data: Blocks, owner: seq<Owner>, nmeta: nat, i: nat, j: nat, b: Word)
    requires Owned(cur, data, owner, nmeta) && b < |data| && owner[b] == Free
    requires i < |cur| && j < NINDIRECT && 0 < cur[i].addrs[INDIRECT] < |data|
    requires GetWord(data[cur[i].addrs[INDIRECT]], j) == 0
    ensures var ind, zeroed := cur[i].addrs[INDIRECT], data[b := ZERO_BLOCK];
            var data' := zeroed[ind := PutWord(zeroed[ind], j, b)];
            && SlotSet(cur, data, cur, data', i, INDIRECT + 1 + j, b)
            && SameFiles(cur, data, cur, data')
            && Owned(cur, data', owner[b := Of(i, INDIRECT + 1 + j)], nmeta)
  {
    var ind, zeroed, k := cur[i].addrs[INDIRECT], data[b := ZERO_BLOCK], INDIRECT + 1 + j;
    var data' := zeroed[ind := PutWord(zeroed[ind], j, b)];
    DataUpdateSlots(cur, data, owner, nmeta, b, ZERO_BLOCK);
    FreeUpdateFiles(cur, data, owner, nmeta, b, ZERO_BLOCK);
    HeldOwned(cur, zeroed, owner, nmeta, b);
    SetIndirect(cur, zeroed, owner[b := Held], nmeta, i, j, b);
    assert Slot(cur[i], data, k) == 0;
    assert Slot(cur[i], zeroed, k) == 0;
    hide Slot, FileBlock, GetWord, PutWord;
    LinkOwned(cur, zeroed, owner[b := Held], nmeta, cur, data', i, k, b);
    LinkFiles(cur, zeroed, owner[b := Held], nmeta, cur, data', i, k, b);
    SlotSetAfter(cur, data, zeroed, cur, data', i, k, b);
    SameFilesThen(cur, data, cur, zeroed, cur, data');
    assert owner[b := Held][b := Of(i, k)] == owner[b := Of(i, k)];
  }

  lemma SlotSetAfter(cur: seq<Inode>, data: Blocks, data1: Blocks, cur': seq<Inode>, data': Blocks, i: nat, k: nat,
                     b: Word)
    requires SameSlots(cur, data, cur, data1) && |data1| == |data| && SlotSet(cur, data1, cur', data', i, k, b)
    ensures SlotSet(cur, data, cur', data', i, k, b)
  {
    hide Slot;
    forall j, l | 0 <= j < |cur| && 0 <= l < SLOTS
      ensures Slot(cur'[j], data', l) == if j == i && l == k then b else Slot(cur[j], data, l)
    {
      assert Slot(cur[j], data1, l) == Slot(cur[j], data, l);
    }
  }

  lemma SameFilesThen(cur: seq<Inode>, data: Blocks, cur1: seq<Inode>, data1: Blocks, cur2: seq<Inode>, data2: Blocks)
    requires SameFiles(cur, data, cur1, data1) && SameFiles(cur1, data1, cur2, data2)
    ensures SameFiles(cur, data, cur2, data2)
  {
    hide FileBlock;
    forall j, bn | 0 <= j < |cur| && 0 <= bn < MAXFILE
      ensures FileBlock(cur2[j], data2, bn) == FileBlock(cur[j], data, bn)
    {
      assert FileBlock(cur1[j], data1, bn) == FileBlock(cur[j], data, bn);
    }
  }

  lemma OwnerLength(cur: seq<Inode>, data: Blocks, owner: seq<Owner>, nmeta: nat)
    requires Owned(cur, data, owner, nmeta)
    ensures |owner| == |data| && Inodes(cur)
  {
  }

  /** The bit that balloc tests in the bitmap block for `b` is the one for block `b + bi`. */
  lemma TestBit(bitmap: seq<bv8>, owner: seq<Owner>, b: nat, bi: nat)
    requires Marked(bitmap, owner) && b % BPB == 0 && b + bi < |owner|
    ensures b / 8 + bi / 8 < |bitmap|
    ensures !TestMask(bitmap[b / 8 + bi / 8], bi % 8) <==> owner[b + bi] == Free
  {
    hide TestMask;
    var q := b / BPB;
    assert b == 8 * (BSIZE * q);
    assert (b + bi) / 8 == b / 8 + bi / 8 && (b + bi) % 8 == bi % 8;
    assert Bit(bitmap, b + bi) <==> owner[b + bi] != Free;
  }
}
