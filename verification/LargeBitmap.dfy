/** A file system whose bitmap has five blocks, and a write in it that logs one block more than
    begin_op reserves (kernel/file.c, kernel/fs.c). */
module LargeBitmap {
  import opened Disk
  import opened BlockMap
  import opened FileSystem
  import FileWrite
  import RedoLog

  // ----- what such a write logs

  /** The bitmap block of a block. */
  function MapOf(bmapstart: nat, b: nat): (c: nat) {
    bmapstart + b / BPB
  }

  ghost function MapsOf(bmapstart: nat, bs: set<nat>): (s: set<nat>) {
    set b | b in bs :: MapOf(bmapstart, b)
  }

  /** No two blocks of the set have their bits in the same bitmap block. */
  ghost predicate Apart(bmapstart: nat, bs: set<nat>) {
    forall b, c | b in bs && c in bs && b != c :: MapOf(bmapstart, b) != MapOf(bmapstart, c)
  }

  lemma {:induction false} ApartCard(bmapstart: nat, bs: set<nat>)
    requires Apart(bmapstart, bs)
    ensures |MapsOf(bmapstart, bs)| == |bs|
    decreases |bs|
  {
    hide MapOf;
    if bs != {} {
      var b :| b in bs;
      var rest := bs - {b};
      ApartCard(bmapstart, rest);
      assert bs == rest + {b};
      assert MapsOf(bmapstart, bs) == MapsOf(bmapstart, rest) + {MapOf(bmapstart, b)};
      assert MapOf(bmapstart, b) !in MapsOf(bmapstart, rest);
    }
  }

  /** Free blocks that have all been given to a file, their bitmap blocks and its inode block
      are different blocks. */
  lemma Together(logged: set<nat>, free: set<nat>, maps: set<nat>, ino: nat, nmeta: nat)
    requires free <= logged && maps <= logged && ino in logged && |maps| == |free|
    requires (forall b <- free :: b >= nmeta) && (forall c <- maps :: ino != c < nmeta) && ino < nmeta
    ensures |logged| >= 2 * |free| + 1
  {
    var two := free + maps;
    assert free !! maps && ino !in two;
    assert |two| == |free| + |maps|;
    assert |two + {ino}| == |two| + 1;
    SubsetCard(two + {ino}, logged);
  }

  /** An inode without any block. */
  predicate Bare(ip: Inode) {
    ip.Ok() && forall k | 0 <= k <= INDIRECT :: ip.addrs[k] == 0
  }

  lemma BareLacks(ip: Inode, data: Blocks, lo: nat, hi: nat)
    requires Bare(ip) && lo < hi <= MAXFILE && NDIRECT < hi
    ensures Lacking(ip, data, lo, hi) == hi - lo + 1
  {
    assert forall k | 0 <= k < SLOTS :: Slot(ip, data, k) == 0;
    hide Slot;
    assert Holes(ip, data, lo, hi) == Blocknos(lo, hi);
  }

  /** A block that was free and is so no longer belongs to the one inode that changed. */
  lemma Taken(cur: seq<Inode>, data: Blocks, owner: seq<Owner>, cur': seq<Inode>, data': Blocks, owner': seq<Owner>,
              nmeta: nat, i: nat, b: nat)
    requires Owned(cur, data, owner, nmeta) && Owned(cur', data', owner', nmeta) && NoneHeld(owner')
    requires Kept(cur, data, cur', data', i) && |data'| == |data|
    requires b < |owner| && owner[b] == Free && owner'[b] != Free
    ensures b >= nmeta && owner'[b].Of? && owner'[b].inum == i && owner'[b].slot < SLOTS
    ensures Slot(cur'[i], data', owner'[b].slot) == b
  {
    hide Slot;
    assert Slot(cur'[owner'[b].inum], data', owner'[b].slot) == b;
  }

  /** Its contents have changed. */
  lemma Overwritten(cur: seq<Inode>, data: Blocks, cur': seq<Inode>, data': Blocks, i: nat, off: nat, src: seq<Byte>,
                    k: nat, b: Word)
    requires i < |cur| && Bare(cur[i]) && Overlaid(cur, data, cur', data', i, off, src, |src|)
    requires Extended(cur[i], data, cur'[i], data', off / BSIZE, off / BSIZE + Span(off, |src|))
    requires src != [] && (forall j | 0 <= j < |src| :: src[j] != 0) && off + |src| <= MAXFILE * BSIZE
    requires NDIRECT < off / BSIZE + Span(off, |src|)
    requires k < SLOTS && Slot(cur'[i], data', k) == b && 0 < b < |data'|
    ensures data'[b] != ZERO_BLOCK
  {
    if k == INDIRECT {
      var bn := off / BSIZE + Span(off, |src|) - 1;
      assert Slot(cur[i], data, DataSlot(bn)) == 0;
      assert GetWord(data'[b], bn - NDIRECT) != 0;
      assert GetWord(ZERO_BLOCK, bn - NDIRECT) == 0;
    } else {
      var bn := if k < NDIRECT then k else k - 1;
      assert DataSlot(bn) == k && Slot(cur[i], data, DataSlot(bn)) == 0;
      var pos := if bn * BSIZE < off then off else bn * BSIZE;
      assert off <= pos < off + |src| && pos / BSIZE == bn;
      assert FileByte(cur'[i], data', pos) == src[pos - off];
      assert data'[b][pos % BSIZE] != 0;
    }
  }

  /** And so has its bit. */
  lemma Marking(v: Volume, v': Volume, owner: seq<Owner>, owner': seq<Owner>, logged: set<nat>, inodestart: nat,
                bmapstart: nat, b: nat)
    requires Recorded(v, v', logged, inodestart, bmapstart) && Marked(v.bitmap, owner) && Marked(v'.bitmap, owner')
    requires b < |owner| == |owner'| && owner[b] == Free && owner'[b] != Free
    ensures MapOf(bmapstart, b) in logged
  {
    hide TestMask;
    assert v.bitmap[b / 8] != v'.bitmap[b / 8];
    assert b / 8 / BSIZE == b / BPB;
  }

  /** Five free blocks are left, each with its bit in another bitmap block, and the inode has no
      blocks but a size. */
  ghost predicate Scattered(v: Volume, owner: seq<Owner>, ip: Inode, inum: nat, bmapstart: nat) {
    && |FreeBlocks(owner)| == 5 && Apart(bmapstart, FreeBlocks(owner))
    && |owner| == |v.data| && (forall b <- FreeBlocks(owner) :: v.data[b] == ZERO_BLOCK)
    && inum < |v.dinodes| && v.dinodes[inum] == ip && Bare(ip)
  }

  /** The write logs four data blocks, the indirect block, five bitmap blocks and the inode. */
  lemma ElevenLogged(cur: seq<Inode>, v: Volume, owner: seq<Owner>, cur': seq<Inode>, v': Volume, owner': seq<Owner>,
                     logged: set<nat>, inum: nat, off: nat, src: seq<Byte>, nmeta: nat, logstart: nat, nlog: nat,
                     inodestart: nat, bmapstart: nat)
    requires Layout(nmeta, logstart, nlog, inodestart, bmapstart, |v.dinodes|, |v.data|)
    requires Owned(cur, v.data, owner, nmeta) && Owned(cur', v'.data, owner', nmeta) && NoneHeld(owner')
    requires Marked(v.bitmap, owner) && Marked(v'.bitmap, owner')
    requires inum < |cur| && Scattered(v, owner, cur[inum], inum, bmapstart) && |FreeBlocks(owner')| == 0
    requires Kept(cur, v.data, cur', v'.data, inum) && Overlaid(cur, v.data, cur', v'.data, inum, off, src, |src|)
    requires Extended(cur[inum], v.data, cur'[inum], v'.data, off / BSIZE, off / BSIZE + Span(off, |src|))
    requires Recorded(v, v', logged, inodestart, bmapstart) && v'.dinodes[inum] != v.dinodes[inum]
    requires src != [] && (forall j | 0 <= j < |src| :: src[j] != 0) && off + |src| <= MAXFILE * BSIZE
    requires NDIRECT < off / BSIZE + Span(off, |src|)
    ensures |logged| >= 11
  {
    var free := FreeBlocks(owner);
    OwnerLength(cur, v.data, owner, nmeta);
    OwnerLength(cur', v'.data, owner', nmeta);
    hide Owned, Marked, Overlaid, Extended, Span, NoneHeld, Kept, MapOf, Bare, Layout;
    forall b | b in free
      ensures b in logged && MapOf(bmapstart, b) in logged && b >= nmeta
    {
      assert b !in FreeBlocks(owner');
      Taken(cur, v.data, owner, cur', v'.data, owner', nmeta, inum, b);
      assert 0 < nmeta by {
        MetaFirst(cur, v.data, owner, nmeta);
      }
      Overwritten(cur, v.data, cur', v'.data, inum, off, src, owner'[b].slot, b);
      Marking(v, v', owner, owner', logged, inodestart, bmapstart, b);
    }
    ApartCard(bmapstart, free);
    MapsBelow(nmeta, logstart, nlog, inodestart, bmapstart, |v.dinodes|, |v.data|, inum, free);
    Together(logged, free, MapsOf(bmapstart, free), inodestart + inum / IPB, nmeta);
  }

  lemma MetaFirst(cur: seq<Inode>, data: Blocks, owner: seq<Owner>, nmeta: nat)
    requires Owned(cur, data, owner, nmeta)
    ensures 0 < nmeta
  {
  }

  lemma MapsBelow(nmeta: nat, logstart: nat, nlog: nat, inodestart: nat, bmapstart: nat, inodes: nat, size: nat,
                  inum: nat, free: set<nat>)
    requires Layout(nmeta, logstart, nlog, inodestart, bmapstart, inodes, size) && inum < inodes
    requires forall b <- free :: b < size
    ensures inodestart + inum / IPB < nmeta
    ensures forall c <- MapsOf(bmapstart, free) :: inodestart + inum / IPB != c < nmeta
  {
    assert inum / IPB < InodeBlocks(inodes);
    forall b | b in free
      ensures bmapstart <= MapOf(bmapstart, b) < bmapstart + BitmapBlocks(size)
    {
    }
  }

  /** A chunk of filewrite in such a file system exceeds the reservation of its operation. */
  method ElevenBlocks(fs: FileSystem, inum: nat, off: Word, src: seq<Byte>) returns (r: Outcome)
    requires fs.Settled() && inum in fs.icache && fs.logged == {}
    requires Scattered(fs.OnDisk(), fs.owner, fs.icache[inum], inum, fs.bmapstart)
    requires off == fs.icache[inum].size && off % BSIZE != 0 && NDIRECT * BSIZE <= off + 3 * BSIZE
    requires |src| == FileWrite.MAX && (forall j | 0 <= j < |src| :: src[j] != 0) && off + |src| <= MAXFILE * BSIZE
    modifies fs
    ensures fs.Settled() && r.Done? && |fs.logged| == RedoLog.MAXOPBLOCKS + 1
  {
    hide Owned, Marked, Overlaid, Extended, NoneHeld, Kept, Recorded, Apart, Lacking, FreeBlocks, Dense, Tight, Backed,
         Addressed, Layout, Loggable, Bare, Inodes, Current, Span;
    ghost var cur, v, owner := fs.Cur(), fs.OnDisk(), fs.owner;
    CurrentAt(fs.dinodes, fs.icache, inum);
    BareOk(fs.icache[inum]);
    FourBlocks(off);
    BareLacks(cur[inum], fs.data, off / BSIZE, off / BSIZE + Span(off, |src|));
    r := fs.Writei(inum, src, off);
    CurrentAt(fs.dinodes, fs.icache, inum);
    ElevenLogged(cur, v, owner, fs.Cur(), fs.OnDisk(), fs.owner, fs.logged, inum, off, src, fs.nmeta, fs.logstart,
                 fs.nlog, fs.inodestart, fs.bmapstart);
    assert fs.logged - {} == fs.logged;
  }

  lemma BareOk(ip: Inode)
    requires Bare(ip)
    ensures ip.Ok()
  {
  }

  lemma FourBlocks(off: nat)
    requires off % BSIZE != 0 && NDIRECT * BSIZE <= off + 3 * BSIZE && off + FileWrite.MAX <= MAXFILE * BSIZE
    ensures Span(off, FileWrite.MAX) == 4 && NDIRECT < off / BSIZE + 4 <= MAXFILE
  {
  }

  // ----- a file system in which this happens

  const NMETA := 200
  /** Between two free blocks lie the blocks of GROUP inodes that have all the blocks they can. */
  const GROUP := 23
  const STRIDE := GROUP * SLOTS + 1
  const INODES := 4 * GROUP
  const SIZE := NMETA + 4 * STRIDE + 1
  const OFF := NDIRECT * BSIZE + 1

  /** The block in slot `k` of inode `i`. */
  function Home(i: nat, k: nat): (b: nat) {
    NMETA + i / GROUP * STRIDE + 1 + i % GROUP * SLOTS + k
  }

  function OwnerAt(b: nat): (o: Owner) {
    if b < NMETA then Meta
    else
      var q, r := (b - NMETA) / STRIDE, (b - NMETA) % STRIDE;
      if r == 0 then Free else Of(q * GROUP + (r - 1) / SLOTS, (r - 1) % SLOTS)
  }

  lemma ByStride(q: nat, r: nat)
    requires r < STRIDE
    ensures (STRIDE * q + r) / STRIDE == q && (STRIDE * q + r) % STRIDE == r
  {
    assert STRIDE == 4279;
  }

  lemma BySlots(g: nat, k: nat)
    requires k < SLOTS
    ensures (SLOTS * g + k) / SLOTS == g && (SLOTS * g + k) % SLOTS == k
  {
    assert SLOTS == 186;
  }

  lemma HomeOwner(i: nat, k: nat)
    requires i < INODES && k < SLOTS
    ensures NMETA <= Home(i, k) < SIZE && OwnerAt(Home(i, k)) == Of(i, k)
  {
    var q, g := i / GROUP, i % GROUP;
    var r := 1 + g * SLOTS + k;
    assert Home(i, k) - NMETA == STRIDE * q + r && 0 < r < STRIDE;
    ByStride(q, r);
    assert r - 1 == SLOTS * g + k;
    BySlots(g, k);
  }

  lemma OwnerHome(b: nat)
    requires b < SIZE && OwnerAt(b).Of?
    ensures OwnerAt(b).inum < INODES && OwnerAt(b).slot < SLOTS && Home(OwnerAt(b).inum, OwnerAt(b).slot) == b
  {
    var q, r := (b - NMETA) / STRIDE, (b - NMETA) % STRIDE;
    var g, k := (r - 1) / SLOTS, (r - 1) % SLOTS;
    assert b - NMETA == STRIDE * q + r && r - 1 == SLOTS * g + k;
    assert q < 4 && g < GROUP;
    var i := q * GROUP + g;
    assert i / GROUP == q && i % GROUP == g;
  }

  /** A block whose first `n` words count up from `base`. */
  function Counting(base: nat, n: nat): (x: Block)
    requires n <= WORDS_PER_BLOCK && base + n <= SIZE
  {
    if n == 0 then ZERO_BLOCK else PutWord(Counting(base, n - 1), n - 1, base + n - 1)
  }

  lemma {:induction false} CountingAt(base: nat, n: nat, j: nat)
    requires n <= WORDS_PER_BLOCK && base + n <= SIZE && j < n
    ensures GetWord(Counting(base, n), j) == base + j
  {
    hide GetWord, PutWord;
    GetPutWord(Counting(base, n - 1), n - 1, base + n - 1, j);
    if j < n - 1 {
      CountingAt(base, n - 1, j);
    }
  }

  lemma IndirectRoom(b: nat)
    requires b < SIZE && OwnerAt(b).Of? && OwnerAt(b).slot == INDIRECT
    ensures b + 1 + NINDIRECT <= SIZE
  {
    hide Home, OwnerAt;
    OwnerHome(b);
    HomeOwner(OwnerAt(b).inum, SLOTS - 1);
    NextHome(OwnerAt(b).inum, INDIRECT, SLOTS - 1 - INDIRECT);
  }

  lemma NextHome(i: nat, k: nat, j: nat)
    ensures Home(i, k + j) == Home(i, k) + j
  {
  }

  function BlockAtHome(b: nat): (x: Block)
    requires b < SIZE
  {
    if OwnerAt(b).Of? && OwnerAt(b).slot == INDIRECT then
      IndirectRoom(b);
      Counting(b + 1, NINDIRECT)
    else ZERO_BLOCK
  }

  function Address(i: nat, k: nat): (b: Word)
    requires i < INODES && k < SLOTS
  {
    HomeOwner(i, k);
    Home(i, k)
  }

  function InodeAt(i: nat): (ip: Inode)
    ensures ip.Ok()
  {
    if i < INODES then Inode(1, 0, seq(NDIRECT + 1, k requires 0 <= k < NDIRECT + 1 => Address(i, k)))
    else Inode(1, OFF, seq(NDIRECT + 1, _ => 0))
  }

  function ImageInodes(): (cur: seq<Inode>) {
    seq(INODES + 1, i requires 0 <= i < INODES + 1 => InodeAt(i))
  }

  function ImageData(): (data: Blocks) {
    seq(SIZE, b requires 0 <= b < SIZE => BlockAtHome(b))
  }

  function ImageOwner(): (owner: seq<Owner>) {
    seq(SIZE, b requires 0 <= b < SIZE => OwnerAt(b))
  }

  lemma ImageAt(b: nat)
    requires b < SIZE
    ensures |ImageData()| == SIZE == |ImageOwner()|
    ensures ImageData()[b] == BlockAtHome(b) && ImageOwner()[b] == OwnerAt(b)
  {
    hide BlockAtHome, OwnerAt;
  }

  /** Every slot of the first inodes names its home; the last inode is bare. */
  lemma SlotAt(i: nat, k: nat)
    requires i <= INODES && k < SLOTS
    ensures |ImageInodes()| == INODES + 1 && ImageInodes()[i] == InodeAt(i)
    ensures Slot(InodeAt(i), ImageData(), k) == if i < INODES then Home(i, k) else 0
  {
    hide Home, OwnerAt, GetWord, Counting, ImageData;
    if i < INODES && k > INDIRECT {
      var ind := Home(i, INDIRECT);
      HomeOwner(i, INDIRECT);
      ImageAt(ind);
      IndirectRoom(ind);
      CountingAt(ind + 1, NINDIRECT, k - INDIRECT - 1);
      NextHome(i, INDIRECT, k - INDIRECT);
    }
  }

  lemma ImageOwned()
    ensures Owned(ImageInodes(), ImageData(), ImageOwner(), NMETA) && NoneHeld(ImageOwner())
  {
    hide Slot, Home, ImageInodes, ImageData, ImageOwner, InodeAt, BlockAtHome;
    var cur, data, owner := ImageInodes(), ImageData(), ImageOwner();
    ImageAt(0);
    SlotAt(0, 0);
    forall i | 0 <= i < |cur|
      ensures cur[i] == InodeAt(i)
    {
      SlotAt(i, 0);
    }
    forall b: nat | b < |owner|
      ensures owner[b] == OwnerAt(b)
    {
      ImageAt(b);
    }
    forall i, k | 0 <= i < |cur| && 0 <= k < SLOTS && Slot(cur[i], data, k) != 0
      ensures Slot(cur[i], data, k) < |data| && owner[Slot(cur[i], data, k)] == Of(i, k)
    {
      SlotAt(i, k);
      HomeOwner(i, k);
    }
    forall b: nat | b < |owner| && owner[b].Of?
      ensures owner[b].inum < |cur| && owner[b].slot < SLOTS && Slot(cur[owner[b].inum], data, owner[b].slot) == b
    {
      OwnerHome(b);
      SlotAt(owner[b].inum, owner[b].slot);
    }
  }

  /** The free blocks. */
  function Gap(q: nat): (b: nat) {
    NMETA + q * STRIDE
  }

  lemma GapFree(q: nat)
    requires q <= 4
    ensures Gap(q) < SIZE && OwnerAt(Gap(q)) == Free
  {
    assert Gap(q) - NMETA == STRIDE * q + 0;
    ByStride(q, 0);
  }

  lemma FreeGap(b: nat)
    requires b < SIZE && OwnerAt(b) == Free
    ensures b in Gaps()
  {
    var q := (b - NMETA) / STRIDE;
    assert b - NMETA == STRIDE * q && q <= 4;
  }

  ghost function Gaps(): (s: set<nat>) {
    {Gap(0), Gap(1), Gap(2), Gap(3), Gap(4)}
  }

  lemma ImageFree(bmapstart: nat)
    ensures FreeBlocks(ImageOwner()) == Gaps() && |FreeBlocks(ImageOwner())| == 5
    ensures Apart(bmapstart, FreeBlocks(ImageOwner()))
    ensures |ImageData()| == SIZE && forall b <- FreeBlocks(ImageOwner()) :: b < SIZE && ImageData()[b] == ZERO_BLOCK
  {
    hide OwnerAt, ImageOwner, ImageData, Gaps, Apart;
    ImageAt(0);
    forall b: nat
      ensures b in FreeBlocks(ImageOwner()) <==> b in Gaps()
      ensures b in Gaps() ==> b < SIZE && ImageData()[b] == ZERO_BLOCK
    {
      if b in Gaps() {
        GapIn(b);
      }
      if b < SIZE {
        ImageAt(b);
        if OwnerAt(b) == Free {
          FreeGap(b);
        }
      }
    }
    assert FreeBlocks(ImageOwner()) == Gaps();
    FiveGaps(bmapstart);
  }

  lemma GapIn(b: nat)
    requires b in Gaps()
    ensures b < SIZE && OwnerAt(b) == Free
  {
    hide OwnerAt, Gap;
    GapFree(0);
    GapFree(1);
    GapFree(2);
    GapFree(3);
    GapFree(4);
  }

  lemma FiveGaps(bmapstart: nat)
    ensures |Gaps()| == 5 && Apart(bmapstart, Gaps())
  {
    hide MapOf, Gap;
    GapMap(bmapstart, 0);
    GapMap(bmapstart, 1);
    GapMap(bmapstart, 2);
    GapMap(bmapstart, 3);
    GapMap(bmapstart, 4);
    assert Gaps() == {Gap(0), Gap(1), Gap(2), Gap(3)} + {Gap(4)};
  }

  lemma GapMap(bmapstart: nat, q: nat)
    requires q <= 4
    ensures MapOf(bmapstart, Gap(q)) == bmapstart + q
  {
  }

  method ImageBitmap() returns (bitmap: seq<bv8>)
    ensures |bitmap| == 5 * BSIZE && Marked(bitmap, ImageOwner())
  {
    hide Bit, SetBit, OwnerAt, ImageOwner;
    bitmap := seq(5 * BSIZE, _ => 0);
    ImageAt(0);
    NoneSet(bitmap);
    for b := 0 to SIZE
      invariant |bitmap| == 5 * BSIZE
      invariant forall c: nat | c < SIZE :: Bit(bitmap, c) <==> c < b && OwnerAt(c) != Free
    {
      if OwnerAt(b) != Free {
        forall c: nat | c < SIZE
          ensures Bit(SetBit(bitmap, b), c) <==> (b == c || Bit(bitmap, c))
        {
          BitUpdates(bitmap, b, c);
        }
        bitmap := SetBit(bitmap, b);
      }
    }
    forall b: nat | b < SIZE
      ensures ImageOwner()[b] == OwnerAt(b)
    {
      ImageAt(b);
    }
  }

  lemma NoneSet(bitmap: seq<bv8>)
    requires |bitmap| == 5 * BSIZE && forall k | 0 <= k < |bitmap| :: bitmap[k] == 0
    ensures forall b: nat | b < SIZE :: !Bit(bitmap, b)
  {
    hide Mask;
  }

  /** Mount the image, open its last file at the end, and write one chunk. */
  method ReservationExceeded() returns (fs: FileSystem, r: Outcome)
    ensures fs.Settled() && r.Done? && |fs.logged| == RedoLog.MAXOPBLOCKS + 1
  {
    hide Owned, Marked, NoneHeld, ImageInodes, ImageData, ImageOwner, FreeBlocks, Apart, Current, Gaps;
    var bitmap := ImageBitmap();
    ImageOwned();
    ImageFree(80);
    ImageAt(0);
    SlotAt(INODES, 0);
    fs := new FileSystem(NMETA, 2, 30, 32, 80, ImageInodes(), ImageData(), bitmap, ImageOwner());
    var ok := fs.Ilock(INODES);
    r := ElevenBlocks(fs, INODES, OFF, seq(FileWrite.MAX, _ => 1));
  }
}
