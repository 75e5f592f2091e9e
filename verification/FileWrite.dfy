/** write(2) on an inode (kernel/file.c): the data goes in chunks, each its own log
    operation, small enough never to exceed what begin_op reserves. */
module FileWrite {
  import opened Disk
  import opened BlockMap
  import opened FileSystem
  import Mkfs
  import RedoLog

  /** Bytes per operation. */
  const MAX := (RedoLog.MAXOPBLOCKS - 1 - 1 - 2) / 2 * 512

  /** One chunk logs at most MAXOPBLOCKS distinct blocks, unless it touches four blocks, all
      of them and the indirect block are new, and the bitmap has five blocks or more. */
  lemma ChunkFits(ip: Inode, data: Blocks, off: nat, n: nat)
    requires ip.Ok() && 0 < n <= MAX
    ensures LogBound(ip, data, off, n) <= RedoLog.MAXOPBLOCKS <==>
      || Span(off, n) < 4 || Lacking(ip, data, off / BSIZE, off / BSIZE + Span(off, n)) < 5
      || BitmapBlocks(|data|) < 5
    ensures Ready(ip, data, off) || BitmapBlocks(|data|) < 5 ==> LogBound(ip, data, off, n) <= RedoLog.MAXOPBLOCKS
  {
    hide Lacking, BitmapBlocks;
    ChunkSpan(off, n);
    LackingBound(ip, data, off / BSIZE, off / BSIZE + Span(off, n));
    LackingBeyond(ip, data, off / BSIZE, off / BSIZE + Span(off, n));
  }

  lemma ChunkSpan(off: nat, n: nat)
    requires 0 < n <= MAX
    ensures 1 <= Span(off, n) <= 4 && (Span(off, n) == 4 ==> off % BSIZE != 0)
  {
    var q, r := off / BSIZE, off % BSIZE;
    assert off == BSIZE * q + r;
    assert (off + n - 1) / BSIZE == q + (r + n - 1) / BSIZE;
  }

  /** Past the largest file there is nothing to lack but the indirect block. */
  lemma LackingBeyond(ip: Inode, data: Blocks, lo: nat, hi: nat)
    requires ip.Ok()
    ensures lo >= MAXFILE ==> Lacking(ip, data, lo, hi) <= 1
  {
    hide Slot;
    if lo >= MAXFILE {
      assert Holes(ip, data, lo, hi) == {};
    }
  }

  /** Behind a chunk the next one does not start in a hole. */
  lemma ReadyNext(ip: Inode, data: Blocks, ip': Inode, data': Blocks, off: nat, n: nat)
    requires Extended(ip, data, ip', data', off / BSIZE, off / BSIZE + Span(off, n)) && n > 0
    ensures Ready(ip', data', off + n)
  {
    hide Slot;
    var bn := (off + n) / BSIZE;
    if (off + n) % BSIZE != 0 {
      assert off / BSIZE <= bn < off / BSIZE + Span(off, n);
    }
  }

  /** A second write right behind the first is one longer write. */
  lemma OverlaidTwice(cur: seq<Inode>, data: Blocks, cur1: seq<Inode>, data1: Blocks, cur2: seq<Inode>, data2: Blocks,
                      i: nat, off: nat, src: seq<Byte>, n: nat, m: nat)
    requires n + m <= |src|
    requires Overlaid(cur, data, cur1, data1, i, off, src, n)
    requires Overlaid(cur1, data1, cur2, data2, i, off + n, src[n..n + m], m)
    ensures Overlaid(cur, data, cur2, data2, i, off, src, n + m)
  {
    hide FileByte;
    forall j, pos | 0 <= j < |cur| && 0 <= pos < MAXFILE * BSIZE
      ensures FileByte(cur2[j], data2, pos)
           == if j == i && off <= pos < off + n + m then src[pos - off] else FileByte(cur[j], data, pos)
    {
      assert FileByte(cur2[j], data2, pos)
          == if j == i && off + n <= pos < off + n + m then src[n..n + m][pos - off - n]
            else FileByte(cur1[j], data1, pos);
    }
  }

  lemma OverlaidNothing(cur: seq<Inode>, data: Blocks, i: nat, off: nat, src: seq<Byte>)
    requires Inodes(cur)
    ensures Overlaid(cur, data, cur, data, i, off, src, 0)
  {
  }

  // ----- chunks

  /** The length of chunk `k` of `n` bytes. */
  function ChunkLength(n: nat, k: nat): (m: nat)
    requires k * MAX < n
  {
    if n - k * MAX > MAX then MAX else n - k * MAX
  }

  /** How many bytes a write at `off` of a file of `size` bytes accepts: all, or whole chunks
      up to the first that would pass the largest file size. */
  function Accepted(off: nat, size: nat, n: nat): (i: nat) {
    if off + n <= MAXFILE * BSIZE && off <= size then n
    else if off > size || off > MAXFILE * BSIZE then 0 else (MAXFILE * BSIZE - off) / MAX * MAX
  }

  lemma AcceptedStop(off: nat, size: nat, n: nat, k: nat)
    requires k * MAX < n
    requires if k == 0 then off > size || off + ChunkLength(n, 0) > MAXFILE * BSIZE
             else off <= size && off + k * MAX <= MAXFILE * BSIZE < off + k * MAX + ChunkLength(n, k)
    ensures Accepted(off, size, n) == k * MAX
  {
    if off <= size && off <= MAXFILE * BSIZE {
      var room := MAXFILE * BSIZE - off;
      assert k * MAX <= room < k * MAX + MAX;
      assert room / MAX == k;
    }
  }

  datatype Snapshot = Snapshot(cur: seq<Inode>, volume: Volume)

  /** A write at `off` does not start in a hole, or the bitmap is small. */
  ghost predicate Fitting(a: Snapshot, inum: nat, off: nat) {
    && inum < |a.cur| && a.cur[inum].Ok()
    && (Ready(a.cur[inum], a.volume.data, off) || BitmapBlocks(|a.volume.data|) < 5)
  }

  /** One operation: it writes `src` at `off`, and logs every block it changes and few others. */
  ghost predicate Operation(a: Snapshot, b: Snapshot, inum: nat, off: nat, src: seq<Byte>, logged: set<nat>,
                            inodestart: nat, bmapstart: nat) {
    && Overlaid(a.cur, a.volume.data, b.cur, b.volume.data, inum, off, src, |src|)
    && Recorded(a.volume, b.volume, logged, inodestart, bmapstart)
    && inum < |a.cur| && |logged| <= LogBound(a.cur[inum], a.volume.data, off, |src|)
    && (Fitting(a, inum, off) ==> |logged| <= RedoLog.MAXOPBLOCKS)
  }

  /** Operation `k` writes chunk `k`; only the first can exceed its reservation. */
  ghost predicate WritesChunk(states: seq<Snapshot>, ops: seq<set<nat>>, k: nat, inum: nat, off: nat, addr: seq<Byte>,
                              inodestart: nat, bmapstart: nat)
    requires k < |ops| && |states| == |ops| + 1
  {
    && k * MAX < |addr|
    && Operation(states[k], states[k + 1], inum, off + k * MAX, addr[k * MAX..k * MAX + ChunkLength(|addr|, k)], ops[k],
                 inodestart, bmapstart)
    && (k > 0 ==> |ops[k]| <= RedoLog.MAXOPBLOCKS)
  }

  /** The operations of a write of the first `done` bytes of `addr`, one for each chunk. */
  ghost predicate Operations(states: seq<Snapshot>, ops: seq<set<nat>>, inum: nat, off: nat, addr: seq<Byte>, done: nat,
                             inodestart: nat, bmapstart: nat) {
    && |states| == |ops| + 1 && done <= |addr| && |ops| == (done + MAX - 1) / MAX
    && forall k: nat | k < |ops| :: WritesChunk(states, ops, k, inum, off, addr, inodestart, bmapstart)
  }

  /** The chunk that follows `done` bytes of whole chunks. */
  lemma NextChunk(n: nat, done: nat, m: nat)
    requires done < n && done % MAX == 0 && m == if n - done > MAX then MAX else n - done
    ensures var k := (done + MAX - 1) / MAX;
      k * MAX == done && ChunkLength(n, k) == m && (done + m + MAX - 1) / MAX == k + 1
    ensures done + m == n || (done + m) % MAX == 0
  {
    assert MAX == 1536;
    var q := done / 1536;
    assert done == q * 1536;
    assert (done + 1535) / 1536 == q;
    assert (done + m + 1535) / 1536 == q + 1;
  }

  lemma NextOperation(states: seq<Snapshot>, ops: seq<set<nat>>, inum: nat, off: nat, addr: seq<Byte>, done: nat,
                      inodestart: nat, bmapstart: nat, b: Snapshot, logged: set<nat>, m: nat)
    requires Operations(states, ops, inum, off, addr, done, inodestart, bmapstart) && done < |addr| && done % MAX == 0
    requires m == if |addr| - done > MAX then MAX else |addr| - done
    requires Operation(states[|ops|], b, inum, off + done, addr[done..done + m], logged, inodestart, bmapstart)
    requires done > 0 ==> |logged| <= RedoLog.MAXOPBLOCKS
    ensures Operations(states + [b], ops + [logged], inum, off, addr, done + m, inodestart, bmapstart)
    ensures done + m == |addr| || (done + m) % MAX == 0
  {
    hide Operation;
    NextChunk(|addr|, done, m);
    var states', ops' := states + [b], ops + [logged];
    forall k: nat | k < |ops'|
      ensures WritesChunk(states', ops', k, inum, off, addr, inodestart, bmapstart)
    {
      if k < |ops| {
        assert WritesChunk(states, ops, k, inum, off, addr, inodestart, bmapstart);
        assert states'[k] == states[k] && states'[k + 1] == states[k + 1] && ops'[k] == ops[k];
      } else {
        assert states'[k] == states[k] && states'[k + 1] == b && ops'[k] == logged;
      }
    }
  }

  class File {
    const fs: FileSystem
    const inum: nat
    var off: Word

    constructor (fs: FileSystem, inum: nat)
      ensures this.fs == fs && this.inum == inum && off == 0
    {
      this.fs, this.inum, off := fs, inum, 0;
    }

    ghost predicate Valid()
      reads this, fs
    {
      fs.Settled() && inum in fs.icache && fs.icache[inum].Ok()
    }

    ghost function Now(): (s: Snapshot)
      reads this, fs
    {
      Snapshot(fs.Cur(), fs.OnDisk())
    }

    /** begin_op, writei and end_op of one chunk. */
    method WriteChunk(src: seq<Byte>) returns (r: Outcome)
      requires Valid() && 0 < |src| <= MAX && fs.Cur()[inum] == fs.icache[inum]
      modifies fs
      ensures Valid() && fs.Cur()[inum] == fs.icache[inum] && old(fs.Cur()[inum].Ok()) && |fs.data| == |old(fs.data)|
      ensures r.Rejected? <==>
        off > old(fs.icache)[inum].size || off + |src| >= 0x1_0000_0000 || off + |src| > MAXFILE * BSIZE
      ensures r.Rejected? ==> Now() == old(Now()) && fs.icache == old(fs.icache)
      ensures var lo, hi := off / BSIZE, off / BSIZE + Span(off, |src|);
        && (r.Panicked? <==>
              !r.Rejected? && |FreeBlocks(old(fs.owner))| < Lacking(old(fs.Cur())[inum], old(fs.data), lo, hi))
        && (r.Panicked? ==> Full(fs.owner))
        && (r.Done? ==>
              && Operation(old(Now()), Now(), inum, off, src, fs.logged, fs.inodestart, fs.bmapstart)
              && Overlaid(old(fs.Cur()), old(fs.data), fs.Cur(), fs.data, inum, off, src, |src|)
              && (Ready(old(fs.Cur())[inum], old(fs.data), off) ==> |fs.logged| <= RedoLog.MAXOPBLOCKS)
              && off + |src| <= fs.icache[inum].size && off + |src| <= MAXFILE * BSIZE
              && Extended(old(fs.Cur())[inum], old(fs.data), fs.Cur()[inum], fs.data, lo, hi)
              && |FreeBlocks(fs.owner)|
                 == |FreeBlocks(old(fs.owner))| - Lacking(old(fs.Cur())[inum], old(fs.data), lo, hi))
    {
      hide Overlaid, Inodes, Owned, Marked, NoneHeld, Layout, Current, Operation, Recorded, Full, Dense, Tight, Kept,
           Addressed, Backed, LogBound, Lacking, FreeBlocks, Extended, Span, Ready, DenseAfter;
      OwnerLength(fs.Cur(), fs.data, fs.owner, fs.nmeta);
      fs.logged := {};
      r := fs.Writei(inum, src, off);
      CurrentAt(fs.dinodes, fs.icache, inum);
      assert fs.logged - {} == fs.logged;
      if r.Done? {
        OneOperation(old(Now()), Now(), inum, off, src, fs.logged, fs.inodestart, fs.bmapstart);
      } else if r.Rejected? {
        assert fs.Cur() == old(fs.Cur());
      }
    }

    /** filewrite for an inode. `i` bytes are written, by one operation for each chunk: `ops`
        lists what each logged, and `states` what it found and left. */
    method Write(addr: seq<Byte>)
      returns (r: Outcome, ghost i: nat, ghost ops: seq<set<nat>>, ghost states: seq<Snapshot>)
      requires Valid() && |addr| < 0x8000_0000
      modifies this`off, fs
      ensures Operations(states, ops, inum, old(off), addr, i, fs.inodestart, fs.bmapstart) && states[0] == old(Now())
      ensures off == old(off) + i
      ensures old(inum in fs.icache && inum < |fs.Cur()| && fs.Cur()[inum].Ok())
      ensures !r.Panicked? ==>
        && Valid() && states[|ops|] == Now()
        && i == Accepted(old(off), old(fs.icache)[inum].size, |addr|) && (r.Rejected? <==> i < |addr|)
        && Overlaid(old(fs.Cur()), old(fs.data), fs.Cur(), fs.data, inum, old(off), addr, i)
        && Extended(old(fs.Cur())[inum], old(fs.data), fs.Cur()[inum], fs.data,
                    old(off) / BSIZE, old(off) / BSIZE + Span(old(off), i))
      // the panic exactly if there are fewer free blocks than the accepted bytes lack
      ensures var lo, n := old(off) / BSIZE, Accepted(old(off), old(fs.icache)[inum].size, |addr|);
        r.Panicked? <==>
          |FreeBlocks(old(fs.owner))| < Lacking(old(fs.Cur())[inum], old(fs.data), lo, lo + Span(old(off), n))
      ensures r.Panicked? ==> Full(fs.owner) && i < |addr|
    {
      hide Overlaid, Inodes, Owned, Marked, NoneHeld, Layout, Loggable, Current, Operations, Operation, Full, Lacking,
           FreeBlocks,
           Extended, Span, Ready, Accepted;
      ghost var cur, was, size := fs.Cur(), fs.data, fs.icache[inum].size;
      OwnerLength(cur, was, fs.owner, fs.nmeta);
      OverlaidNothing(cur, was, inum, off, addr);
      CurrentAt(fs.dinodes, fs.icache, inum);
      var n := |addr|;
      var done: nat := 0;
      ops, r, states := [], Done, [Now()];
      NoOperations(Now(), inum, off, addr, fs.inodestart, fs.bmapstart);
      NothingLacking(cur[inum], was, fs.owner, off);
      while done < n
        invariant done <= n && Valid() && off == old(off) + done && r == Done && (done == n || done % MAX == 0)
        invariant fs.Cur()[inum] == fs.icache[inum]
        invariant Overlaid(cur, was, fs.Cur(), fs.data, inum, old(off), addr, done)
        invariant Operations(states, ops, inum, old(off), addr, done, fs.inodestart, fs.bmapstart)
        invariant |states| == |ops| + 1 && states[0] == old(Now()) && states[|ops|] == Now()
        invariant done > 0 ==> old(off) <= size && off <= fs.icache[inum].size && off <= MAXFILE * BSIZE
        invariant done == 0 ==> fs.icache[inum].size == size
        invariant Progress(cur[inum], was, old(fs.owner), fs.Cur()[inum], fs.data, fs.owner, old(off), done)
      {
        var n1 := if n - done > MAX then MAX else n - done;
        ghost var now, owner1 := Now(), fs.owner;
        r := WriteChunk(addr[done..done + n1]);
        if r.Panicked? {
          OutOfBlocks(cur[inum], was, old(fs.owner), now.cur[inum], now.volume.data, owner1, old(off), size, n, done,
                      n1);
          return r, done, ops, states;
        }
        if r.Rejected? {
          Stopped(old(off), size, fs.icache[inum].size, n, done, n1);
          break;
        }
        NextOperation(states, ops, inum, old(off), addr, done, fs.inodestart, fs.bmapstart, Now(), fs.logged, n1);
        OverlaidTwice(cur, was, now.cur, now.volume.data, fs.Cur(), fs.data, inum, old(off), addr, done, n1);
        ProgressStep(cur[inum], was, old(fs.owner), now.cur[inum], now.volume.data, owner1, fs.Cur()[inum], fs.data,
                     fs.owner, old(off), done, n1);
        ops, states := ops + [fs.logged], states + [Now()];
        off := off + n1;
        done := done + n1;
      }
      if done == n {
        AllAccepted(old(off), size, n);
      }
      i := done;
    }
  }

  /** What `done` bytes have taken from the free blocks; behind them the file has no hole. */
  ghost predicate Progress(ip: Inode, was: Blocks, owner: seq<Owner>, ip': Inode, data: Blocks, owner': seq<Owner>,
                           off: nat, done: nat) {
    var lo, hi := off / BSIZE, off / BSIZE + Span(off, done);
    && Extended(ip, was, ip', data, lo, hi) && (done > 0 ==> Ready(ip', data, off + done))
    && |FreeBlocks(owner')| + Lacking(ip, was, lo, hi) == |FreeBlocks(owner)|
  }

  lemma NoOperations(a: Snapshot, inum: nat, off: nat, addr: seq<Byte>, inodestart: nat, bmapstart: nat)
    ensures Operations([a], [], inum, off, addr, 0, inodestart, bmapstart)
  {
  }

  lemma OneOperation(a: Snapshot, b: Snapshot, inum: nat, off: nat, src: seq<Byte>, logged: set<nat>,
                     inodestart: nat, bmapstart: nat)
    requires Overlaid(a.cur, a.volume.data, b.cur, b.volume.data, inum, off, src, |src|)
    requires Recorded(a.volume, b.volume, logged, inodestart, bmapstart) && 0 < |src| <= MAX
    requires inum < |a.cur| && a.cur[inum].Ok() && |logged| <= LogBound(a.cur[inum], a.volume.data, off, |src|)
    ensures Operation(a, b, inum, off, src, logged, inodestart, bmapstart)
    ensures Ready(a.cur[inum], a.volume.data, off) ==> |logged| <= RedoLog.MAXOPBLOCKS
  {
    hide Overlaid, Recorded, Ready, LogBound;
    ChunkFits(a.cur[inum], a.volume.data, off, |src|);
  }

  // ----- free blocks

  lemma NothingLacking(ip: Inode, data: Blocks, owner: seq<Owner>, off: nat)
    requires ip.Ok()
    ensures Progress(ip, data, owner, ip, data, owner, off, 0)
  {
    hide Extended, Lacking, FreeBlocks, Ready;
    ExtendedSelf(ip, data, off / BSIZE);
    LackingNone(ip, data, off / BSIZE);
  }

  /** The blocks of two pieces that follow each other. */
  lemma SpanPieces(off: nat, done: nat, m: nat)
    requires m > 0
    ensures var lo, hi, lo' := off / BSIZE, off / BSIZE + Span(off, done), (off + done) / BSIZE;
            lo <= lo' <= hi <= lo' + Span(off + done, m) == lo + Span(off, done + m)
  {
  }

  lemma ProgressStep(ip: Inode, was: Blocks, owner: seq<Owner>, ip1: Inode, data1: Blocks, owner1: seq<Owner>,
                     ip2: Inode, data2: Blocks, owner2: seq<Owner>, off: nat, done: nat, m: nat)
    requires Progress(ip, was, owner, ip1, data1, owner1, off, done) && m > 0
    requires var lo, hi := (off + done) / BSIZE, (off + done) / BSIZE + Span(off + done, m);
             && Extended(ip1, data1, ip2, data2, lo, hi)
             && |FreeBlocks(owner2)| == |FreeBlocks(owner1)| - Lacking(ip1, data1, lo, hi)
    ensures Progress(ip, was, owner, ip2, data2, owner2, off, done + m)
  {
    hide Extended, Lacking, FreeBlocks, Ready, Span;
    var lo, hi := off / BSIZE, off / BSIZE + Span(off, done);
    var lo', hi' := (off + done) / BSIZE, (off + done) / BSIZE + Span(off + done, m);
    SpanPieces(off, done, m);
    ExtendedThen(ip, was, ip1, data1, ip2, data2, lo, hi, lo', hi');
    ExtendedOk(ip, was, ip1, data1, lo, hi);
    LackingRest(ip, was, ip1, data1, lo, hi, lo', hi');
    ReadyNext(ip1, data1, ip2, data2, off + done, m);
  }

  lemma ExtendedOk(ip: Inode, data: Blocks, ip': Inode, data': Blocks, lo: nat, hi: nat)
    requires Extended(ip, data, ip', data', lo, hi)
    ensures ip.Ok() && ip'.Ok()
  {
  }

  /** A chunk for which there are not enough blocks is part of what would be accepted. */
  lemma OutOfBlocks(ip: Inode, was: Blocks, owner: seq<Owner>, ip1: Inode, data1: Blocks, owner1: seq<Owner>,
                    off: nat, size: nat, n: nat, done: nat, m: nat)
    requires Progress(ip, was, owner, ip1, data1, owner1, off, done) && ip.Ok() && ip1.Ok()
    requires done < n && done % MAX == 0 && m == if n - done > MAX then MAX else n - done
    requires off <= size && off + done + m <= MAXFILE * BSIZE
    requires var lo := (off + done) / BSIZE;
             |FreeBlocks(owner1)| < Lacking(ip1, data1, lo, lo + Span(off + done, m))
    ensures var lo := off / BSIZE;
            |FreeBlocks(owner)| < Lacking(ip, was, lo, lo + Span(off, Accepted(off, size, n)))
  {
    hide Extended, Lacking, FreeBlocks, Ready, Span, Accepted;
    var lo, hi := off / BSIZE, off / BSIZE + Span(off, done);
    SpanPieces(off, done, m);
    LackingRest(ip, was, ip1, data1, lo, hi, (off + done) / BSIZE, (off + done) / BSIZE + Span(off + done, m));
    Within(off, size, n, done, m);
    LackingGrows(ip, was, off, done + m, Accepted(off, size, n));
  }

  lemma Within(off: nat, size: nat, n: nat, done: nat, m: nat)
    requires done < n && done % MAX == 0 && m == if n - done > MAX then MAX else n - done
    requires off <= size && off + done + m <= MAXFILE * BSIZE
    ensures done + m <= Accepted(off, size, n)
  {
    assert MAX == 1536;
    if off + n > MAXFILE * BSIZE {
      var q, room := done / 1536, MAXFILE * BSIZE - off;
      assert done == q * 1536 && m == 1536;
      assert room / 1536 >= q + 1;
    }
  }

  /** A chunk that writei rejects is where the write stops. */
  lemma Stopped(off: nat, size: nat, size': nat, n: nat, done: nat, m: nat)
    requires done < n && done % MAX == 0 && m == if n - done > MAX then MAX else n - done
    requires off + done > size' || off + done + m >= 0x1_0000_0000 || off + done + m > MAXFILE * BSIZE
    requires done == 0 ==> size' == size
    requires done > 0 ==> off <= size && off + done <= size' && off + done <= MAXFILE * BSIZE
    ensures Accepted(off, size, n) == done
  {
    var k := done / MAX;
    assert done == k * MAX;
    AcceptedStop(off, size, n, k);
  }

  /** A write that is not stopped is accepted. */
  lemma AllAccepted(off: nat, size: nat, n: nat)
    requires n > 0 ==> off <= size && off + n <= MAXFILE * BSIZE
    ensures Accepted(off, size, n) == n
  {
  }

  /** Mount an image made by mkfs, open one of its files and write: every operation fits its
      reservation. */
  method WriteMounted(image: Mkfs.Image, inum: nat, addr: seq<Byte>)
    returns (ok: bool, f: File, r: Outcome, ghost i: nat, ghost ops: seq<set<nat>>, ghost states: seq<Snapshot>)
    requires image.Valid() && inum < Mkfs.NINODES && |addr| < 0x8000_0000
    ensures ok <==> image.dinodes[inum].typ != 0
    ensures ok ==>
      && Operations(states, ops, inum, 0, addr, i, f.fs.inodestart, f.fs.bmapstart)
      && states[0].cur == image.dinodes && states[0].volume.data == image.data
      && (!r.Panicked? ==> i == Accepted(0, image.dinodes[inum].size, |addr|) && (r.Rejected? <==> i < |addr|))
      && forall k: nat | k < |ops| :: |ops[k]| <= RedoLog.MAXOPBLOCKS
  {
    hide Operations, Lacking, FreeBlocks, Extended, Overlaid, Full, Tight, Owned, Marked, NoneHeld, Span, Current,
         Layout, Loggable;
    var fs := image.Mount();
    OwnerLength(fs.Cur(), fs.data, fs.owner, fs.nmeta);
    ok := fs.Ilock(inum);
    f := new File(fs, inum);
    r, i, ops, states := Done, 0, [], [];
    if ok {
      r, i, ops, states := f.Write(addr);
      AllFit(states, ops, inum, 0, addr, i, fs.inodestart, fs.bmapstart);
    }
  }

  lemma AllFit(states: seq<Snapshot>, ops: seq<set<nat>>, inum: nat, off: nat, addr: seq<Byte>, done: nat,
               inodestart: nat, bmapstart: nat)
    requires Operations(states, ops, inum, off, addr, done, inodestart, bmapstart)
    requires inum < |states[0].cur| && states[0].cur[inum].Ok() && BitmapBlocks(|states[0].volume.data|) < 5
    ensures forall k: nat | k < |ops| :: |ops[k]| <= RedoLog.MAXOPBLOCKS
  {
    hide Overlaid, Recorded, LogBound, Ready;
    forall k: nat | k < |ops|
      ensures |ops[k]| <= RedoLog.MAXOPBLOCKS
    {
      assert WritesChunk(states, ops, k, inum, off, addr, inodestart, bmapstart);
    }
  }
}
