/** commit (kernel/log.c) run on the buffer cache (kernel/bio.c): through bread, memmove,
    bwrite and brelse it does to the flat disk what `Log.Log.Commit` does. */
module CachedLog {
  import opened Disk
  import opened RedoLog
  import opened BufferCache
  import L = Log

  /** Buffer `b` is held by `pid` with the current contents of its block. */
  predicate Holds(cache: BufferCache, b: nat, pid: nat, blockno: Word)
    reads cache
  {
    && b < |cache.bufs| && cache.bufs[b].owner == pid && cache.bufs[b].valid && cache.bufs[b].blockno == blockno
  }

  /** Buffers that were locked are as they were, and no others are locked. */
  ghost predicate SameLocks(bufs: seq<Buf>, bufs': seq<Buf>) {
    && |bufs'| == |bufs|
    && forall i | 0 <= i < |bufs| ::
         bufs'[i].owner == bufs[i].owner && (bufs[i].owner != 0 ==> bufs'[i] == bufs[i])
  }

  lemma LockedBefore(bufs: seq<Buf>, bufs': seq<Buf>, blockno: Word)
    requires SameLocks(bufs, bufs') && Locked(bufs', blockno)
    ensures Locked(bufs, blockno)
  {
  }

  ghost predicate OnlyTwo<T(!new)>(s: seq<T>, s': seq<T>, a: nat, b: nat) {
    |s'| == |s| && forall i | 0 <= i < |s| && i != a && i != b :: s'[i] == s[i]
  }

  /** bread of two different blocks. */
  method ReadPair(cache: BufferCache, pid: nat, first: Word, second: Word) returns (ok: bool, a: nat, b: nat)
    requires cache.Valid() && pid != 0 && first < |cache.disk| && second < |cache.disk| && first != second
    modifies cache
    ensures cache.Valid() && cache.Abs() == old(cache.Abs())
    ensures |cache.bufs| == NBUF == |cache.refs| == |old(cache.refs)| && |cache.view| == |cache.disk|
    ensures cache.view == old(cache.view) && cache.disk == old(cache.disk)
    ensures ok ==>
      && a < NBUF && b < NBUF && a != b && Holds(cache, a, pid, first) && Holds(cache, b, pid, second)
      && cache.bufs[a].data == cache.view[first] && cache.bufs[b].data == cache.view[second]
      && |old(cache.bufs)| == NBUF && old(cache.bufs)[a].owner == 0 == old(cache.bufs)[b].owner
      && OnlyTwo(old(cache.bufs), cache.bufs, a, b) && OnlyTwo(old(cache.refs), cache.refs, a, b)
      && cache.refs[a] == old(cache.refs)[a] + multiset{pid} && cache.refs[b] == old(cache.refs)[b] + multiset{pid}
    ensures !ok ==> Locked(old(cache.bufs), first) || Locked(old(cache.bufs), second) || !Room(cache.bufs)
    ensures Idle(old(cache.refs)) && second in old(cache.Abs()).dirty ==>
      (ok <==> Cached(old(cache.bufs), first) || Room(old(cache.bufs)))
  {
    hide Coherent, Counted, OneBufferPerBlock, Linked, Pinned, BufferCache.Valid, BufferCache.Abs, Cached, Room, Locked,
         Idle;
    a, b := 0, 0;
    AbsIs(cache);
    NoneLocked(cache);
    DirtyCached(cache, second);
    var one := cache.Bread(pid, first);
    AbsIs(cache);
    if !one.Got? {
      if one.Waits? {
        LockedAt(old(cache.bufs), one.w, first);
      }
      return false, a, b;
    }
    HeldBuf(cache, one.b);
    ghost var mid := cache.bufs;
    var two := cache.Bread(pid, second);
    AbsIs(cache);
    if second in old(cache.Abs()).dirty {
      StillCached(old(cache.bufs), mid, one.b, first, second);
    }
    if !two.Got? {
      if two.Waits? {
        LockedAt(old(cache.bufs), two.w, second);
      }
      return false, a, b;
    }
    ok, a, b := true, one.b, two.b;
  }

  lemma LockedAt(bufs: seq<Buf>, w: nat, blockno: Word)
    requires w < |bufs| && bufs[w].Caches(DISK_DEV, blockno) && bufs[w].owner != 0
    ensures Locked(bufs, blockno)
  {
  }

  lemma NoneLocked(cache: BufferCache)
    requires cache.Valid()
    ensures Idle(cache.refs) ==> forall i | 0 <= i < |cache.bufs| :: cache.bufs[i].owner == 0
  {
    hide Linked, OneBufferPerBlock, Coherent;
  }

  lemma StillCached(bufs: seq<Buf>, bufs': seq<Buf>, b: nat, first: Word, second: Word)
    requires b < |bufs| == |bufs'| && bufs' == bufs[b := bufs'[b]] && first != second
    requires bufs[b].Caches(DISK_DEV, first) || bufs[b].Recyclable()
    requires exists i | 0 <= i < |bufs| :: bufs[i].Caches(DISK_DEV, second) && bufs[i].dirty
    ensures Cached(bufs', second)
  {
    var i :| 0 <= i < |bufs| && bufs[i].Caches(DISK_DEV, second) && bufs[i].dirty;
    assert bufs'[i] == bufs[i];
  }

  /** A block whose only current copy is pinned has a buffer. */
  lemma DirtyCached(cache: BufferCache, blockno: Word)
    requires cache.Valid()
    ensures blockno in cache.Abs().dirty ==>
      exists i | 0 <= i < |cache.bufs| :: cache.bufs[i].Caches(DISK_DEV, blockno) && cache.bufs[i].dirty
  {
    hide Linked, OneBufferPerBlock, Counted;
    if blockno in cache.Abs().dirty {
      var i :| 0 <= i < |cache.bufs| && cache.bufs[i].dirty && cache.bufs[i].blockno == blockno;
      assert cache.bufs[i].Caches(DISK_DEV, blockno);
    }
  }

  /** The body of the loops of write_log and install_trans: read two blocks, copy one into the
      other and write it. It is not done if it has to wait for a buffer, or there is none. */
  method CopyBlock(cache: BufferCache, pid: nat, first: Word, second: Word, intoFirst: bool) returns (done: bool)
    requires cache.Valid() && pid != 0 && first < |cache.disk| && second < |cache.disk| && first != second
    modifies cache
    ensures cache.Valid()
    ensures var to, from := if intoFirst then first else second, if intoFirst then second else first;
            |old(cache.view)| == |old(cache.disk)| &&
            cache.Abs() == if done then old(cache.Abs()).Write(to, old(cache.view)[from]) else old(cache.Abs())
    ensures done ==> cache.refs == old(cache.refs) && SameLocks(old(cache.bufs), cache.bufs)
    ensures !done ==> Locked(old(cache.bufs), first) || Locked(old(cache.bufs), second) || !Room(cache.bufs)
    ensures Idle(old(cache.refs)) && second in old(cache.Abs()).dirty ==>
      (done <==> Cached(old(cache.bufs), first) || Room(old(cache.bufs)))
  {
    hide Coherent, Counted, OneBufferPerBlock, Linked, Pinned, BufferCache.Valid, BufferCache.Abs, Cached, Room, Locked,
         Idle, SameLocks, OnlyTwo;
    AbsIs(cache);
    var ok, a, b := ReadPair(cache, pid, first, second);
    if !ok {
      return false;
    }
    ghost var bufs, refs := cache.bufs, cache.refs;
    var to, from := if intoFirst then a else b, if intoFirst then b else a;
    Store(cache, pid, to, from);
    RefsBack(old(cache.refs), refs, cache.refs, a, b, pid);
    LocksBack(old(cache.bufs), bufs, cache.bufs, a, b);
    done := true;
  }

  /** memmove from one held buffer to another, bwrite, and brelse of both. */
  method Store(cache: BufferCache, pid: nat, to: nat, from: nat)
    requires cache.Valid() && pid != 0 && to < NBUF && from < NBUF && to != from && |cache.bufs| == NBUF == |cache.refs|
    requires |cache.view| == |cache.disk|
    requires forall b | b == to || b == from ::
               && cache.bufs[b].owner == pid && cache.bufs[b].valid && cache.bufs[b].blockno < |cache.disk|
               && cache.bufs[b].data == cache.view[cache.bufs[b].blockno]
    requires cache.bufs[to].blockno != cache.bufs[from].blockno
    modifies cache
    ensures cache.Valid()
    ensures cache.Abs() == old(cache.Abs()).Write(old(cache.bufs)[to].blockno, old(cache.bufs)[from].data)
    ensures |cache.bufs| == NBUF == |cache.refs|
    ensures OnlyTwo(old(cache.bufs), cache.bufs, to, from) && OnlyTwo(old(cache.refs), cache.refs, to, from)
    ensures cache.refs[to] == old(cache.refs)[to] - multiset{pid} &&
            cache.refs[from] == old(cache.refs)[from] - multiset{pid}
    ensures cache.bufs[to].owner == 0 == cache.bufs[from].owner
  {
    hide Coherent, Counted, OneBufferPerBlock, Linked, Pinned, BufferCache.Valid, BufferCache.Abs;
    AbsIs(cache);
    cache.Modify(to, pid, cache.bufs[from].data);
    AbsIs(cache);
    var ok := cache.Bwrite(to, pid);
    AbsIs(cache);
    cache.Brelse(from, pid);
    AbsIs(cache);
    cache.Brelse(to, pid);
  }

  lemma LocksBack(bufs: seq<Buf>, bufs1: seq<Buf>, bufs2: seq<Buf>, a: nat, b: nat)
    requires OnlyTwo(bufs, bufs1, a, b) && (OnlyTwo(bufs1, bufs2, a, b) || OnlyTwo(bufs1, bufs2, b, a))
    requires a < |bufs| && b < |bufs| && bufs[a].owner == 0 == bufs[b].owner && bufs2[a].owner == 0 == bufs2[b].owner
    ensures SameLocks(bufs, bufs2)
  {
  }

  lemma RefsBack(refs: seq<multiset<nat>>, refs1: seq<multiset<nat>>, refs2: seq<multiset<nat>>, a: nat, b: nat,
                 pid: nat)
    requires OnlyTwo(refs, refs1, a, b) && (OnlyTwo(refs1, refs2, a, b) || OnlyTwo(refs1, refs2, b, a))
    requires a < |refs| && b < |refs| && a != b
    requires refs1[a] == refs[a] + multiset{pid} && refs1[b] == refs[b] + multiset{pid}
    requires refs2[a] == refs1[a] - multiset{pid} && refs2[b] == refs1[b] - multiset{pid}
    ensures refs2 == refs
  {
    assert refs[a] + multiset{pid} - multiset{pid} == refs[a];
    assert refs[b] + multiset{pid} - multiset{pid} == refs[b];
  }

  lemma AbsIs(cache: BufferCache)
    requires cache.Valid()
    ensures cache.Abs().disk == cache.disk && cache.Abs().view == cache.view && |cache.view| == |cache.disk| &&
            |cache.bufs| == NBUF
    ensures |cache.refs| == NBUF
  {
  }

  lemma HeldBuf(cache: BufferCache, a: nat)
    requires cache.Valid() && a < NBUF && |cache.bufs| == NBUF && cache.bufs[a].owner != 0
    ensures !cache.bufs[a].Recyclable()
  {
    CoherentAt(cache.bufs, cache.refs, cache.disk, cache.view, a);
  }

  lemma AbsOk(cache: BufferCache)
    requires cache.Valid()
    ensures cache.Abs().Ok()
  {
    hide Linked;
  }

  // ----- how many buffers are pinned

  /** The blocks of the dirty buffers among the first `n`. */
  ghost function DirtyBlocks(bufs: seq<Buf>, n: nat): (s: set<nat>)
    requires n <= |bufs|
  {
    if n == 0 then {}
    else DirtyBlocks(bufs, n - 1) + if bufs[n - 1].dirty then {bufs[n - 1].blockno} else {}
  }

  ghost predicate DirtyAmong(bufs: seq<Buf>, n: nat, b: nat)
    requires n <= |bufs|
  {
    exists i | 0 <= i < n :: bufs[i].dirty && bufs[i].blockno == b
  }

  lemma {:induction false} InDirtyBlocks(bufs: seq<Buf>, n: nat, b: nat)
    requires n <= |bufs|
    ensures b in DirtyBlocks(bufs, n) <==> DirtyAmong(bufs, n, b)
  {
    if n > 0 {
      InDirtyBlocks(bufs, n - 1, b);
    }
  }

  ghost predicate DirtyApart(bufs: seq<Buf>) {
    forall i, j | 0 <= i < j < |bufs| && bufs[i].dirty && bufs[j].dirty :: bufs[i].blockno != bufs[j].blockno
  }

  ghost predicate AllDirty(bufs: seq<Buf>, n: nat)
    requires n <= |bufs|
  {
    forall i | 0 <= i < n :: bufs[i].dirty
  }

  lemma NotYetDirty(bufs: seq<Buf>, n: nat)
    requires n < |bufs| && DirtyApart(bufs)
    ensures bufs[n].dirty ==> bufs[n].blockno !in DirtyBlocks(bufs, n)
  {
    InDirtyBlocks(bufs, n, bufs[n].blockno);
  }

  lemma {:induction false} CountDirty(bufs: seq<Buf>, n: nat)
    requires n <= |bufs| && DirtyApart(bufs)
    ensures |DirtyBlocks(bufs, n)| <= n
    ensures |DirtyBlocks(bufs, n)| == n <==> AllDirty(bufs, n)
  {
    hide DirtyApart;
    if n > 0 {
      CountDirty(bufs, n - 1);
      NotYetDirty(bufs, n - 1);
    }
  }

  lemma BuffersApart(cache: BufferCache)
    requires cache.Valid()
    ensures DirtyApart(cache.bufs) && |cache.bufs| == NBUF && cache.Abs().dirty == DirtyBlocks(cache.bufs, NBUF)
  {
    hide Linked, Counted, DirtyBlocks;
    var bufs := cache.bufs;
    forall i, j | 0 <= i < j < |bufs| && bufs[i].dirty && bufs[j].dirty
      ensures bufs[i].blockno != bufs[j].blockno
    {
      assert bufs[i].blockno == bufs[j].blockno ==> bufs[i].Caches(bufs[j].dev, bufs[j].blockno);
    }
    forall b: nat
      ensures b in cache.Abs().dirty <==> b in DirtyBlocks(bufs, NBUF)
    {
      InDirtyBlocks(bufs, NBUF, b);
    }
  }

  lemma IdleRoom(cache: BufferCache)
    requires cache.Valid() && Idle(cache.refs)
    ensures |cache.bufs| == NBUF && (Room(cache.bufs) <==> !AllDirty(cache.bufs, NBUF))
    ensures AllDirty(cache.bufs, NBUF) ==> forall b: Word | Cached(cache.bufs, b) :: b in cache.Abs().dirty
  {
    hide Linked, OneBufferPerBlock;
    var bufs := cache.bufs;
    assert forall i | 0 <= i < NBUF :: bufs[i].Recyclable() <==> !bufs[i].dirty;
  }

  /** When nobody refers to a buffer, one can be recycled exactly if not every buffer is
      pinned; if every one is, the pinned blocks are all that is cached. */
  lemma BufferCount(cache: BufferCache)
    requires cache.Valid() && Idle(cache.refs)
    ensures |cache.Abs().dirty| <= NBUF && (Room(cache.bufs) <==> |cache.Abs().dirty| < NBUF)
    ensures !Room(cache.bufs) ==> forall b: Word | Cached(cache.bufs, b) :: b in cache.Abs().dirty
  {
    hide BufferCache.Valid, BufferCache.Abs, Cached, Room, Idle, AllDirty, DirtyApart, DirtyBlocks;
    BuffersApart(cache);
    CountDirty(cache.bufs, NBUF);
    IdleRoom(cache);
  }

  /** Whether a block that is not pinned can be read. */
  lemma CanRead(cache: BufferCache, b: Word)
    requires cache.Valid() && b !in cache.Abs().dirty
    ensures Idle(cache.refs) ==> (Cached(cache.bufs, b) || Room(cache.bufs) <==> |cache.Abs().dirty| < NBUF)
  {
    hide BufferCache.Valid, BufferCache.Abs, Cached, Room;
    if Idle(cache.refs) {
      BufferCount(cache);
    }
  }

  // ----- the steps of commit

  ghost function Listed(lh: seq<Word>): (s: set<nat>) {
    set b | b in lh
  }

  lemma ListedIs(lh: seq<Word>)
    ensures Listed(lh) == (set b | b in lh)
  {
  }

  /** What a commit of `lh` reads. */
  predicate Needs(g: Geometry, lh: seq<Word>, b: Word) {
    g.start <= b <= g.start + |lh| || b in lh
  }

  /** Some block that the commit needs was locked, or no buffer could be recycled. */
  ghost predicate Hindered(bufs: seq<Buf>, bufs': seq<Buf>, g: Geometry, lh: seq<Word>) {
    (exists b: Word | Needs(g, lh, b) :: Locked(bufs, b)) || !Room(bufs')
  }

  lemma HinderedAt(bufs: seq<Buf>, bufs1: seq<Buf>, bufs2: seq<Buf>, g: Geometry, lh: seq<Word>, first: Word,
                   second: Word)
    requires SameLocks(bufs, bufs1) && Needs(g, lh, first) && Needs(g, lh, second)
    requires Locked(bufs1, first) || Locked(bufs1, second) || !Room(bufs2)
    ensures Hindered(bufs, bufs2, g, lh)
  {
    hide SameLocks, Locked, Room, Needs;
    if Locked(bufs1, first) {
      LockedBefore(bufs, bufs1, first);
    }
    if Locked(bufs1, second) {
      LockedBefore(bufs, bufs1, second);
    }
  }

  lemma SameLocksThen(bufs: seq<Buf>, bufs1: seq<Buf>, bufs2: seq<Buf>)
    requires SameLocks(bufs, bufs1) && SameLocks(bufs1, bufs2)
    ensures SameLocks(bufs, bufs2)
  {
  }

  lemma SameLocksSelf(bufs: seq<Buf>)
    ensures SameLocks(bufs, bufs)
  {
  }

  /** write_head. */
  method PutHeader(cache: BufferCache, pid: nat, start: Word, lh: seq<Word>) returns (done: bool)
    requires cache.Valid() && pid != 0 && start < |cache.disk| && |lh| <= LOGSIZE
    modifies cache
    ensures cache.Valid() && |old(cache.view)| == |old(cache.disk)|
    ensures cache.Abs() == if done then old(cache.Abs()).Write(start, PutHead(old(cache.view)[start], lh))
            else old(cache.Abs())
    ensures done ==> cache.refs == old(cache.refs) && SameLocks(old(cache.bufs), cache.bufs)
    ensures !done ==> Locked(old(cache.bufs), start) || !Room(cache.bufs)
    ensures Idle(old(cache.refs)) ==> (done <==> Cached(old(cache.bufs), start) || Room(old(cache.bufs)))
  {
    hide Coherent, Counted, OneBufferPerBlock, Linked, Pinned, BufferCache.Valid, BufferCache.Abs, PutHead, Cached,
         Room, Locked, Idle;
    AbsIs(cache);
    NoneLocked(cache);
    var one := cache.Bread(pid, start);
    AbsIs(cache);
    if !one.Got? {
      if one.Waits? {
        LockedAt(old(cache.bufs), one.w, start);
      }
      return false;
    }
    cache.Modify(one.b, pid, PutHead(cache.bufs[one.b].data, lh));
    AbsIs(cache);
    var ok := cache.Bwrite(one.b, pid);
    AbsIs(cache);
    cache.Brelse(one.b, pid);
    assert old(cache.refs)[one.b] + multiset{pid} - multiset{pid} == old(cache.refs)[one.b];
    done := true;
  }

  /** write_log, which is done if `k` reaches the end of the list. */
  method WriteLog(cache: BufferCache, pid: nat, g: Geometry, lh: seq<Word>) returns (k: nat, ghost writes: seq<Blocks>)
    requires cache.Valid() && pid != 0 && |cache.disk| <= 0x1_0000_0000
    requires Installable(g, cache.disk, lh) && cache.Abs().dirty == Listed(lh)
    modifies cache
    ensures cache.Valid() && L.Filling(g, old(cache.Abs()), cache.Abs(), lh, k)
    ensures |old(cache.view)| == |old(cache.disk)| && writes == FillWrites(g, old(cache.disk), old(cache.view), lh, k)
    ensures if k == |lh| then cache.refs == old(cache.refs) && SameLocks(old(cache.bufs), cache.bufs)
            else Hindered(old(cache.bufs), cache.bufs, g, lh)
    ensures Idle(old(cache.refs)) ==> (k == |lh| <==> |old(cache.Abs()).dirty| < NBUF)
  {
    hide Coherent, Counted, OneBufferPerBlock, Linked, Pinned, BufferCache.Valid, BufferCache.Abs, Filled, FillWrites,
         Cached, Room, Locked, Idle, SameLocks, Hindered, Needs, Listed;
    ghost var f0 := cache.Abs();
    AbsIs(cache);
    AbsOk(cache);
    FillStart(g, f0, lh);
    SameLocksSelf(cache.bufs);
    k, writes := 0, [];
    while k < |lh|
      invariant cache.Valid() && k <= |lh| && L.Filling(g, f0, cache.Abs(), lh, k)
      invariant writes == FillWrites(g, f0.disk, f0.view, lh, k)
      invariant cache.refs == old(cache.refs) && SameLocks(old(cache.bufs), cache.bufs)
      invariant k > 0 && Idle(old(cache.refs)) ==> |f0.dirty| < NBUF
    {
      AbsIs(cache);
      ListedIs(lh);
      L.FillingStep(g, f0, cache.Abs(), lh, k);
      NeedsPair(g, lh, k);
      LogClean(g, f0.disk, lh, g.start + k + 1);
      CanRead(cache, g.start + k + 1);
      ghost var bufs := cache.bufs;
      var done := CopyBlock(cache, pid, g.start + k + 1, lh[k], true);
      if !done {
        HinderedAt(old(cache.bufs), bufs, cache.bufs, g, lh, g.start + k + 1, lh[k]);
        return;
      }
      SameLocksThen(old(cache.bufs), bufs, cache.bufs);
      AbsIs(cache);
      writes := writes + [cache.disk];
      k := k + 1;
    }
    NothingPinned(lh, f0.dirty);
  }

  lemma NothingPinned(lh: seq<Word>, dirty: set<nat>)
    requires dirty == Listed(lh)
    ensures lh == [] ==> dirty == {}
  {
  }

  lemma NeedsPair(g: Geometry, lh: seq<Word>, k: nat)
    requires k < |lh| && g.start + |lh| < 0x1_0000_0000
    ensures Needs(g, lh, g.start + k + 1) && Needs(g, lh, lh[k]) && Needs(g, lh, g.start)
  {
  }

  /** Log blocks are not home blocks of the transaction. */
  lemma LogClean(g: Geometry, disk: Blocks, lh: seq<Word>, b: Word)
    requires Installable(g, disk, lh) && g.start <= b <= g.start + |lh|
    ensures b !in Listed(lh)
  {
  }

  lemma FillStart(g: Geometry, f: Flat, lh: seq<Word>)
    requires f.Ok() && Installable(g, f.disk, lh)
    ensures L.Filling(g, f, f, lh, 0) && FillWrites(g, f.disk, f.view, lh, 0) == []
  {
  }

  /** install_trans. */
  method InstallTrans(cache: BufferCache, pid: nat, g: Geometry, lh: seq<Word>)
    returns (k: nat, ghost writes: seq<Blocks>)
    requires cache.Valid() && pid != 0 && |cache.disk| <= 0x1_0000_0000
    requires Installable(g, cache.disk, lh) && cache.Abs().dirty <= Listed(lh)
    modifies cache
    ensures cache.Valid() && L.Installing(g, old(cache.Abs()), cache.Abs(), lh, k)
    ensures writes == InstallWrites(g, old(cache.disk), lh, k)
    ensures if k == |lh| then cache.refs == old(cache.refs) && SameLocks(old(cache.bufs), cache.bufs)
            else Hindered(old(cache.bufs), cache.bufs, g, lh)
    ensures Idle(old(cache.refs)) && L.Distinct(lh) && old(cache.Abs()).dirty == Listed(lh) && |lh| < NBUF ==> k == |lh|
  {
    hide Coherent, Counted, OneBufferPerBlock, Linked, Pinned, BufferCache.Valid, BufferCache.Abs, Installed,
         InstallWrites, Cached, Room, Locked, Idle, SameLocks, Hindered, Needs, L.Distinct, FirstOf, L.Installing,
         Installable, Listed;
    ghost var f0 := cache.Abs();
    AbsIs(cache);
    AbsOk(cache);
    InstallStart(g, f0, lh);
    SameLocksSelf(cache.bufs);
    k, writes := 0, [];
    while k < |lh|
      invariant cache.Valid() && k <= |lh| && L.Installing(g, f0, cache.Abs(), lh, k)
      invariant writes == InstallWrites(g, f0.disk, lh, k)
      invariant cache.refs == old(cache.refs) && SameLocks(old(cache.bufs), cache.bufs)
      invariant cache.Abs().dirty == f0.dirty - FirstOf(lh, k)
    {
      AbsIs(cache);
      InstallNext(g, f0, cache.Abs(), lh, k);
      CanRead(cache, g.start + k + 1);
      ghost var bufs := cache.bufs;
      var done := CopyBlock(cache, pid, g.start + k + 1, lh[k], false);
      if !done {
        HinderedAt(old(cache.bufs), bufs, cache.bufs, g, lh, g.start + k + 1, lh[k]);
        return;
      }
      SameLocksThen(old(cache.bufs), bufs, cache.bufs);
      AbsIs(cache);
      writes := writes + [cache.disk];
      k := k + 1;
    }
  }

  lemma InstallStart(g: Geometry, f: Flat, lh: seq<Word>)
    requires f.Ok() && Installable(g, f.disk, lh) && f.dirty <= Listed(lh)
    ensures L.Installing(g, f, f, lh, 0) && InstallWrites(g, f.disk, lh, 0) == []
    ensures f.dirty == f.dirty - FirstOf(lh, 0)
  {
    assert lh[0..] == lh;
  }

  lemma InstallNext(g: Geometry, f0: Flat, f: Flat, lh: seq<Word>, k: nat)
    requires L.Installing(g, f0, f, lh, k) && k < |lh| && f0.dirty <= Listed(lh)
    requires f.dirty == f0.dirty - FirstOf(lh, k) && |f0.disk| <= 0x1_0000_0000
    ensures var first := g.start + k + 1;
            && first < |f.disk| == |f.view| && first < 0x1_0000_0000 && lh[k] < |f.disk| && first != lh[k] &&
              first !in f.dirty
            && Needs(g, lh, first) && Needs(g, lh, lh[k])
            && L.Installing(g, f0, f.Write(lh[k], f.view[first]), lh, k + 1)
            && InstallWrites(g, f0.disk, lh, k + 1) == InstallWrites(g, f0.disk, lh, k) +
              [f.Write(lh[k], f.view[first]).disk]
    ensures f.dirty - {lh[k]} == f0.dirty - FirstOf(lh, k + 1)
    ensures L.Distinct(lh) && f0.dirty == Listed(lh) ==> lh[k] in f.dirty && |f.dirty| <= |lh|
  {
    hide Needs, FirstOf, Installed, InstallWrites, L.Distinct;
    L.InstallingStep(g, f0, f, lh, k);
    NeedsPair(g, lh, k);
    LogClean(g, f0.disk, lh, g.start + k + 1);
    StillPinned(lh, k, f0.dirty, f.dirty);
  }

  /** The first `k` blocks of the list. */
  ghost function FirstOf(lh: seq<Word>, k: nat): (s: set<nat>)
    requires k <= |lh|
  {
    if k == 0 then {} else FirstOf(lh, k - 1) + {lh[k - 1]}
  }

  lemma {:induction false} FirstOfIn(lh: seq<Word>, k: nat)
    requires k <= |lh|
    ensures forall b: nat :: b in FirstOf(lh, k) <==> b in lh[..k]
  {
    if k > 0 {
      FirstOfIn(lh, k - 1);
      assert lh[..k] == lh[..k - 1] + [lh[k - 1]];
    }
  }

  lemma {:induction false} FirstOfCount(lh: seq<Word>, k: nat)
    requires k <= |lh| && L.Distinct(lh)
    ensures |FirstOf(lh, k)| == k
  {
    if k > 0 {
      FirstOfCount(lh, k - 1);
      FirstOfIn(lh, k - 1);
    }
  }

  lemma DistinctCount(lh: seq<Word>)
    requires L.Distinct(lh)
    ensures |Listed(lh)| == |lh|
  {
    FirstOfCount(lh, |lh|);
    FirstOfIn(lh, |lh|);
    assert lh[..|lh|] == lh;
    assert FirstOf(lh, |lh|) == Listed(lh);
  }

  /** Blocks are unpinned one after the other. */
  lemma StillPinned(lh: seq<Word>, k: nat, dirty: set<nat>, dirty': set<nat>)
    requires k < |lh| && dirty' == dirty - FirstOf(lh, k)
    ensures dirty' - {lh[k]} == dirty - FirstOf(lh, k + 1)
    ensures L.Distinct(lh) && dirty == Listed(lh) ==> lh[k] in dirty' && |dirty'| <= |lh|
  {
    if L.Distinct(lh) && dirty == Listed(lh) {
      DistinctCount(lh);
      FirstOfIn(lh, k);
      assert dirty == dirty' + (dirty - dirty');
    }
  }

  /** commit up to the write of the header, which is the commit point. */
  method CommitLog(cache: BufferCache, pid: nat, g: Geometry, lh: seq<Word>)
    returns (done: bool, ghost writes: seq<Blocks>)
    requires cache.Valid() && pid != 0 && |cache.disk| <= 0x1_0000_0000
    requires lh != [] && Installable(g, cache.disk, lh) && cache.Abs().dirty == Listed(lh)
    modifies cache
    ensures cache.Valid() && |old(cache.view)| == |old(cache.disk)|
    ensures writes <= CommitWrites(g, old(cache.disk), old(cache.view), lh)
    ensures cache.disk == if writes == [] then old(cache.disk) else writes[|writes| - 1]
    ensures done ==>
      && cache.Abs().dirty == old(cache.Abs()).dirty && Installable(g, cache.disk, lh)
      && cache.disk == Committed(g, old(cache.disk), old(cache.view), lh)
      && cache.view == Committed(g, old(cache.view), old(cache.view), lh)
      && writes == FillWrites(g, old(cache.disk), old(cache.view), lh, |lh|) + [cache.disk]
      && cache.refs == old(cache.refs) && SameLocks(old(cache.bufs), cache.bufs)
    ensures !done ==> Hindered(old(cache.bufs), cache.bufs, g, lh)
    ensures Idle(old(cache.refs)) ==> (done <==> |old(cache.Abs()).dirty| < NBUF)
  {
    hide Coherent, Counted, OneBufferPerBlock, Linked, Pinned, BufferCache.Valid, BufferCache.Abs, PutHead,
         CommitWrites, Filled, Committed, FillWrites, Targets, Cached, Room, Locked, Idle, SameLocks, Hindered, Needs,
         Listed;
    ghost var f0 := cache.Abs();
    AbsIs(cache);
    AbsOk(cache);
    NeedsPair(g, lh, 0);
    LogClean(g, f0.disk, lh, g.start);
    var k: nat;
    k, writes := WriteLog(cache, pid, g, lh);
    AbsIs(cache);
    CommitStop(g, f0, cache.Abs(), lh, k, writes);
    if k < |lh| {
      return false, writes;
    }
    ghost var bufs := cache.bufs;
    ListedIs(lh);
    L.HeaderStep(g, f0, cache.Abs(), lh);
    CanRead(cache, g.start);
    var ok := PutHeader(cache, pid, g.start, lh);
    AbsIs(cache);
    if !ok {
      HinderedAt(old(cache.bufs), bufs, cache.bufs, g, lh, g.start, g.start);
      return false, writes;
    }
    SameLocksThen(old(cache.bufs), bufs, cache.bufs);
    HeaderStop(g, f0, lh, writes);
    writes := writes + [cache.disk];
    done := true;
  }

  /** commit of a non-empty transaction. If it is done, every home block on disk has its
      cached contents and nothing is pinned; what a crash can find on the way are the disks
      of `CommitWrites`, in order. When no process refers to a buffer it is done exactly if
      the transaction leaves a buffer free for the log. */
  method Commit(cache: BufferCache, pid: nat, g: Geometry, lh: seq<Word>)
    returns (done: bool, ghost writes: seq<Blocks>)
    requires cache.Valid() && pid != 0 && |cache.disk| <= 0x1_0000_0000
    requires lh != [] && Installable(g, cache.disk, lh) && cache.Abs().dirty == Listed(lh) && L.Distinct(lh)
    modifies cache
    ensures cache.Valid() && |old(cache.view)| == |old(cache.disk)|
    ensures writes <= CommitWrites(g, old(cache.disk), old(cache.view), lh)
    ensures cache.disk == if writes == [] then old(cache.disk) else writes[|writes| - 1]
    ensures done ==>
      && writes == CommitWrites(g, old(cache.disk), old(cache.view), lh)
      && cache.Abs().dirty == {} && HeadCount(cache.disk[g.start]) == 0
      && SameHome(g, cache.view, old(cache.view)) && SameHome(g, cache.disk, old(cache.view))
      && cache.refs == old(cache.refs) && SameLocks(old(cache.bufs), cache.bufs)
    ensures !done ==> Hindered(old(cache.bufs), cache.bufs, g, lh)
    ensures Idle(old(cache.refs)) ==> (done <==> |lh| < NBUF)
  {
    hide Coherent, Counted, OneBufferPerBlock, Linked, Pinned, BufferCache.Valid, BufferCache.Abs, PutHead, HeadCount,
         CommitWrites, SameHome, Installed, Filled, Committed, InstallWrites, FillWrites, Targets, Cached, Room, Locked,
         Idle, SameLocks, Hindered, Needs, L.Distinct, Listed;
    ghost var f0 := cache.Abs();
    AbsIs(cache);
    AbsOk(cache);
    DistinctCount(lh);
    NeedsPair(g, lh, 0);
    LogClean(g, f0.disk, lh, g.start);
    done, writes := CommitLog(cache, pid, g, lh);
    AbsIs(cache);
    if !done {
      return;
    }
    ghost var f2, bufs := cache.Abs(), cache.bufs;
    AbsOk(cache);
    var k;
    ghost var more: seq<Blocks>;
    k, more := InstallTrans(cache, pid, g, lh);
    AbsIs(cache);
    InstallStop(g, f0, f2, cache.Abs(), lh, k, writes, more);
    writes := writes + more;
    if k < |lh| {
      HinderedLater(old(cache.bufs), bufs, cache.bufs, g, lh);
      return false, writes;
    }
    SameLocksThen(old(cache.bufs), bufs, cache.bufs);
    ghost var f3 := cache.Abs();
    bufs := cache.bufs;
    ListedIs(lh);
    L.ClearStep(g, f0, f2, f3, lh);
    AllInstalled(lh, f3.dirty);
    CanRead(cache, g.start);
    done := PutHeader(cache, pid, g.start, []);
    AbsIs(cache);
    if !done {
      HinderedAt(old(cache.bufs), bufs, cache.bufs, g, lh, g.start, g.start);
      return false, writes;
    }
    SameLocksThen(old(cache.bufs), bufs, cache.bufs);
    writes := writes + [cache.disk];
  }

  lemma AllInstalled(lh: seq<Word>, dirty: set<nat>)
    requires dirty <= (set b | b in lh[|lh|..])
    ensures dirty == {}
  {
  }

  lemma HinderedLater(bufs: seq<Buf>, bufs1: seq<Buf>, bufs2: seq<Buf>, g: Geometry, lh: seq<Word>)
    requires SameLocks(bufs, bufs1) && Hindered(bufs1, bufs2, g, lh)
    ensures Hindered(bufs, bufs2, g, lh)
  {
    hide SameLocks, Locked, Room, Needs;
    if Room(bufs2) {
      var b: Word :| Needs(g, lh, b) && Locked(bufs1, b);
      LockedBefore(bufs, bufs1, b);
    }
  }

  // ----- where commit can stop

  lemma CommitStop(g: Geometry, f0: Flat, f: Flat, lh: seq<Word>, k: nat, writes: seq<Blocks>)
    requires L.Filling(g, f0, f, lh, k) && writes == FillWrites(g, f0.disk, f0.view, lh, k)
    ensures writes <= CommitWrites(g, f0.disk, f0.view, lh)
    ensures f.disk == if writes == [] then f0.disk else writes[|writes| - 1]
  {
    hide Filled, Committed, PutHead, InstallWrites;
    assert k == 0 ==> f.disk == f0.disk by {
      FilledNone(g, f0, lh);
    }
  }

  lemma FilledNone(g: Geometry, f0: Flat, lh: seq<Word>)
    requires Installable(g, f0.disk, lh) && |f0.view| == |f0.disk|
    ensures Filled(g, f0.disk, f0.view, lh, 0) == f0.disk
  {
  }

  lemma HeaderStop(g: Geometry, f0: Flat, lh: seq<Word>, writes: seq<Blocks>)
    requires Installable(g, f0.disk, lh) && |f0.view| == |f0.disk| &&
             writes == FillWrites(g, f0.disk, f0.view, lh, |lh|)
    ensures writes + [Committed(g, f0.disk, f0.view, lh)] <= CommitWrites(g, f0.disk, f0.view, lh)
  {
    hide Filled, Committed, PutHead, InstallWrites, FillWrites;
  }

  lemma InstallStop(g: Geometry, f0: Flat, f2: Flat, f: Flat, lh: seq<Word>, k: nat, writes: seq<Blocks>,
                    more: seq<Blocks>)
    requires Installable(g, f0.disk, lh) && |f0.view| == |f0.disk| && L.Installing(g, f2, f, lh, k)
    requires f2.disk == Committed(g, f0.disk, f0.view, lh)
    requires writes == FillWrites(g, f0.disk, f0.view, lh, |lh|) + [f2.disk] && more == InstallWrites(g, f2.disk, lh, k)
    ensures writes + more <= CommitWrites(g, f0.disk, f0.view, lh)
    ensures f.disk == (writes + more)[|writes + more| - 1]
  {
    hide Filled, Committed, PutHead, FillWrites, Installed;
    CommittedRecoverable(g, f0.disk, f0.view, lh);
    assert more <= InstallWrites(g, f2.disk, lh, |lh|);
    assert k == 0 ==> f.disk == f2.disk by {
      InstalledNone(g, f2, lh);
    }
  }

  lemma InstalledNone(g: Geometry, f: Flat, lh: seq<Word>)
    requires Installable(g, f.disk, lh)
    ensures Installed(g, f.disk, lh, 0) == f.disk
  {
  }

  // ----- a run of log_write calls and their commit

  /** The log above the cache: what is pinned is what is listed. */
  class LogOnCache {
    const cache: BufferCache
    const g: Geometry
    var lh: seq<Word>
    var outstanding: nat

    ghost predicate Valid()
      reads this, cache
    {
      && cache.Valid() && |cache.disk| <= 0x1_0000_0000
      && Installable(g, cache.disk, lh) && L.Distinct(lh) && cache.Abs().dirty == Listed(lh)
    }

    ghost function View(): (c: L.Control)
      reads this
    {
      L.Control(lh, outstanding, false)
    }

    /** An empty transaction over a cache without pinned blocks. */
    constructor (cache: BufferCache, g: Geometry, outstanding: nat)
      requires cache.Valid() && |cache.disk| <= 0x1_0000_0000 && Installable(g, cache.disk, []) &&
               cache.Abs().dirty == {}
      ensures Valid() && this.cache == cache && this.g == g && View() == L.Control([], outstanding, false)
    {
      this.cache, this.g, this.lh, this.outstanding := cache, g, [], outstanding;
    }

    /** log_write. False stands for one of its panics. */
    method LogWrite(b: nat, pid: nat) returns (ok: bool)
      requires Valid() && b < NBUF && pid != 0 && |cache.bufs| == NBUF && |cache.view| == |cache.disk|
      requires cache.bufs[b].owner == pid && cache.bufs[b].valid
      requires cache.bufs[b].blockno < |cache.disk| && !g.InLog(cache.bufs[b].blockno)
      modifies this`lh, cache
      ensures Valid() && ok == old(View()).Guard(g.size)
      ensures View() == if ok then old(View()).Append(old(cache.bufs)[b].blockno) else old(View())
      ensures cache.Abs() == if ok then old(cache.Abs()).Defer(old(cache.bufs)[b].blockno, old(cache.bufs)[b].data)
                             else old(cache.Abs())
      ensures cache.bufs == if ok then old(cache.bufs)[b := old(cache.bufs)[b].(dirty := true)] else old(cache.bufs)
      ensures cache.refs == old(cache.refs)
    {
      hide BufferCache.Valid, BufferCache.Abs, Installable, Listed, L.Distinct;
      AbsIs(cache);
      if |lh| >= LOGSIZE || |lh| >= g.size - 1 || outstanding < 1 {
        return false;
      }
      var blockno := cache.bufs[b].blockno;
      ListMore(g, cache.disk, lh, blockno);
      if blockno !in lh {
        lh := lh + [blockno];
      }
      cache.Pin(b, pid);
      AbsIs(cache);
      ok := true;
    }

    /** bread, memmove, log_write and brelse of one block. */
    method Update(pid: nat, blockno: Word, data: Block) returns (ok: bool)
      requires Valid() && pid != 0 && blockno < |cache.disk| && !g.InLog(blockno)
      modifies this`lh, cache
      ensures Valid() && |old(cache.view)| == |old(cache.disk)|
      ensures ok ==>
        && View() == old(View()).Append(blockno) && cache.Abs() == old(cache.Abs()).Defer(blockno, data)
        && cache.refs == old(cache.refs)
      ensures !ok ==> View() == old(View()) && cache.Abs() == old(cache.Abs())
      ensures Idle(old(cache.refs)) ==> (ok <==> old(View()).Guard(g.size))
    {
      hide BufferCache.Valid, BufferCache.Abs, Installable, Listed, L.Distinct, Cached, Room, Idle;
      AbsIs(cache);
      NoneLocked(cache);
      if View().Guard(g.size) {
        RoomInLog(this);
      }
      var r := cache.Bread(pid, blockno);
      AbsIs(cache);
      if !r.Got? {
        return false;
      }
      cache.Modify(r.b, pid, data);
      AbsIs(cache);
      ok := LogWrite(r.b, pid);
      AbsIs(cache);
      if ok {
        cache.Brelse(r.b, pid);
        assert old(cache.refs)[r.b] + multiset{pid} - multiset{pid} == old(cache.refs)[r.b];
      }
    }

    /** commit, in the process that closed the transaction. */
    method CommitOp(pid: nat) returns (done: bool)
      requires Valid() && pid != 0
      modifies this`lh, cache
      ensures |old(cache.view)| == |old(cache.disk)|
      ensures done ==>
        && Valid() && lh == [] && cache.refs == old(cache.refs)
        && SameHome(g, cache.view, old(cache.view)) && SameHome(g, cache.disk, old(cache.view))
      ensures Idle(old(cache.refs)) ==> (done <==> |old(lh)| < NBUF)
    {
      hide BufferCache.Valid, BufferCache.Abs, Installable, Listed, L.Distinct, Idle, SameHome, Hindered, SameLocks,
           CommitWrites, HeadCount;
      AbsIs(cache);
      AbsOk(cache);
      ListEmpty(g, cache.disk, cache.disk, lh);
      L.Idle(g, cache.Abs());
      done := true;
      if lh != [] {
        ghost var writes;
        done, writes := Commit(cache, pid, g, lh);
        AbsIs(cache);
        if done {
          HomeSize(g, cache.disk, old(cache.view));
          ListEmpty(g, old(cache.disk), cache.disk, lh);
          lh := [];
        }
      }
    }
  }

  lemma ListMore(g: Geometry, disk: Blocks, lh: seq<Word>, b: Word)
    requires Installable(g, disk, lh) && L.Distinct(lh) && b < |disk| && !g.InLog(b) && |lh| < LOGSIZE &&
             |lh| < g.size - 1
    ensures var lh' := if b in lh then lh else lh + [b];
            Installable(g, disk, lh') && L.Distinct(lh') && Listed(lh') == Listed(lh) + {b}
  {
  }

  lemma ListEmpty(g: Geometry, disk: Blocks, disk': Blocks, lh: seq<Word>)
    requires Installable(g, disk, lh) && |disk'| == |disk|
    ensures Installable(g, disk', []) && L.Distinct([]) && Listed([]) == {} && (lh == [] ==> Listed(lh) == {})
  {
  }

  lemma HomeSize(g: Geometry, d: Blocks, e: Blocks)
    requires SameHome(g, d, e)
    ensures |d| == |e|
  {
  }

  /** As long as log_write's guard lets a block in, a buffer can be had for it. */
  lemma RoomInLog(log: LogOnCache)
    requires log.Valid() && log.View().Guard(log.g.size)
    ensures Idle(log.cache.refs) ==> Room(log.cache.bufs)
  {
    hide BufferCache.Valid, BufferCache.Abs, Installable, Listed, L.Distinct, Idle, Room;
    if Idle(log.cache.refs) {
      BufferCount(log.cache);
      DistinctCount(log.lh);
    }
  }

  /** Updates of different blocks. */
  ghost predicate Batch(g: Geometry, size: nat, blocks: seq<Word>) {
    && L.Distinct(blocks) && |blocks| <= LOGSIZE && |blocks| < g.size
    && forall i | 0 <= i < |blocks| :: blocks[i] < size && !g.InLog(blocks[i])
  }

  /** A disk after the updates. */
  function Updated(view: Blocks, blocks: seq<Word>, data: seq<Block>, k: nat): (v: Blocks)
    requires k <= |blocks| == |data| && forall i | 0 <= i < |blocks| :: blocks[i] < |view|
    ensures |v| == |view|
  {
    if k == 0 then view else Updated(view, blocks, data, k - 1)[blocks[k - 1] := data[k - 1]]
  }

  /** A transaction by one process on an idle cache: every update that the log admits goes
      through, and the commit brings them all to disk exactly if they leave a buffer. With as
      many blocks as the log holds, it stops instead. */
  method RunTransaction(log: LogOnCache, pid: nat, blocks: seq<Word>, data: seq<Block>) returns (done: bool)
    requires log.Valid() && pid != 0 && log.lh == [] && log.outstanding >= 1 && Idle(log.cache.refs)
    requires |blocks| == |data| && Batch(log.g, |log.cache.disk|, blocks)
    modifies log`lh, log.cache
    ensures |old(log.cache.view)| == |old(log.cache.disk)|
    ensures done <==> |blocks| < NBUF
    ensures done ==>
      && log.Valid() && log.lh == []
      && SameHome(log.g, log.cache.disk, Updated(old(log.cache.view), blocks, data, |blocks|))
  {
    hide BufferCache.Valid, BufferCache.Abs, LogOnCache.Valid, Idle, SameHome, L.Distinct;
    ghost var cache, g := log.cache, log.g;
    LogIs(log);
    ghost var view, disk := cache.view, cache.disk;
    for k := 0 to |blocks|
      invariant log.Valid() && log.lh == blocks[..k] && cache.refs == old(cache.refs)
      invariant cache.disk == disk && cache.view == Updated(view, blocks, data, k)
    {
      LogIs(log);
      NotYet(blocks, k);
      var ok := log.Update(pid, blocks[k], data[k]);
      LogIs(log);
      assert blocks[..k + 1] == blocks[..k] + [blocks[k]];
    }
    assert blocks[..|blocks|] == blocks;
    done := log.CommitOp(pid);
  }

  lemma LogIs(log: LogOnCache)
    requires log.Valid()
    ensures log.cache.Abs().disk == log.cache.disk && log.cache.Abs().view == log.cache.view
    ensures |log.cache.view| == |log.cache.disk|
  {
    AbsIs(log.cache);
  }

  lemma NotYet(blocks: seq<Word>, k: nat)
    requires L.Distinct(blocks) && k < |blocks|
    ensures blocks[k] !in blocks[..k]
  {
  }
}
