/** What the order of the buffer list is for (kernel/bio.c): blocks in use stay in the cache. */
module Lru {
  import opened Options
  import opened Disk
  import opened BufferCache

  /** Buffers that can be given to another block. */
  ghost function Spare(bufs: seq<Buf>): (s: set<nat>) {
    set c: nat | c < |bufs| && bufs[c].Recyclable()
  }

  ghost predicate OnList(path: seq<nat>, b: nat) {
    exists i | 0 < i < |path| - 1 :: path[i] == b
  }

  /** `c` was used before `b` was. */
  ghost predicate Before(path: seq<nat>, b: nat, c: nat) {
    exists i, j | 0 < i < j < |path| - 1 :: path[i] == b && path[j] == c
  }

  /** The buffers that would be taken before `b`. */
  ghost function Older(bufs: seq<Buf>, path: seq<nat>, b: nat): (s: set<nat>) {
    set c: nat | c < |bufs| && bufs[c].Recyclable() && Before(path, b, c)
  }

  /** Using another buffer leaves `b` more recent than all but that one. */
  lemma StaysBefore(path: seq<nat>, path': seq<nat>, x: nat, b: nat, c: nat)
    requires MovedFirst(path, path', x) && Before(path, b, c) && c != x
    ensures Before(path', b, c)
  {
    var k :| 0 < k < |path| - 1 && path[k] == x && path' == [HEAD, x] + Without(path, k)[1..];
    var i, j :| 0 < i < j < |path| - 1 && path[i] == b && path[j] == c;
    Moved(path, path', k, i);
    Moved(path, path', k, j);
  }

  /** Where the node at `j` is once the one at `k` has gone to the front. */
  function NewPlace(k: nat, j: nat): (n: nat) {
    if j < k then j + 1 else if j == k then 1 else j
  }

  lemma Moved(path: seq<nat>, path': seq<nat>, k: nat, j: nat)
    requires 0 < k < |path| - 1 && path' == [HEAD, path[k]] + Without(path, k)[1..] && 0 < j < |path| - 1
    ensures |path'| == |path| && path'[NewPlace(k, j)] == path[j]
  {
  }

  /** What was used last is more recent than everything else. */
  lemma FirstBefore(path: seq<nat>, path': seq<nat>, b: nat, c: nat)
    requires MovedFirst(path, path', b) && OnList(path, c) && c != b
    ensures Before(path', b, c)
  {
    var k :| 0 < k < |path| - 1 && path[k] == b && path' == [HEAD, b] + Without(path, k)[1..];
    var j :| 0 < j < |path| - 1 && path[j] == c;
    Moved(path, path', k, k);
    Moved(path, path', k, j);
  }

  /** The buffer taken for another block is the one before which none would be taken. */
  lemma NoneOlder(bufs: seq<Buf>, path: seq<nat>, b: nat)
    requires OnList(path, b) && (forall i | 0 < i < |path| - 1 :: path[i] < |bufs|)
    requires forall i, j | 0 <= i < j < |path| - 1 :: path[i] != path[j]
    ensures LeastRecent(bufs, path, b) <==> Older(bufs, path, b) == {}
  {
    var k :| 0 < k < |path| - 1 && path[k] == b;
    if Older(bufs, path, b) == {} {
      forall j | k < j < |path| - 1
        ensures !bufs[path[j]].Recyclable()
      {
        assert path[j] !in Older(bufs, path, b);
        assert Before(path, b, path[j]);
      }
      assert NoneBehind(bufs, path, k);
    }
  }

  /** Every buffer is on the list once. */
  lemma AllListed(cache: BufferCache)
    requires cache.Valid()
    ensures |cache.path| == NBUF + 2 && |cache.bufs| == NBUF
    ensures forall i | 0 < i < |cache.path| - 1 :: cache.path[i] < |cache.bufs|
    ensures forall i, j | 0 <= i < j < |cache.path| - 1 :: cache.path[i] != cache.path[j]
    ensures forall b: nat | b < NBUF :: OnList(cache.path, b)
  {
    var path := cache.path;
    forall i | 0 < i < |path| - 1
      ensures path[i] < NBUF
    {
      assert path[0] != path[i];
    }
    forall b: nat | b < NBUF
      ensures OnList(path, b)
    {
      assert b in path;
    }
  }

  /** bread and brelse of a block in an idle cache. */
  method Read(cache: BufferCache, pid: nat, blockno: Word) returns (b: nat, data: Block)
    requires cache.Valid() && Idle(cache.refs) && pid != 0 && blockno < |cache.disk|
    requires Spare(cache.bufs) != {}
    modifies cache
    ensures cache.Valid() && Idle(cache.refs) && cache.Abs() == old(cache.Abs())
    ensures |cache.view| == |cache.disk| == |old(cache.disk)| && data == cache.view[blockno]
    ensures b < NBUF && cache.bufs[b].Caches(DISK_DEV, blockno)
    ensures cache.bufs == old(cache.bufs)[b := cache.bufs[b]]
    ensures cache.bufs[b].Recyclable() <==> old(cache.bufs)[b].Recyclable()
    ensures MovedFirst(old(cache.path), cache.path, b)
    ensures !old(cache.bufs)[b].Caches(DISK_DEV, blockno) ==>
      !Cached(old(cache.bufs), blockno) && old(cache.bufs)[b].Recyclable() &&
        LeastRecent(old(cache.bufs), old(cache.path), b)
  {
    hide Linked, Coherent, Pinned, OneBufferPerBlock, NoneBehind, LeastRecent, MovedFirst;
    IdleBuffers(cache);
    var r := cache.Bread(pid, blockno);
    b := r.b;
    data := cache.bufs[b].data;
    cache.Brelse(b, pid);
    CoherentAt(cache.bufs, cache.refs, cache.disk, cache.view, b);
  }

  lemma IdleBuffers(cache: BufferCache)
    requires cache.Valid() && Idle(cache.refs)
    ensures forall i | 0 <= i < NBUF :: cache.bufs[i].refcnt == 0 && cache.bufs[i].owner == 0
    ensures Room(cache.bufs) <==> Spare(cache.bufs) != {}
  {
    if Room(cache.bufs) {
      var i :| 0 <= i < |cache.bufs| && cache.bufs[i].Recyclable();
      assert i in Spare(cache.bufs);
    }
    if Spare(cache.bufs) != {} {
      var c :| c in Spare(cache.bufs);
      assert cache.bufs[c].Recyclable();
    }
  }

  lemma SmallerBy(a: set<nat>, b: set<nat>, x: nat)
    requires a - {x} <= b
    ensures |b| >= |a| - 1
  {
    var c := a - {x};
    assert b == c + (b - c);
    assert a <= c + {x};
    assert |a| <= |c| + 1 by {
      if x in a {
        assert a == c + {x};
      } else {
        assert a == c;
      }
    }
  }

  /** Least recently used: once a block has been read, it stays in its buffer while fewer other
      reads follow than there were spare buffers. */
  method KeepsRecent(cache: BufferCache, pid: nat, blockno: Word, others: seq<Word>) returns (b: nat)
    requires cache.Valid() && Idle(cache.refs) && pid != 0 && blockno < |cache.disk|
    requires (forall y <- others :: y < |cache.disk|) && |others| < |Spare(cache.bufs)|
    modifies cache
    ensures cache.Valid() && Idle(cache.refs) && cache.Abs() == old(cache.Abs())
    ensures b < NBUF && cache.bufs[b].Caches(DISK_DEV, blockno)
  {
    hide BufferCache.Valid, BufferCache.Abs, MovedFirst, LeastRecent, Older, Spare, Cached, Idle, OnList;
    ghost var n := |Spare(cache.bufs)|;
    SpareSome(cache);
    AllListed(cache);
    ghost var bufs, path := cache.bufs, cache.path;
    var data;
    b, data := Read(cache, pid, blockno);
    UsedFirst(bufs, path, cache.bufs, cache.path, b);
    for i := 0 to |others|
      invariant cache.Valid() && Idle(cache.refs) && cache.Abs() == old(cache.Abs()) &&
                |cache.disk| == |old(cache.disk)|
      invariant b < NBUF && |cache.bufs| == NBUF && cache.bufs[b].Caches(DISK_DEV, blockno)
      invariant |Older(cache.bufs, cache.path, b)| >= n - 1 - i && |Spare(cache.bufs)| == n
    {
      AllListed(cache);
      bufs, path := cache.bufs, cache.path;
      NoneOlder(bufs, path, b);
      var x;
      assert others[i] in others;
      x, data := Read(cache, pid, others[i]);
      UsedOther(bufs, path, cache.bufs, cache.path, x, b);
    }
  }

  /** The same buffers are spare. */
  ghost predicate SameSpare(bufs: seq<Buf>, bufs': seq<Buf>) {
    |bufs'| == |bufs| && forall c | 0 <= c < |bufs| :: bufs'[c].Recyclable() <==> bufs[c].Recyclable()
  }

  lemma UsedFirst(bufs: seq<Buf>, path: seq<nat>, bufs': seq<Buf>, path': seq<nat>, b: nat)
    requires SameSpare(bufs, bufs') && MovedFirst(path, path', b)
    requires forall c: nat | c < |bufs| :: OnList(path, c)
    ensures |Older(bufs', path', b)| >= |Spare(bufs)| - 1 && |Spare(bufs')| == |Spare(bufs)|
  {
    hide MovedFirst;
    forall c | c in Spare(bufs) - {b}
      ensures c in Older(bufs', path', b)
    {
      FirstBefore(path, path', b, c);
    }
    SmallerBy(Spare(bufs), Older(bufs', path', b), b);
    assert Spare(bufs') == Spare(bufs);
  }

  lemma UsedOther(bufs: seq<Buf>, path: seq<nat>, bufs': seq<Buf>, path': seq<nat>, x: nat, b: nat)
    requires SameSpare(bufs, bufs') && MovedFirst(path, path', x)
    ensures |Older(bufs', path', b)| >= |Older(bufs, path, b)| - 1 && |Spare(bufs')| == |Spare(bufs)|
  {
    hide MovedFirst;
    forall c | c in Older(bufs, path, b) - {x}
      ensures c in Older(bufs', path', b)
    {
      StaysBefore(path, path', x, b, c);
    }
    SmallerBy(Older(bufs, path, b), Older(bufs', path', b), x);
    assert Spare(bufs') == Spare(bufs);
  }

  lemma SpareSome(cache: BufferCache)
    requires |Spare(cache.bufs)| > 0
    ensures Spare(cache.bufs) != {}
  {
  }
}
