/** The buffer cache (kernel/bio.c): NBUF buffers on one circular doubly linked list in
    most-recently-used order. Each method is one critical section or one step of a process
    that holds the buffer's sleep-lock; processes may interleave their calls freely. */
module BufferCache {
  import opened Options
  import opened Disk

  const NBUF := 30
  /** The list head stands behind the buffers in the tables of links. */
  const HEAD := NBUF
  const DISK_DEV: Word := 1

  /** One `struct buf` without its links; `owner` is the process holding its sleep-lock,
      0 when it is free. */
  datatype Buf = Buf(dev: Word, blockno: Word, valid: bool, dirty: bool, refcnt: nat, owner: nat, data: Block) {
    predicate Caches(d: Word, b: Word) {
      dev == d && blockno == b
    }

    predicate Recyclable() {
      refcnt == 0 && !dirty
    }
  }

  // ----- the doubly linked list

  /** Following `next` from the head visits exactly `path`, which ends at the head again,
      and following `prev` retraces it. */
  ghost predicate Linked(next: seq<nat>, prev: seq<nat>, path: seq<nat>) {
    && |path| >= 2 && path[0] == path[|path| - 1] && |next| == |prev|
    && (forall i | 0 <= i < |path| :: path[i] < |next|)
    && (forall i, j | 0 <= i < j < |path| - 1 :: path[i] != path[j])
    && (forall i | 0 <= i < |path| - 1 :: next[path[i]] == path[i + 1])
    && (forall i | 0 < i < |path| :: prev[path[i]] == path[i - 1])
  }

  function Without<T>(s: seq<T>, k: nat): (r: seq<T>)
    requires k < |s|
  {
    s[..k] + s[k + 1..]
  }

  /** Unlinking the node at position `k` with two assignments leaves the rest in order. */
  lemma Unlink(next: seq<nat>, prev: seq<nat>, path: seq<nat>, k: nat)
    requires Linked(next, prev, path) && 0 < k < |path| - 1
    ensures prev[path[k]] == path[k - 1] < |next| && next[path[k]] == path[k + 1] < |prev|
    ensures Linked(next[path[k - 1] := path[k + 1]], prev[path[k + 1] := path[k - 1]], Without(path, k))
  {
    var rest := Without(path, k);
    assert forall i | 0 <= i < |rest| :: rest[i] == if i < k then path[i] else path[i + 1];
  }

  /** Linking a node in behind the head. */
  lemma PushFront(next: seq<nat>, prev: seq<nat>, path: seq<nat>, b: nat)
    requires Linked(next, prev, path) && b < |next| && b !in path
    ensures next[path[0]] == path[1] < |prev|
    ensures Linked(next[b := path[1]][path[0] := b], prev[b := path[0]][path[1] := b], [path[0], b] + path[1..])
  {
    var more := [path[0], b] + path[1..];
    assert forall i | 1 < i < |more| :: more[i] == path[i - 1];
    var next', prev' := next[b := path[1]][path[0] := b], prev[b := path[0]][path[1] := b];
    forall i | 0 <= i < |more| - 1
      ensures next'[more[i]] == more[i + 1]
    {
      assert i > 1 ==> more[i] == path[i - 1] && more[i + 1] == path[i];
    }
    forall i | 0 < i < |more|
      ensures prev'[more[i]] == more[i - 1]
    {
      assert i > 2 ==> more[i] == path[i - 1] && more[i - 1] == path[i - 2];
    }
  }

  /** No buffer behind position `k` of the list can be recycled. */
  ghost predicate NoneBehind(bufs: seq<Buf>, path: seq<nat>, k: nat) {
    forall j | k < j < |path| - 1 :: path[j] < |bufs| && !bufs[path[j]].Recyclable()
  }

  /** The buffer that a search from the end of the list comes to first. */
  ghost predicate LeastRecent(bufs: seq<Buf>, path: seq<nat>, b: nat) {
    exists k | 0 < k < |path| - 1 :: path[k] == b && NoneBehind(bufs, path, k)
  }

  // ----- the contents of the buffers

  /** Some pinned buffer holds the only current copy of block `b`. */
  ghost predicate Pinned(bufs: seq<Buf>, b: nat) {
    exists i | 0 <= i < |bufs| :: bufs[i].dirty && bufs[i].blockno == b
  }

  ghost predicate OneBufferPerBlock(bufs: seq<Buf>) {
    forall i, j | 0 <= i < j < |bufs| && bufs[i].Caches(bufs[j].dev, bufs[j].blockno) ::
      bufs[i].Caches(0, 0)
  }

  /** Reference counts count the references; the lock holder has one. */
  ghost predicate Counted(bufs: seq<Buf>, refs: seq<multiset<nat>>) {
    && |refs| == |bufs|
    && (forall i | 0 <= i < |bufs| :: bufs[i].refcnt == |refs[i]|)
    && (forall i | 0 <= i < |bufs| && bufs[i].owner != 0 :: bufs[i].owner in refs[i])
  }

  /** Only a buffer whose holder is changing it may differ from the flat view, and only a
      pinned block may differ from the disk. */
  ghost predicate Coherent(bufs: seq<Buf>, disk: Blocks, view: Blocks) {
    && |view| == |disk|
    && (forall i | 0 <= i < |bufs| && bufs[i].dirty :: bufs[i].valid)
    && (forall i | 0 <= i < |bufs| && bufs[i].valid :: bufs[i].dev == DISK_DEV && bufs[i].blockno < |disk|)
    && (forall i | 0 <= i < |bufs| && bufs[i].valid && bufs[i].owner == 0 :: bufs[i].data == view[bufs[i].blockno])
    && (forall b: nat | b < |disk| && !Pinned(bufs, b) :: view[b] == disk[b])
  }

  /** Some buffer is assigned to the block. */
  ghost predicate Cached(bufs: seq<Buf>, blockno: Word) {
    exists i | 0 <= i < |bufs| :: bufs[i].Caches(DISK_DEV, blockno)
  }

  /** Some buffer can be given to another block. */
  ghost predicate Room(bufs: seq<Buf>) {
    exists i | 0 <= i < |bufs| :: bufs[i].Recyclable()
  }

  /** A process holds the buffer of the block. */
  ghost predicate Locked(bufs: seq<Buf>, blockno: Word) {
    exists i | 0 <= i < |bufs| :: bufs[i].Caches(DISK_DEV, blockno) && bufs[i].owner != 0
  }

  /** Nobody refers to a buffer. */
  ghost predicate Idle(refs: seq<multiset<nat>>) {
    forall i | 0 <= i < |refs| :: refs[i] == multiset{}
  }

  datatype Fetch = Got(b: nat) | Waits(w: nat) | Panics

  class BufferCache {
    var bufs: seq<Buf>
    var next: seq<nat>
    var prev: seq<nat>
    var disk: Blocks
    /** The list as it is linked: from the head over the buffers, most recently used first,
        back to the head. */
    ghost var path: seq<nat>
    /** Who refers to each buffer. */
    ghost var refs: seq<multiset<nat>>
    /** The contents last given to each block by log_write or bwrite. */
    ghost var view: Blocks

    ghost predicate Listed()
      reads this
    {
      && |next| == NBUF + 1 && |path| == NBUF + 2 && path[0] == HEAD
      && Linked(next, prev, path)
      && (forall i | 0 <= i < NBUF :: i in path)
    }

    ghost predicate Valid()
      reads this
    {
      && Listed()
      && |bufs| == NBUF
      && OneBufferPerBlock(bufs)
      && Counted(bufs, refs)
      && Coherent(bufs, disk, view)
    }

    /** The flat disk that the cache stands for. */
    ghost function Abs(): (f: Flat)
      reads this
    {
      Flat(disk, view, set b: nat | b < |disk| && Pinned(bufs, b))
    }

    /** binit, on zero-filled buffers. */
    constructor (disk: Blocks)
      ensures Valid() && Abs() == Boot(disk) && Idle(refs)
      ensures forall i | 0 <= i < NBUF :: bufs[i].Recyclable() && bufs[i].owner == 0
      ensures forall b: Word :: !Cached(bufs, b)
    {
      bufs := seq(NBUF, _ => Buf(0, 0, false, false, 0, 0, ZERO_BLOCK));
      this.disk, view := disk, disk;
      refs := seq(NBUF, _ => multiset{});
      next, prev := seq(NBUF + 1, _ => HEAD), seq(NBUF + 1, _ => HEAD);
      path := [HEAD, HEAD];
      new;
      for b := 0 to NBUF
        modifies this`next, this`prev, this`path
        invariant |next| == NBUF + 1 && |path| == b + 2 && path[0] == HEAD
        invariant Linked(next, prev, path)
        invariant forall i | 1 <= i <= b :: path[i] == b - i
      {
        LinkFirst(b);
      }
      forall i | 0 <= i < NBUF
        ensures i in path
      {
        assert path[NBUF - i] == i;
      }
    }

    /** Insert `b` behind the head. */
    method LinkFirst(b: nat)
      requires |next| == NBUF + 1 && Linked(next, prev, path) && path[0] == HEAD && b < NBUF && b !in path
      modifies this`next, this`prev, this`path
      ensures |next| == NBUF + 1 && path == [HEAD, b] + old(path)[1..]
      ensures Linked(next, prev, path)
    {
      PushFront(next, prev, path, b);
      var first := next[HEAD];
      next := next[b := first];
      prev := prev[b := HEAD];
      prev := prev[first := b];
      next := next[HEAD := b];
      path := [HEAD, b] + path[1..];
    }

    /** bget up to the release of bcache.lock: the buffer is referenced, not yet locked.
        None stands for the panic "bget: no buffers". */
    method Bget(pid: nat, dev: Word, blockno: Word) returns (r: Option<nat>)
      requires Valid() && pid != 0
      modifies this`bufs, this`refs
      ensures Valid() && Abs() == old(Abs())
      ensures r.None? <==> forall i | 0 <= i < NBUF :: !old(bufs)[i].Caches(dev, blockno) && !old(bufs)[i].Recyclable()
      ensures r.None? ==> bufs == old(bufs) && refs == old(refs)
      ensures r.Some? ==>
        var b := r.value;
        && b < NBUF && bufs[b].Caches(dev, blockno)
        && refs == old(refs)[b := old(refs)[b] + multiset{pid}]
        && bufs == old(bufs)[b := bufs[b]]
        && (if old(bufs)[b].Caches(dev, blockno)
            then bufs[b] == old(bufs)[b].(refcnt := old(bufs)[b].refcnt + 1)
            else
              && (forall i | 0 <= i < NBUF :: !old(bufs)[i].Caches(dev, blockno))
              && old(bufs)[b].Recyclable() && bufs[b] == Buf(dev, blockno, false, false, 1, 0, bufs[b].data)
              && LeastRecent(old(bufs), path, b))
    {
      var b := next[HEAD];
      ghost var k := 1;
      while b != HEAD
        invariant 1 <= k <= NBUF + 1 && b == path[k]
        invariant forall j | 1 <= j < k :: path[j] < NBUF && !bufs[path[j]].Caches(dev, blockno)
        decreases NBUF + 1 - k
      {
        if bufs[b].Caches(dev, blockno) {
          Reference(b, pid);
          return Some(b);
        }
        b := next[b];
        k := k + 1;
      }
      assert k == NBUF + 1;
      forall i | 0 <= i < NBUF
        ensures !bufs[i].Caches(dev, blockno)
      {
        assert i in path;
      }
      b := prev[HEAD];
      k := NBUF;
      while b != HEAD
        invariant 0 <= k <= NBUF && b == path[k]
        invariant NoneBehind(bufs, path, k)
        decreases k
      {
        if bufs[b].Recyclable() {
          Recycle(b, pid, dev, blockno);
          return Some(b);
        }
        b := prev[b];
        k := k - 1;
      }
      assert k == 0;
      forall i | 0 <= i < NBUF
        ensures !bufs[i].Recyclable()
      {
        assert i in path;
      }
      r := None;
    }

    method Reference(b: nat, pid: nat)
      requires Valid() && b < NBUF
      modifies this`bufs, this`refs
      ensures Valid() && Abs() == old(Abs())
      ensures bufs == old(bufs)[b := old(bufs)[b].(refcnt := old(bufs)[b].refcnt + 1)]
      ensures refs == old(refs)[b := old(refs)[b] + multiset{pid}]
    {
      hide Linked;
      bufs := bufs[b := bufs[b].(refcnt := bufs[b].refcnt + 1)];
      refs := refs[b := refs[b] + multiset{pid}];
      SamePins(old(bufs), bufs);
    }

    method Recycle(b: nat, pid: nat, dev: Word, blockno: Word)
      requires Valid() && b < NBUF && bufs[b].Recyclable()
      requires forall i | 0 <= i < NBUF :: !bufs[i].Caches(dev, blockno)
      modifies this`bufs, this`refs
      ensures Valid() && Abs() == old(Abs())
      ensures bufs == old(bufs)[b := Buf(dev, blockno, false, false, 1, 0, old(bufs)[b].data)]
      ensures refs == old(refs)[b := old(refs)[b] + multiset{pid}]
    {
      hide Linked;
      assert bufs[b].owner == 0;
      bufs := bufs[b := Buf(dev, blockno, false, false, 1, bufs[b].owner, bufs[b].data)];
      refs := refs[b := refs[b] + multiset{pid}];
      SamePins(old(bufs), bufs);
    }

    /** acquiresleep on the buffer's lock, as far as it can go at this moment. */
    method AcquireBuf(b: nat, pid: nat) returns (got: bool)
      requires Valid() && b < NBUF && pid != 0 && pid in refs[b]
      modifies this`bufs
      ensures Valid() && Abs() == old(Abs())
      ensures got == (old(bufs)[b].owner == 0)
      ensures bufs == if got then old(bufs)[b := old(bufs)[b].(owner := pid)] else old(bufs)
    {
      hide Linked;
      got := bufs[b].owner == 0;
      if got {
        bufs := bufs[b := bufs[b].(owner := pid)];
      }
      SamePins(old(bufs), bufs);
    }

    /** iderw: write a dirty buffer out, or else read an invalid one in. False stands for
        one of its panics. */
    method Iderw(b: nat, pid: nat) returns (ok: bool)
      requires Valid() && b < NBUF && pid != 0
      modifies this`bufs, this`disk, this`view
      ensures Valid()
      ensures var x := old(bufs)[b];
        && ok == (x.owner == pid && (x.valid ==> x.dirty) && x.dev == DISK_DEV && x.blockno < |old(disk)|)
        && (!ok ==> bufs == old(bufs) && Abs() == old(Abs()))
        && (ok && x.dirty ==>
              && bufs == old(bufs)[b := x.(dirty := false)]
              && Abs() == old(Abs()).Write(x.blockno, x.data))
        && (ok && !x.dirty ==>
              && bufs == old(bufs)[b := x.(valid := true, data := old(view)[x.blockno])]
              && Abs() == old(Abs()))
    {
      hide Linked;
      var x := bufs[b];
      if x.owner != pid || (x.valid && !x.dirty) || x.dev != DISK_DEV || x.blockno >= |disk| {
        return false;
      }
      if x.dirty {
        UnpinOne(bufs, b);
        OthersKeepTheirs(bufs, b);
        disk, view := disk[x.blockno := x.data], view[x.blockno := x.data];
        bufs := bufs[b := x.(dirty := false, valid := true)];
      } else {
        assert !Pinned(bufs, x.blockno);
        bufs := bufs[b := x.(valid := true, data := disk[x.blockno])];
        SamePins(old(bufs), bufs);
      }
      ok := true;
    }

    /** bread: the locked buffer holds the contents last given to the block. */
    method Bread(pid: nat, blockno: Word) returns (r: Fetch)
      requires Valid() && pid != 0
      modifies this`bufs, this`refs, this`disk, this`view
      ensures Valid() && Abs() == old(Abs())
      ensures r.Got? ==>
        && r.b < NBUF && bufs[r.b].Caches(DISK_DEV, blockno) && bufs[r.b].owner == pid && bufs[r.b].valid
        && blockno < |disk| && bufs[r.b].data == view[blockno]
        && refs == old(refs)[r.b := old(refs)[r.b] + multiset{pid}]
        && bufs == old(bufs)[r.b := bufs[r.b]]
        && old(bufs)[r.b].owner == 0
        && (old(bufs)[r.b].Caches(DISK_DEV, blockno)
            || (old(bufs)[r.b].Recyclable() && !Cached(old(bufs), blockno) && LeastRecent(old(bufs), path, r.b)))
        && bufs[r.b].refcnt == old(bufs)[r.b].refcnt + 1 && bufs[r.b].dirty == old(bufs)[r.b].dirty
      ensures r.Waits? ==>
        && r.w < NBUF && old(bufs)[r.w].Caches(DISK_DEV, blockno) && old(bufs)[r.w].owner != 0
        && bufs == old(bufs)[r.w := old(bufs)[r.w].(refcnt := old(bufs)[r.w].refcnt + 1)]
      ensures blockno < |disk| ==> (r.Panics? <==> !Cached(old(bufs), blockno) && !Room(old(bufs)))
      ensures r.Panics? && blockno < |disk| ==> bufs == old(bufs) && refs == old(refs)
    {
      hide Coherent, Counted, OneBufferPerBlock, Linked, Pinned, NoneBehind, LeastRecent;
      CoherentAt(bufs, refs, disk, view, 0);
      var found := Bget(pid, DISK_DEV, blockno);
      if found.None? {
        return Panics;
      }
      var b := found.value;
      CoherentAt(old(bufs), old(refs), disk, view, b);
      CoherentAt(bufs, refs, disk, view, b);
      assert pid in refs[b];
      var got := AcquireBuf(b, pid);
      if !got {
        return Waits(b);
      }
      if !bufs[b].valid {
        var ok := Iderw(b, pid);
        if !ok {
          return Panics;
        }
      }
      r := Got(b);
    }

    /** The holder changes the buffer's bytes; nobody else can see them yet. */
    method Modify(b: nat, pid: nat, data: Block)
      requires Valid() && b < NBUF && pid != 0 && bufs[b].owner == pid && bufs[b].valid
      modifies this`bufs
      ensures Valid() && Abs() == old(Abs())
      ensures bufs == old(bufs)[b := old(bufs)[b].(data := data)]
    {
      hide Linked;
      bufs := bufs[b := bufs[b].(data := data)];
      SamePins(old(bufs), bufs);
    }

    /** The cache's part of log_write: pin the buffer. */
    method Pin(b: nat, pid: nat)
      requires Valid() && b < NBUF && pid != 0 && bufs[b].owner == pid && bufs[b].valid
      modifies this`bufs, this`view
      ensures Valid()
      ensures Abs() == old(Abs()).Defer(old(bufs)[b].blockno, old(bufs)[b].data)
      ensures bufs == old(bufs)[b := old(bufs)[b].(dirty := true)]
    {
      hide Linked;
      PinOne(bufs, b);
      OthersKeepTheirs(bufs, b);
      PinnedCoherent(bufs, disk, view, b);
      view := view[bufs[b].blockno := bufs[b].data];
      bufs := bufs[b := bufs[b].(dirty := true)];
    }

    /** bwrite; false stands for the panic of a caller without the lock. */
    method Bwrite(b: nat, pid: nat) returns (ok: bool)
      requires Valid() && b < NBUF && pid != 0 && bufs[b].valid
      modifies this`bufs, this`disk, this`view
      ensures Valid()
      ensures ok == (old(bufs)[b].owner == pid)
      ensures Abs() == if ok then old(Abs()).Write(old(bufs)[b].blockno, old(bufs)[b].data) else old(Abs())
      ensures bufs == if ok then old(bufs)[b := old(bufs)[b].(dirty := false)] else old(bufs)
    {
      hide Linked;
      if bufs[b].owner != pid {
        return false;
      }
      bufs := bufs[b := bufs[b].(dirty := true)];
      PinOne(old(bufs), b);
      ok := Iderw(b, pid);
    }

    /** The first half of brelse: give up the lock. What the holder wrote into the buffer
        it has given to log_write or bwrite. */
    method ReleaseBuf(b: nat, pid: nat)
      requires Valid() && b < NBUF && pid != 0 && bufs[b].owner == pid
      requires bufs[b].valid && bufs[b].data == view[bufs[b].blockno]
      modifies this`bufs
      ensures Valid() && Abs() == old(Abs())
      ensures bufs == old(bufs)[b := old(bufs)[b].(owner := 0)]
    {
      hide Linked;
      bufs := bufs[b := bufs[b].(owner := 0)];
      SamePins(old(bufs), bufs);
    }

    /** The second half of brelse: drop the reference; with the last one the buffer
        becomes the most recently used. */
    method Unreference(b: nat, pid: nat)
      requires Valid() && b < NBUF && pid in refs[b] && bufs[b].owner != pid
      modifies this`bufs, this`refs, this`next, this`prev, this`path
      ensures Valid() && Abs() == old(Abs())
      ensures bufs == old(bufs)[b := old(bufs)[b].(refcnt := old(bufs)[b].refcnt - 1)]
      ensures refs == old(refs)[b := old(refs)[b] - multiset{pid}]
      ensures bufs[b].refcnt > 0 ==> path == old(path)
      ensures bufs[b].refcnt == 0 ==> MovedFirst(old(path), path, b)
    {
      DropReference(b, pid);
      if bufs[b].refcnt == 0 {
        MoveFirst(b);
      }
    }

    /** brelse, when nobody comes between its halves. */
    method Brelse(b: nat, pid: nat)
      requires Valid() && b < NBUF && pid != 0 && bufs[b].owner == pid
      requires bufs[b].valid && bufs[b].data == view[bufs[b].blockno]
      modifies this`bufs, this`refs, this`next, this`prev, this`path
      ensures Valid() && Abs() == old(Abs())
      ensures bufs == old(bufs)[b := old(bufs)[b].(owner := 0, refcnt := old(bufs)[b].refcnt - 1)]
      ensures refs == old(refs)[b := old(refs)[b] - multiset{pid}]
      ensures bufs[b].refcnt > 0 ==> path == old(path)
      ensures bufs[b].refcnt == 0 ==> MovedFirst(old(path), path, b)
    {
      ReleaseBuf(b, pid);
      Unreference(b, pid);
    }

    method DropReference(b: nat, pid: nat)
      requires Valid() && b < NBUF && pid in refs[b] && bufs[b].owner != pid
      modifies this`bufs, this`refs
      ensures Valid() && Abs() == old(Abs())
      ensures bufs == old(bufs)[b := old(bufs)[b].(refcnt := old(bufs)[b].refcnt - 1)]
      ensures refs == old(refs)[b := old(refs)[b] - multiset{pid}]
    {
      hide Linked;
      bufs := bufs[b := bufs[b].(refcnt := bufs[b].refcnt - 1)];
      refs := refs[b := refs[b] - multiset{pid}];
      SamePins(old(bufs), bufs);
    }

    method MoveFirst(b: nat)
      requires Listed() && b < NBUF
      modifies this`next, this`prev, this`path
      ensures Listed() && MovedFirst(old(path), path, b)
    {
      assert b in path;
      ghost var k :| 0 <= k < |path| && path[k] == b;
      Unlink(next, prev, path, k);
      prev := prev[next[b] := prev[b]];
      next := next[prev[b] := next[b]];
      MoveMembers(path, k);
      hide Linked;
      path := Without(path, k);
      LinkFirst(b);
    }
  }

  /** Taking a buffer out and linking it in behind the head loses none. */
  lemma MoveMembers(path: seq<nat>, k: nat)
    requires 0 < k < |path| - 1 && path[0] == path[|path| - 1]
    requires forall i, j | 0 <= i < j < |path| - 1 :: path[i] != path[j]
    ensures path[k] !in Without(path, k)
    ensures forall x | x in path :: x in [path[0], path[k]] + Without(path, k)[1..]
  {
    var moved := [path[0], path[k]] + Without(path, k)[1..];
    forall x | x in path
      ensures x in moved
    {
      var j :| 0 <= j < |path| && path[j] == x;
      assert x == moved[if j == 0 then 0 else if j < k then j + 1 else if j == k then 1 else j];
    }
  }

  /** `b` went to the front; the others kept their order. */
  ghost predicate MovedFirst(path: seq<nat>, path': seq<nat>, b: nat) {
    exists k | 0 < k < |path| - 1 :: path[k] == b && path' == [HEAD, b] + Without(path, k)[1..]
  }

  // ----- what updates of one buffer do to the pinned blocks

  lemma SamePins(bufs: seq<Buf>, bufs': seq<Buf>)
    requires |bufs| == |bufs'|
    requires forall i | 0 <= i < |bufs| ::
               bufs[i].dirty == bufs'[i].dirty && (bufs[i].dirty ==> bufs[i].blockno == bufs'[i].blockno)
    ensures forall b: nat :: Pinned(bufs, b) <==> Pinned(bufs', b)
  {
    forall b: nat
      ensures Pinned(bufs, b) <==> Pinned(bufs', b)
    {
      assert forall i | 0 <= i < |bufs| ::
        (bufs[i].dirty && bufs[i].blockno == b) == (bufs'[i].dirty && bufs'[i].blockno == b);
    }
  }

  lemma PinOne(bufs: seq<Buf>, k: nat)
    requires k < |bufs|
    ensures forall b: nat :: Pinned(bufs[k := bufs[k].(dirty := true)], b) <==> Pinned(bufs, b) || b == bufs[k].blockno
  {
    var bufs' := bufs[k := bufs[k].(dirty := true)];
    assert bufs'[k].dirty;
    forall b: nat
      ensures Pinned(bufs', b) <==> Pinned(bufs, b) || b == bufs[k].blockno
    {
      if Pinned(bufs, b) {
        var i :| 0 <= i < |bufs| && bufs[i].dirty && bufs[i].blockno == b;
        assert bufs'[i].dirty;
      }
    }
  }

  lemma UnpinOne(bufs: seq<Buf>, k: nat)
    requires k < |bufs| && OneBufferPerBlock(bufs) && bufs[k].valid
    requires forall i | 0 <= i < |bufs| && bufs[i].dirty :: bufs[i].valid
    requires forall i | 0 <= i < |bufs| && bufs[i].valid :: bufs[i].dev == DISK_DEV
    ensures forall b: nat :: Pinned(bufs[k := bufs[k].(dirty := false)], b) <==> Pinned(bufs, b) && b != bufs[k].blockno
  {
    var bufs' := bufs[k := bufs[k].(dirty := false)];
    OthersKeepTheirs(bufs, k);
    forall b: nat
      ensures Pinned(bufs', b) <==> Pinned(bufs, b) && b != bufs[k].blockno
    {
      if Pinned(bufs, b) && b != bufs[k].blockno {
        var i :| 0 <= i < |bufs| && bufs[i].dirty && bufs[i].blockno == b;
        assert bufs'[i].dirty;
      }
      if Pinned(bufs', b) {
        var i :| 0 <= i < |bufs| && bufs'[i].dirty && bufs'[i].blockno == b;
        assert bufs[i].dirty && i != k;
      }
    }
  }

  lemma PinnedCoherent(bufs: seq<Buf>, disk: Blocks, view: Blocks, b: nat)
    requires Coherent(bufs, disk, view) && b < |bufs| && bufs[b].valid
    requires forall i | 0 <= i < |bufs| && i != b && bufs[i].valid :: bufs[i].blockno != bufs[b].blockno
    requires forall c: nat :: Pinned(bufs[b := bufs[b].(dirty := true)], c) <==> Pinned(bufs, c) || c == bufs[b].blockno
    ensures Coherent(bufs[b := bufs[b].(dirty := true)], disk, view[bufs[b].blockno := bufs[b].data])
  {
    hide Pinned;
  }

  lemma CoherentAt(bufs: seq<Buf>, refs: seq<multiset<nat>>, disk: Blocks, view: Blocks, b: nat)
    requires Coherent(bufs, disk, view) && Counted(bufs, refs) && b < |bufs|
    ensures bufs[b].valid ==> bufs[b].dev == DISK_DEV && bufs[b].blockno < |disk|
    ensures bufs[b].valid && bufs[b].owner == 0 ==> bufs[b].data == view[bufs[b].blockno]
    ensures |refs| == |bufs| && |view| == |disk| && (bufs[b].dirty ==> bufs[b].valid)
    ensures bufs[b].owner != 0 ==> bufs[b].owner in refs[b] && !bufs[b].Recyclable()
  {
    hide Pinned;
  }

  /** A block has one valid buffer, so a new value for it concerns no other buffer. */
  lemma OthersKeepTheirs(bufs: seq<Buf>, k: nat)
    requires k < |bufs| && OneBufferPerBlock(bufs) && bufs[k].valid
    requires forall i | 0 <= i < |bufs| && bufs[i].valid :: bufs[i].dev == DISK_DEV
    ensures forall i | 0 <= i < |bufs| && i != k && bufs[i].valid :: bufs[i].blockno != bufs[k].blockno
  {
    forall i | 0 <= i < |bufs| && i != k && bufs[i].valid
      ensures bufs[i].blockno != bufs[k].blockno
    {
      assert bufs[i].Caches(bufs[k].dev, bufs[k].blockno) || bufs[i].blockno != bufs[k].blockno;
    }
  }
}
