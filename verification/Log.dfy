/** The in-memory side of the log (kernel/log.c): the header being collected, operation
    admission, and the loops of commit and recovery over the cached disk. */
module Log {
  import opened Disk
  import opened RedoLog

  /** The fields of `struct log` guarded by `log.lock`. */
  datatype Control = Control(lh: seq<Word>, outstanding: nat, committing: bool) {

    /** begin_op admits an operation only if the log can hold its worst case. */
    predicate Admits() {
      !committing && |lh| + (outstanding + 1) * MAXOPBLOCKS <= LOGSIZE
    }

    /** The two tests with which log_write panics, made before it takes `log.lock`. */
    predicate Guard(size: nat) {
      |lh| < LOGSIZE && |lh| < size - 1 && outstanding >= 1
    }

    function Begin(): (c: Control)
    {
      this.(outstanding := outstanding + 1)
    }

    /** Log absorption: a block is listed once however often it is written. */
    function Append(b: Word): (c: Control) {
      if b in lh then this else this.(lh := lh + [b])
    }

    function End(): (c: Control)
      requires outstanding >= 1
    {
      Control(lh, outstanding - 1, outstanding == 1)
    }

    function Done(): (c: Control) {
      Control([], outstanding, false)
    }
  }

  ghost predicate Distinct(s: seq<Word>) {
    forall i, j | 0 <= i < j < |s| :: s[i] != s[j]
  }

  lemma Idle(g: Geometry, f: Flat)
    requires f.Ok()
    ensures SameHome(g, f.view, f.view) && (f.dirty == {} ==> SameHome(g, f.disk, f.view))
  {
  }

  /** `f` is what write_log makes of `f0` in `k` iterations. */
  ghost predicate Filling(g: Geometry, f0: Flat, f: Flat, lh: seq<Word>, k: nat) {
    && f0.Ok() && f.Ok() && Installable(g, f0.disk, lh) && k <= |lh|
    && f.disk == Filled(g, f0.disk, f0.view, lh, k)
    && f.view == Filled(g, f0.view, f0.view, lh, k)
    && f.dirty == f0.dirty
  }

  lemma FillingStep(g: Geometry, f0: Flat, f: Flat, lh: seq<Word>, k: nat)
    requires Filling(g, f0, f, lh, k) && k < |lh| && f0.dirty == (set b | b in lh)
    ensures f.view[lh[k]] == f0.view[lh[k]]
    ensures Filling(g, f0, f.Write(g.start + k + 1, f0.view[lh[k]]), lh, k + 1)
    ensures FillWrites(g, f0.disk, f0.view, lh, k + 1)
         == FillWrites(g, f0.disk, f0.view, lh, k) + [f.Write(g.start + k + 1, f0.view[lh[k]]).disk]
  {
    FilledBlock(g, f0.view, f0.view, lh, k, lh[k]);
  }

  /** `f` is what install_trans makes of `f0` in `k` iterations. */
  ghost predicate Installing(g: Geometry, f0: Flat, f: Flat, lh: seq<Word>, k: nat) {
    && f0.Ok() && f.Ok() && Installable(g, f0.disk, lh) && k <= |lh|
    && f.disk == Installed(g, f0.disk, lh, k)
    && f.view == Installed(g, f0.view, lh, k)
    && f.dirty <= (set b | b in lh[k..])
  }

  lemma InstallingStep(g: Geometry, f0: Flat, f: Flat, lh: seq<Word>, k: nat)
    requires Installing(g, f0, f, lh, k) && k < |lh| && f0.dirty <= (set b | b in lh)
    ensures f.view[g.start + k + 1] == f0.disk[g.start + k + 1]
    ensures Installing(g, f0, f.Write(lh[k], f.view[g.start + k + 1]), lh, k + 1)
    ensures InstallWrites(g, f0.disk, lh, k + 1)
         == InstallWrites(g, f0.disk, lh, k) + [f.Write(lh[k], f.view[g.start + k + 1]).disk]
  {
    InstalledBlock(g, f0.view, lh, k, g.start + k + 1);
    assert lh[k..] == [lh[k]] + lh[k + 1..];
  }

  /** Writing the header after write_log: the transaction is committed and installable. */
  lemma HeaderStep(g: Geometry, f0: Flat, f1: Flat, lh: seq<Word>)
    requires Filling(g, f0, f1, lh, |lh|) && f0.dirty == (set b | b in lh)
    ensures var f2 := f1.Write(g.start, PutHead(f1.view[g.start], lh));
            && f2.Ok() && f2.dirty == f0.dirty && Installable(g, f2.disk, lh)
            && f2.disk == Committed(g, f0.disk, f0.view, lh)
            && f2.view == Committed(g, f0.view, f0.view, lh)
  {
    hide PutHead, Filled;
    FilledBlock(g, f0.disk, f0.view, lh, |lh|, g.start);
    FilledBlock(g, f0.view, f0.view, lh, |lh|, g.start);
    assert g.start !in f0.dirty;
  }

  /** Clearing the header after install_trans: nothing is pinned and both the disk and the
      cache hold the committed contents. */
  lemma ClearStep(g: Geometry, f0: Flat, f2: Flat, f3: Flat, lh: seq<Word>)
    requires f0.Ok() && f2.Ok() && Installable(g, f0.disk, lh) && f0.dirty == (set b | b in lh)
    requires f2.disk == Committed(g, f0.disk, f0.view, lh)
    requires f2.view == Committed(g, f0.view, f0.view, lh)
    requires Installing(g, f2, f3, lh, |lh|)
    ensures var f4 := f3.Write(g.start, PutHead(f3.view[g.start], []));
            && f4.Ok() && f4.dirty == {} && HeadCount(f4.disk[g.start]) == 0 && Installable(g, f4.disk, [])
            && SameHome(g, f4.view, f0.view) && SameHome(g, f4.disk, f0.view)
            && FillWrites(g, f0.disk, f0.view, lh, |lh|) + [f2.disk]
               + InstallWrites(g, f2.disk, lh, |lh|) + [f4.disk]
               == CommitWrites(g, f0.disk, f0.view, lh)
  {
    hide PutWord, GetWord, Filled, Installed, HeadBlocks;
    CommittedRecoverable(g, f0.disk, f0.view, lh);
    CommittedVisible(g, f0.disk, f0.view, lh);
    CommittedVisible(g, f0.view, f0.view, lh);
    CommittedRecoverable(g, f0.view, f0.view, lh);
    InstalledBlock(g, f2.disk, lh, |lh|, g.start);
    InstalledBlock(g, f2.view, lh, |lh|, g.start);
    GetPutWord(f3.view[g.start], 0, 0, 0);
  }

  lemma Appended<T>(h: seq<T>, a: seq<T>, b: seq<T>, c: seq<T>, d: seq<T>)
    ensures h + a + b + c + d == h + (a + b + c + d)
  {
  }

  class Log {
    const g: Geometry
    const block: array<Word>
    var n: nat
    var outstanding: nat
    var committing: bool
    /** The cached disk below the log. */
    var flat: Flat
    /** The disk after every write made so far: the places where a crash can fall. */
    ghost var history: seq<Blocks>

    ghost function Lh(): (lh: seq<Word>)
      requires n <= block.Length
      reads this, block
    {
      block[..n]
    }

    ghost function View(): (c: Control)
      requires n <= block.Length
      reads this, block
    {
      Control(Lh(), outstanding, committing)
    }

    /** Holds at every point: the collected header can be committed, and the cache has
        pinned exactly the blocks it lists. */
    ghost predicate Sound()
      reads this, block
    {
      && block.Length == LOGSIZE
      && n <= LOGSIZE
      && flat.Ok()
      && Installable(g, flat.disk, Lh())
      && Distinct(Lh())
      && flat.dirty == (set b | b in Lh())
      && HeadCount(flat.disk[g.start]) == 0
    }

    ghost predicate Valid()
      reads this, block
    {
      Sound() && (committing ==> outstanding == 0)
    }

    /** initlog: adopt the superblock's log area and recover. */
    constructor (g: Geometry, disk: Blocks)
      requires Recoverable(g, disk)
      ensures Valid() && n == 0 && outstanding == 0 && !committing
      ensures this.g == g && fresh(block)
      ensures flat == Boot(Recovered(g, disk))
      ensures history == RecoveryWrites(g, disk)
    {
      this.g := g;
      block := new Word[LOGSIZE](_ => 0);
      n, outstanding, committing := 0, 0, false;
      flat, history := Boot(disk), [];
      new;
      RecoverFromLog();
    }

    method Bwrite(b: nat, data: Block)
      requires b < |flat.disk| == |flat.view|
      modifies this`flat, this`history
      ensures flat == old(flat).Write(b, data)
      ensures history == old(history) + [flat.disk]
    {
      flat := flat.Write(b, data);
      history := history + [flat.disk];
    }

    method ReadHead()
      requires block.Length == LOGSIZE && g.Fits(flat.view)
      requires HeadCount(flat.view[g.start]) <= LOGSIZE
      modifies this`n, block
      ensures n <= LOGSIZE && Lh() == HeadBlocks(flat.view[g.start])
    {
      var h := flat.view[g.start];
      n := GetWord(h, 0);
      for i := 0 to n
        invariant n == HeadCount(h)
        invariant block[..i] == HeadBlocks(h)[..i]
      {
        block[i] := GetWord(h, i + 1);
      }
    }

    method WriteHead()
      requires block.Length == LOGSIZE && n <= LOGSIZE
      requires g.Fits(flat.disk) && |flat.view| == |flat.disk|
      modifies this`flat, this`history
      ensures flat == old(flat).Write(g.start, PutHead(old(flat).view[g.start], Lh()))
      ensures history == old(history) + [flat.disk]
    {
      var h := PutWord(flat.view[g.start], 0, n);
      for i := 0 to n
        invariant h == PutBlocks(PutWord(flat.view[g.start], 0, n), Lh(), i)
      {
        h := PutWord(h, i + 1, block[i]);
      }
      Bwrite(g.start, h);
    }

    /** Copy modified blocks from the cache to the log. */
    method WriteLog()
      requires Sound()
      modifies this`flat, this`history
      ensures Filling(g, old(flat), flat, Lh(), n)
      ensures history == old(history) + FillWrites(g, old(flat).disk, old(flat).view, Lh(), n)
    {
      hide HeadCount;
      for tail := 0 to n
        invariant Filling(g, old(flat), flat, Lh(), tail)
        invariant history == old(history) + FillWrites(g, old(flat).disk, old(flat).view, Lh(), tail)
      {
        FillingStep(g, old(flat), flat, Lh(), tail);
        Bwrite(g.start + tail + 1, flat.view[block[tail]]);
      }
    }

    /** Copy committed blocks from the log to their home locations. */
    method InstallTrans()
      requires block.Length == LOGSIZE && n <= LOGSIZE
      requires flat.Ok() && Installable(g, flat.disk, Lh())
      requires flat.dirty <= (set b | b in Lh())
      modifies this`flat, this`history
      ensures Installing(g, old(flat), flat, Lh(), n)
      ensures history == old(history) + InstallWrites(g, old(flat).disk, Lh(), n)
    {
      assert Lh()[0..] == Lh();
      for tail := 0 to n
        invariant Installing(g, old(flat), flat, Lh(), tail)
        invariant history == old(history) + InstallWrites(g, old(flat).disk, Lh(), tail)
      {
        InstallingStep(g, old(flat), flat, Lh(), tail);
        Bwrite(block[tail], flat.view[g.start + tail + 1]);
      }
    }

    method RecoverFromLog()
      requires block.Length == LOGSIZE
      requires Recoverable(g, flat.disk) && flat == Boot(flat.disk)
      modifies this`flat, this`history, this`n, block
      ensures Sound() && n == 0
      ensures flat == Boot(Recovered(g, old(flat).disk))
      ensures history == old(history) + RecoveryWrites(g, old(flat).disk)
    {
      hide GetWord, PutWord;
      ghost var d := flat.disk;
      ReadHead();
      InstalledKeepsLog(g, d, Lh(), n);
      InstallTrans();
      n := 0;
      ClearedRecovers(g, flat.disk);
      WriteHead();
      GetPutWord(d[g.start], 0, 0, 0);
      assert Lh() == [];
    }

    /** The whole transaction reaches the home locations; the ghost history records every
        disk on which a crash could have happened meanwhile. */
    method Commit()
      requires Sound()
      modifies this`flat, this`history, this`n
      ensures Sound() && n == 0 && flat.dirty == {}
      ensures SameHome(g, flat.view, old(flat).view) && SameHome(g, flat.disk, old(flat).view)
      ensures history == old(history) + if old(n) == 0 then [] else
                CommitWrites(g, old(flat).disk, old(flat).view, old(Lh()))
    {
      hide PutHead, HeadCount, CommitWrites, SameHome, Installed, Filled, Committed, InstallWrites, FillWrites, Targets;
      Idle(g, flat);
      if n > 0 {
        ghost var lh := Lh();
        WriteLog();
        HeaderStep(g, old(flat), flat, lh);
        WriteHead();
        ghost var f2 := flat;
        InstallTrans();
        n := 0;
        assert Lh() == [];
        ClearStep(g, old(flat), f2, flat, lh);
        WriteHead();
        Appended(old(history), FillWrites(g, old(flat).disk, old(flat).view, lh, |lh|), [f2.disk],
                 InstallWrites(g, f2.disk, lh, |lh|), [flat.disk]);
      }
    }

    method BeginOp() returns (admitted: bool)
      requires Valid()
      modifies this`outstanding
      ensures Valid()
      ensures admitted == old(View()).Admits()
      ensures View() == if admitted then old(View()).Begin() else old(View())
    {
      if committing {
        admitted := false;
      } else if n + (outstanding + 1) * MAXOPBLOCKS > LOGSIZE {
        admitted := false;
      } else {
        outstanding := outstanding + 1;
        admitted := true;
      }
    }

    /** False stands for the panic "too big a transaction" or "log_write outside of trans". */
    method LogWrite(b: Word, data: Block) returns (ok: bool)
      requires Valid() && b < |flat.disk| && !g.InLog(b)
      modifies this`n, this`flat, block
      ensures Valid()
      ensures ok == old(View()).Guard(g.size)
      ensures View() == if ok then old(View()).Append(b) else old(View())
      ensures flat == if ok then old(flat).Defer(b, data) else old(flat)
    {
      if n >= LOGSIZE || n >= g.size - 1 {
        return false;
      }
      if outstanding < 1 {
        return false;
      }
      ghost var lh := Lh();
      var i := 0;
      while i < n && block[i] != b
        invariant 0 <= i <= n
        invariant b !in lh[..i]
      {
        i := i + 1;
      }
      block[i] := b;
      if i == n {
        assert lh[..n] == lh;
        n := n + 1;
        assert Lh() == lh + [b];
      } else {
        assert lh[i] == b;
        assert Lh() == lh;
      }
      flat := flat.Defer(b, data);
      ok := true;
    }

    /** end_op up to the release of `log.lock`. The panic "log.committing" cannot happen. */
    method EndOp() returns (doCommit: bool)
      requires Valid() && outstanding >= 1
      modifies this`outstanding, this`committing
      ensures Valid()
      ensures View() == old(View()).End()
      ensures doCommit == committing
    {
      outstanding := outstanding - 1;
      assert !committing;
      doCommit := outstanding == 0;
      if doCommit {
        committing := true;
      }
    }

    /** The rest of end_op in the process that closed the transaction. */
    method FinishCommit()
      requires Valid() && committing
      modifies this`flat, this`history, this`n, this`committing
      ensures Valid() && flat.dirty == {}
      ensures View() == old(View()).Done()
      ensures SameHome(g, flat.view, old(flat).view) && SameHome(g, flat.disk, old(flat).view)
      ensures history == old(history) + if old(n) == 0 then [] else
                CommitWrites(g, old(flat).disk, old(flat).view, old(Lh()))
    {
      Commit();
      committing := false;
    }
  }
}
