/** The on-disk redo log (kernel/log.c): its header format, the disk contents after each
    single-block write of commit and of recovery, and what recovery makes of every one of
    those contents. A crash may fall between any two writes. */
module RedoLog {
  import opened Disk

  const MAXOPBLOCKS := 10
  const LOGSIZE := 3 * MAXOPBLOCKS

  /** The log area: a header block at `start` followed by `size - 1` log blocks. */
  datatype Geometry = Geometry(start: nat, size: nat) {
    predicate InLog(b: nat) {
      start <= b < start + size
    }

    predicate Fits(d: Blocks) {
      1 <= size && start + size <= |d|
    }
  }

  // ----- the header block

  function HeadCount(h: Block): (n: Word) {
    GetWord(h, 0)
  }

  function HeadBlocks(h: Block): (lh: seq<Word>)
    requires HeadCount(h) <= LOGSIZE
  {
    seq(HeadCount(h), i requires 0 <= i < LOGSIZE => GetWord(h, i + 1))
  }

  /** Store the first `k` block numbers of `lh` behind the count. */
  function PutBlocks(h: Block, lh: seq<Word>, k: nat): (r: Block)
    requires k <= |lh| <= LOGSIZE
  {
    if k == 0 then h else PutWord(PutBlocks(h, lh, k - 1), k, lh[k - 1])
  }

  /** What write_head stores for the in-memory header `lh`. */
  function PutHead(h: Block, lh: seq<Word>): (r: Block)
    requires |lh| <= LOGSIZE
  {
    PutBlocks(PutWord(h, 0, |lh|), lh, |lh|)
  }

  lemma {:induction false} PutBlocksWords(h: Block, lh: seq<Word>, k: nat, j: nat)
    requires k <= |lh| <= LOGSIZE && j < WORDS_PER_BLOCK
    ensures GetWord(PutBlocks(h, lh, k), j) == if 1 <= j <= k then lh[j - 1] else GetWord(h, j)
  {
    if k > 0 {
      GetPutWord(PutBlocks(h, lh, k - 1), k, lh[k - 1], j);
      PutBlocksWords(h, lh, k - 1, j);
    }
  }

  /** read_head after write_head restores the in-memory header. */
  lemma HeadRoundTrip(h: Block, lh: seq<Word>)
    requires |lh| <= LOGSIZE
    ensures HeadCount(PutHead(h, lh)) == |lh|
    ensures HeadBlocks(PutHead(h, lh)) == lh
  {
    var h0 := PutWord(h, 0, |lh|);
    PutBlocksWords(h0, lh, |lh|, 0);
    GetPutWord(h, 0, |lh|, 0);
    forall i | 0 <= i < |lh|
      ensures HeadBlocks(PutHead(h, lh))[i] == lh[i]
    {
      PutBlocksWords(h0, lh, |lh|, i + 1);
    }
  }

  // ----- installing and recovery

  /** Every logged block number names an existing block outside the log area. */
  predicate Targets(g: Geometry, len: nat, lh: seq<Word>) {
    forall i | 0 <= i < |lh| :: lh[i] < len && !g.InLog(lh[i])
  }

  /** The disks that recovery may find. */
  predicate Recoverable(g: Geometry, d: Blocks) {
    && g.Fits(d)
    && HeadCount(d[g.start]) <= LOGSIZE
    && HeadCount(d[g.start]) <= g.size - 1
    && Targets(g, |d|, HeadBlocks(d[g.start]))
  }

  predicate Installable(g: Geometry, d: Blocks, lh: seq<Word>) {
    g.Fits(d) && |lh| <= LOGSIZE && |lh| <= g.size - 1 && Targets(g, |d|, lh)
  }

  /** The disk after the first `k` blocks of the log went to their home locations. */
  function Installed(g: Geometry, d: Blocks, lh: seq<Word>, k: nat): (r: Blocks)
    requires Installable(g, d, lh) && k <= |lh|
    ensures |r| == |d|
  {
    if k == 0 then d else Installed(g, d, lh, k - 1)[lh[k - 1] := d[g.start + k]]
  }

  function ClearHead(g: Geometry, d: Blocks): (r: Blocks)
    requires g.Fits(d)
  {
    d[g.start := PutWord(d[g.start], 0, 0)]
  }

  /** The disk when recover_from_log returns. */
  function Recovered(g: Geometry, d: Blocks): (r: Blocks)
    requires Recoverable(g, d)
    ensures |r| == |d|
  {
    var lh := HeadBlocks(d[g.start]);
    ClearHead(g, Installed(g, d, lh, |lh|))
  }

  /** The disk after each write of install_trans. */
  function InstallWrites(g: Geometry, d: Blocks, lh: seq<Word>, k: nat): (w: seq<Blocks>)
    requires Installable(g, d, lh) && k <= |lh|
  {
    seq(k, i requires 0 <= i < k => Installed(g, d, lh, i + 1))
  }

  /** The disk after each write of recover_from_log. */
  function RecoveryWrites(g: Geometry, d: Blocks): (w: seq<Blocks>)
    requires Recoverable(g, d)
  {
    var lh := HeadBlocks(d[g.start]);
    InstallWrites(g, d, lh, |lh|) + [Recovered(g, d)]
  }

  // ----- commit

  /** The disk after write_log copied `k` cached blocks into the log. */
  function Filled(g: Geometry, d: Blocks, view: Blocks, lh: seq<Word>, k: nat): (r: Blocks)
    requires Installable(g, d, lh) && |view| == |d| && k <= |lh|
    ensures |r| == |d|
  {
    if k == 0 then d else Filled(g, d, view, lh, k - 1)[g.start + k := view[lh[k - 1]]]
  }

  function FillWrites(g: Geometry, d: Blocks, view: Blocks, lh: seq<Word>, k: nat): (w: seq<Blocks>)
    requires Installable(g, d, lh) && |view| == |d| && k <= |lh|
  {
    seq(k, i requires 0 <= i < k => Filled(g, d, view, lh, i + 1))
  }

  /** The disk when the header that names the transaction has just been written. */
  function Committed(g: Geometry, d: Blocks, view: Blocks, lh: seq<Word>): (r: Blocks)
    requires Installable(g, d, lh) && |view| == |d|
    ensures |r| == |d|
  {
    Filled(g, d, view, lh, |lh|)[g.start := PutHead(d[g.start], lh)]
  }

  /** The disk after each write of commit for a non-empty transaction. */
  ghost function CommitWrites(g: Geometry, d: Blocks, view: Blocks, lh: seq<Word>): (w: seq<Blocks>)
    requires Installable(g, d, lh) && |view| == |d|
  {
    CommittedRecoverable(g, d, view, lh);
    var c := Committed(g, d, view, lh);
    FillWrites(g, d, view, lh, |lh|) + [c] + RecoveryWrites(g, c)
  }

  // ----- contents after installing

  /** The log block that ends up in `b` once `k` log blocks are installed. */
  function Source(lh: seq<Word>, k: nat, b: nat): (s: nat)
    requires k <= |lh|
    ensures s <= k
    ensures s == 0 <==> b !in lh[..k]
    ensures s > 0 ==> lh[s - 1] == b
  {
    if k == 0 then 0 else if lh[k - 1] == b then k else Source(lh, k - 1, b)
  }

  lemma {:induction false} InstalledBlock(g: Geometry, d: Blocks, lh: seq<Word>, k: nat, b: nat)
    requires Installable(g, d, lh) && k <= |lh| && b < |d|
    ensures var s := Source(lh, k, b);
            Installed(g, d, lh, k)[b] == if s == 0 then d[b] else d[g.start + s]
  {
    if k > 0 {
      InstalledBlock(g, d, lh, k - 1, b);
    }
  }

  /** Installing never touches the log area. */
  lemma InstalledKeepsLog(g: Geometry, d: Blocks, lh: seq<Word>, k: nat)
    requires Installable(g, d, lh) && k <= |lh|
    ensures forall b: nat | g.InLog(b) :: Installed(g, d, lh, k)[b] == d[b]
  {
    forall b: nat | g.InLog(b)
      ensures Installed(g, d, lh, k)[b] == d[b]
    {
      InstalledBlock(g, d, lh, k, b);
    }
  }

  /** Starting over from any point of the installation ends in the same disk. */
  lemma Reinstall(g: Geometry, d: Blocks, lh: seq<Word>, k: nat)
    requires Installable(g, d, lh) && k <= |lh|
    ensures var e := Installed(g, d, lh, k);
            Installed(g, e, lh, |lh|) == Installed(g, d, lh, |lh|)
  {
    var e := Installed(g, d, lh, k);
    InstalledKeepsLog(g, d, lh, k);
    forall b: nat | b < |d|
      ensures Installed(g, e, lh, |lh|)[b] == Installed(g, d, lh, |lh|)[b]
    {
      InstalledBlock(g, d, lh, k, b);
      InstalledBlock(g, e, lh, |lh|, b);
      InstalledBlock(g, d, lh, |lh|, b);
    }
  }

  // ----- recovery tolerates crashes

  lemma ClearedRecovers(g: Geometry, d: Blocks)
    requires g.Fits(d)
    ensures Recoverable(g, ClearHead(g, d))
    ensures Recovered(g, ClearHead(g, d)) == ClearHead(g, d)
  {
    GetPutWord(d[g.start], 0, 0, 0);
    PutWordIdempotent(d[g.start], 0, 0);
  }

  /** A crash after any write of recovery leaves a disk from which recovery reaches
      exactly the disk that the interrupted recovery was heading for. */
  lemma RecoveryCrash(g: Geometry, d: Blocks, i: nat)
    requires Recoverable(g, d) && i < |RecoveryWrites(g, d)|
    ensures var e := RecoveryWrites(g, d)[i];
            |e| == |d| && Recoverable(g, e) && Recovered(g, e) == Recovered(g, d)
  {
    var lh := HeadBlocks(d[g.start]);
    if i < |lh| {
      InstalledKeepsLog(g, d, lh, i + 1);
      Reinstall(g, d, lh, i + 1);
    } else {
      ClearedRecovers(g, Installed(g, d, lh, |lh|));
    }
  }

  /** `ds` lists the disks found by successive boots: each boot's recovery was cut off
      before its first write or after one of its writes. */
  ghost predicate Restarts(g: Geometry, ds: seq<Blocks>) {
    && ds != []
    && (forall i | 0 <= i < |ds| :: Recoverable(g, ds[i]))
    && (forall i | 0 < i < |ds| :: ds[i] == ds[i - 1] || ds[i] in RecoveryWrites(g, ds[i - 1]))
  }

  /** However many times recovery itself is interrupted, the first recovery that
      completes produces what an uninterrupted one would have produced. */
  lemma {:induction false} RepeatedCrashes(g: Geometry, ds: seq<Blocks>)
    requires Restarts(g, ds)
    ensures Recovered(g, ds[|ds| - 1]) == Recovered(g, ds[0])
  {
    if |ds| > 1 {
      var before := ds[..|ds| - 1];
      assert ds[|ds| - 1] == before[|before| - 1]
          || ds[|ds| - 1] in RecoveryWrites(g, before[|before| - 1]);
      RepeatedCrashes(g, before);
      if ds[|ds| - 1] in RecoveryWrites(g, before[|before| - 1]) {
        var i :| 0 <= i < |RecoveryWrites(g, before[|before| - 1])|
              && RecoveryWrites(g, before[|before| - 1])[i] == ds[|ds| - 1];
        RecoveryCrash(g, before[|before| - 1], i);
      }
    }
  }

  // ----- commit is atomic

  /** The two disks agree on every block outside the log area. */
  ghost predicate SameHome(g: Geometry, d: Blocks, e: Blocks) {
    |d| == |e| && forall b: nat | b < |d| && !g.InLog(b) :: d[b] == e[b]
  }

  lemma {:induction false} FilledBlock(g: Geometry, d: Blocks, view: Blocks, lh: seq<Word>, k: nat, b: nat)
    requires Installable(g, d, lh) && |view| == |d| && k <= |lh| && b < |d|
    ensures Filled(g, d, view, lh, k)[b]
         == if g.start < b <= g.start + k then view[lh[b - g.start - 1]] else d[b]
  {
    if k > 0 {
      FilledBlock(g, d, view, lh, k - 1, b);
    }
  }

  lemma CommittedRecoverable(g: Geometry, d: Blocks, view: Blocks, lh: seq<Word>)
    requires Installable(g, d, lh) && |view| == |d|
    ensures Recoverable(g, Committed(g, d, view, lh))
    ensures HeadBlocks(Committed(g, d, view, lh)[g.start]) == lh
  {
    HeadRoundTrip(d[g.start], lh);
  }

  /** Until the header is written the transaction is invisible. */
  lemma FillInvisible(g: Geometry, d: Blocks, view: Blocks, lh: seq<Word>, k: nat)
    requires Installable(g, d, lh) && |view| == |d| && k <= |lh|
    requires HeadCount(d[g.start]) == 0
    ensures var e := Filled(g, d, view, lh, k);
            Recoverable(g, e) && SameHome(g, Recovered(g, e), d)
  {
    var e := Filled(g, d, view, lh, k);
    forall b: nat | b < |d| && (b == g.start || !g.InLog(b))
      ensures e[b] == d[b]
    {
      FilledBlock(g, d, view, lh, k, b);
    }
  }

  lemma CommittedBlock(g: Geometry, d: Blocks, view: Blocks, lh: seq<Word>, b: nat)
    requires Installable(g, d, lh) && |view| == |d| && b < |d| && !g.InLog(b)
    requires b in lh || view[b] == d[b]
    ensures Installed(g, Committed(g, d, view, lh), lh, |lh|)[b] == view[b]
  {
    hide Installed, Filled, PutHead, HeadBlocks;
    InstalledBlock(g, Committed(g, d, view, lh), lh, |lh|, b);
    assert lh[..|lh|] == lh;
    var s := Source(lh, |lh|, b);
    FilledBlock(g, d, view, lh, |lh|, if s == 0 then b else g.start + s);
  }

  /** Once the header is written the transaction is there, whole. */
  lemma CommittedVisible(g: Geometry, d: Blocks, view: Blocks, lh: seq<Word>)
    requires Installable(g, d, lh) && |view| == |d|
    requires forall b: nat | b < |d| && !g.InLog(b) && b !in lh :: view[b] == d[b]
    ensures Recoverable(g, Committed(g, d, view, lh))
    ensures SameHome(g, Recovered(g, Committed(g, d, view, lh)), view)
  {
    CommittedRecoverable(g, d, view, lh);
    forall b: nat | b < |d| && !g.InLog(b)
      ensures Installed(g, Committed(g, d, view, lh), lh, |lh|)[b] == view[b]
    {
      CommittedBlock(g, d, view, lh, b);
    }
  }

  /** Crash atomicity of commit: a crash after its `i`th write recovers to the home blocks
      as they were before the transaction, or with the whole transaction installed, and the
      latter exactly when the write of the non-empty header is among the first `i + 1`. */
  lemma CommitCrash(g: Geometry, d: Blocks, view: Blocks, lh: seq<Word>, i: nat)
    requires Installable(g, d, lh) && |view| == |d| && lh != []
    requires HeadCount(d[g.start]) == 0
    requires forall b: nat | b < |d| && !g.InLog(b) && b !in lh :: view[b] == d[b]
    requires i < |CommitWrites(g, d, view, lh)|
    ensures var e := CommitWrites(g, d, view, lh)[i];
            && Recoverable(g, e)
            && (i < |lh| ==> SameHome(g, Recovered(g, e), d))
            && (i >= |lh| ==> SameHome(g, Recovered(g, e), view))
    ensures var w := CommitWrites(g, d, view, lh);
            (forall j | 0 <= j < |lh| :: HeadCount(w[j][g.start]) == 0) && HeadCount(w[|lh|][g.start]) == |lh|
  {
    hide HeadCount, HeadBlocks, PutHead, Installed, Filled;
    var c := Committed(g, d, view, lh);
    CommittedVisible(g, d, view, lh);
    HeadRoundTrip(d[g.start], lh);
    forall j | 0 <= j < |lh|
      ensures HeadCount(CommitWrites(g, d, view, lh)[j][g.start]) == 0
    {
      FilledBlock(g, d, view, lh, j + 1, g.start);
    }
    if i < |lh| {
      FillInvisible(g, d, view, lh, i + 1);
    } else if i > |lh| {
      RecoveryCrash(g, c, i - |lh| - 1);
    }
  }
}
