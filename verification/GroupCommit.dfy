/** Any number of file-system operations sharing one log: every interleaving of begin_op,
    log_write, end_op and the single-block writes of commit, with crashes anywhere. */
module GroupCommit {
  import opened Disk
  import opened RedoLog
  import L = Log

  /** An operation: the blocks it has logged, whether it stands between the unlocked guard
      of log_write and the locked append, and whether end_op has been called. */
  datatype Op = Op(logged: set<Word>, guarded: bool, active: bool) {
    function Live(): (k: nat) {
      if active then 1 else 0
    }

    /** What is left of the MAXOPBLOCKS that begin_op reserved. */
    function Unspent(): (k: nat) {
      if active && |logged| <= MAXOPBLOCKS then MAXOPBLOCKS - |logged| else 0
    }
  }

  datatype Write = Write(op: nat, block: Word, data: Block)

  /** `writes` lists everything given to log_write, `cut` how many of those are in committed
      transactions; `from` and `done` say which disk commit started on and how many of its
      writes have reached the disk. Operation `i` is `ops[i]`. */
  datatype State = State(
    c: L.Control,
    ops: seq<Op>,
    disk: Blocks,
    view: Blocks,
    writes: seq<Write>,
    cut: nat,
    from: Blocks,
    done: nat)

  /** After a crash, `boots` lists the disks that one boot after the other finds; the last of
      them is the first whose recovery is not cut off by another crash. */
  datatype Step =
    | Begin
    | Guard(op: nat)
    | Append(op: nat, block: Word, data: Block)
    | End(op: nat)
    | DiskWrite
    | Finish
    | Crash(boots: seq<Blocks>)

  function Start(d: Blocks): (s: State) {
    State(L.Control([], 0, false), [], d, d, [], 0, d, 0)
  }

  ghost function Pending(g: Geometry, s: State): (w: seq<Blocks>)
    requires Installable(g, s.from, s.c.lh) && |s.view| == |s.from|
  {
    if s.c.lh == [] then [] else CommitWrites(g, s.from, s.view, s.c.lh)
  }

  /** The disk after `k` turns of write_log, whatever the size of the log area. */
  function LogWritten(g: Geometry, d: Blocks, view: Blocks, lh: seq<Word>, k: nat): (r: Blocks)
    requires k <= |lh| && g.start + |lh| < |d| && forall i | 0 <= i < |lh| :: lh[i] < |view|
    ensures |r| == |d|
  {
    if k == 0 then d else LogWritten(g, d, view, lh, k - 1)[g.start + k := view[lh[k - 1]]]
  }

  /** The header has overrun the log area: write_log goes on behind it. */
  ghost predicate Overrun(g: Geometry, s: State) {
    && |s.c.lh| > g.size - 1 && |s.view| == |s.from| && g.start + |s.c.lh| < |s.from|
    && forall i | 0 <= i < |s.c.lh| :: s.c.lh[i] < |s.view|
  }

  ghost predicate Enabled(g: Geometry, s: State, step: Step) {
    match step
    case Begin => s.c.Admits()
    case Guard(op) => op < |s.ops| && s.ops[op].active && !s.ops[op].guarded && s.c.Guard(g.size)
    case Append(op, b, _) =>
      && op < |s.ops| && s.ops[op].active && s.ops[op].guarded
      && b < |s.view| && !g.InLog(b)
      && |s.ops[op].logged + {b}| <= MAXOPBLOCKS
    case End(op) => op < |s.ops| && s.ops[op].active && !s.ops[op].guarded && s.c.outstanding >= 1
    case DiskWrite =>
      && s.c.committing
      && if Overrun(g, s) then s.done < |s.c.lh|
         else Installable(g, s.from, s.c.lh) && |s.view| == |s.from| && s.done < |Pending(g, s)|
    case Finish =>
      && s.c.committing && Installable(g, s.from, s.c.lh) && |s.view| == |s.from|
      && s.done == |Pending(g, s)|
    case Crash(boots) => Restarts(g, boots) && boots[0] == s.disk && s.cut <= |s.writes|
  }

  function Stopped(ops: seq<Op>): (r: seq<Op>) {
    seq(|ops|, i requires 0 <= i < |ops| => ops[i].(active := false))
  }

  ghost function Do(g: Geometry, s: State, step: Step): (s': State)
    requires Enabled(g, s, step)
  {
    match step
    case Begin => s.(c := s.c.Begin(), ops := s.ops + [Op({}, false, true)])
    case Guard(op) => s.(ops := s.ops[op := s.ops[op].(guarded := true)])
    case Append(op, b, data) =>
      s.(c := s.c.Append(b),
         ops := s.ops[op := Op(s.ops[op].logged + {b}, false, true)],
         view := s.view[b := data],
         writes := s.writes + [Write(op, b, data)])
    case End(op) =>
      s.(c := s.c.End(), ops := s.ops[op := s.ops[op].(active := false)], from := s.disk, done := 0)
    case DiskWrite =>
      if Overrun(g, s) then s.(disk := LogWritten(g, s.from, s.view, s.c.lh, s.done + 1), done := s.done + 1)
      else
        s.(disk := Pending(g, s)[s.done], done := s.done + 1,
           cut := if s.done == |s.c.lh| then |s.writes| else s.cut)
    case Finish => s.(c := s.c.Done())
    case Crash(boots) =>
      var d := Recovered(g, boots[|boots| - 1]);
      State(L.Control([], 0, false), Stopped(s.ops), d, d, s.writes[..s.cut], s.cut, d, 0)
  }

  ghost predicate Legal(g: Geometry, s: State, steps: seq<Step>)
    decreases |steps|
  {
    steps == [] || (Enabled(g, s, steps[0]) && Legal(g, Do(g, s, steps[0]), steps[1..]))
  }

  ghost function Run(g: Geometry, s: State, steps: seq<Step>): (s': State)
    requires Legal(g, s, steps)
    decreases |steps|
  {
    if steps == [] then s else Run(g, Do(g, s, steps[0]), steps[1..])
  }

  // ----- sums over the operations

  function Sum(ops: seq<Op>, f: Op -> nat): (k: nat) {
    if ops == [] then 0 else Sum(ops[..|ops| - 1], f) + f(ops[|ops| - 1])
  }

  lemma {:induction false} SumUpdate(ops: seq<Op>, i: nat, o: Op, f: Op -> nat)
    requires i < |ops|
    ensures Sum(ops[i := o], f) + f(ops[i]) == Sum(ops, f) + f(o)
  {
    var last := |ops| - 1;
    if i == last {
      assert ops[i := o][..last] == ops[..last];
    } else {
      assert ops[i := o][..last] == ops[..last][i := o];
      SumUpdate(ops[..last], i, o, f);
    }
  }

  lemma {:induction false} SumOne(ops: seq<Op>, i: nat, f: Op -> nat)
    requires i < |ops|
    ensures f(ops[i]) <= Sum(ops, f)
  {
    var last := |ops| - 1;
    if i < last {
      SumOne(ops[..last], i, f);
    }
  }

  lemma {:induction false} SumStopped(ops: seq<Op>, f: Op -> nat)
    requires forall o: Op | !o.active :: f(o) == 0
    ensures Sum(Stopped(ops), f) == 0
  {
    if ops != [] {
      assert Stopped(ops)[..|ops| - 1] == Stopped(ops[..|ops| - 1]);
      SumStopped(ops[..|ops| - 1], f);
    }
  }

  const LIVE: Op -> nat := (o: Op) => o.Live()
  const UNSPENT: Op -> nat := (o: Op) => o.Unspent()

  lemma {:induction false} UnspentBound(ops: seq<Op>)
    ensures Sum(ops, UNSPENT) <= MAXOPBLOCKS * Sum(ops, LIVE)
  {
    if ops != [] {
      UnspentBound(ops[..|ops| - 1]);
    }
  }

  // ----- the reservation

  /** The reservation invariant: what the log holds plus everything outstanding operations
      may still add fits in LOGSIZE, and no operation is outstanding during a commit. */
  ghost predicate Reserved(s: State) {
    && s.c.outstanding == Sum(s.ops, LIVE)
    && |s.c.lh| + Sum(s.ops, UNSPENT) <= LOGSIZE
    && L.Distinct(s.c.lh)
    && (forall i | 0 <= i < |s.ops| && s.ops[i].active ::
          |s.ops[i].logged| <= MAXOPBLOCKS && forall b <- s.ops[i].logged :: b in s.c.lh)
    && (s.c.committing ==> forall i | 0 <= i < |s.ops| :: !s.ops[i].active)
  }

  lemma NoneLive(ops: seq<Op>)
    requires Sum(ops, LIVE) == 0
    ensures forall i | 0 <= i < |ops| :: !ops[i].active
  {
    forall i | 0 <= i < |ops|
      ensures !ops[i].active
    {
      SumOne(ops, i, LIVE);
    }
  }

  lemma BeginReserved(s: State)
    requires Reserved(s) && s.c.Admits()
    ensures Reserved(s.(c := s.c.Begin(), ops := s.ops + [Op({}, false, true)]))
  {
    var ops := s.ops + [Op({}, false, true)];
    assert ops[..|ops| - 1] == s.ops;
    UnspentBound(s.ops);
  }

  lemma AppendReserved(g: Geometry, s: State, step: Step)
    requires Reserved(s) && step.Append? && Enabled(g, s, step)
    ensures Reserved(Do(g, s, step))
  {
    hide Sum;
    var o := s.ops[step.op];
    var o' := Op(o.logged + {step.block}, false, true);
    SumUpdate(s.ops, step.op, o', LIVE);
    SumUpdate(s.ops, step.op, o', UNSPENT);
    SumOne(s.ops, step.op, UNSPENT);
    if step.block in o.logged {
      assert o.logged + {step.block} == o.logged;
    }
  }

  lemma ReservedStep(g: Geometry, s: State, step: Step)
    requires Reserved(s) && Enabled(g, s, step)
    ensures Reserved(Do(g, s, step))
  {
    match step
    case Begin =>
      BeginReserved(s);
    case Guard(op) =>
      SumUpdate(s.ops, op, s.ops[op].(guarded := true), LIVE);
      SumUpdate(s.ops, op, s.ops[op].(guarded := true), UNSPENT);
    case Append(_, _, _) =>
      AppendReserved(g, s, step);
    case End(op) =>
      SumUpdate(s.ops, op, s.ops[op].(active := false), LIVE);
      SumUpdate(s.ops, op, s.ops[op].(active := false), UNSPENT);
      if s.c.outstanding == 1 {
        NoneLive(Do(g, s, step).ops);
      }
    case DiskWrite =>
    case Finish =>
      UnspentBound(s.ops);
    case Crash(_) =>
      SumStopped(s.ops, LIVE);
      SumStopped(s.ops, UNSPENT);
  }

  lemma {:induction false} ReservedRun(g: Geometry, s: State, steps: seq<Step>)
    requires Reserved(s) && Legal(g, s, steps)
    ensures Reserved(Run(g, s, steps))
    decreases |steps|
  {
    if steps != [] {
      ReservedStep(g, s, steps[0]);
      ReservedRun(g, Do(g, s, steps[0]), steps[1..]);
    }
  }

  /** In every reachable state of every interleaving the collected header fits `lh.block`,
      lists no block twice, and commit never runs while an operation is outstanding. */
  lemma LogReservation(g: Geometry, d: Blocks, steps: seq<Step>)
    requires Legal(g, Start(d), steps)
    ensures var s := Run(g, Start(d), steps);
            && |s.c.lh| + Sum(s.ops, UNSPENT) <= LOGSIZE
            && L.Distinct(s.c.lh)
            && (s.c.committing ==> s.c.outstanding == 0 && forall i | 0 <= i < |s.ops| :: !s.ops[i].active)
  {
    ReservedRun(g, Start(d), steps);
    var s := Run(g, Start(d), steps);
    if s.c.committing && s.c.outstanding > 0 {
      NoLive(s.ops);
    }
  }

  lemma {:induction false} NoLive(ops: seq<Op>)
    requires forall i | 0 <= i < |ops| :: !ops[i].active
    ensures Sum(ops, LIVE) == 0
  {
    if ops != [] {
      NoLive(ops[..|ops| - 1]);
    }
  }

  // ----- crash atomicity of whole groups

  predicate Fit(g: Geometry, len: nat, ws: seq<Write>) {
    forall i | 0 <= i < |ws| :: ws[i].block < len && !g.InLog(ws[i].block)
  }

  /** The flat disk after the given writes. */
  function Apply(g: Geometry, d: Blocks, ws: seq<Write>): (r: Blocks)
    requires Fit(g, |d|, ws)
    ensures |r| == |d|
  {
    if ws == [] then d else
      var w := ws[|ws| - 1];
      Apply(g, d, ws[..|ws| - 1])[w.block := w.data]
  }

  /** No operation has writes on both sides of the cut, and those before it have ended. */
  ghost predicate WholeOps(s: State) {
    && s.cut <= |s.writes|
    && (forall i | 0 <= i < |s.writes| :: s.writes[i].op < |s.ops|)
    && (forall i | 0 <= i < s.cut :: !s.ops[s.writes[i].op].active)
    && (forall i, j | 0 <= i < s.cut <= j < |s.writes| :: s.writes[i].op != s.writes[j].op)
  }

  /** `d` holds the committed prefix and everything newer is pinned under the header. */
  ghost predicate Quiet(g: Geometry, d0: Blocks, s: State, d: Blocks, cut: nat) {
    && |d| == |d0| == |s.view| && g.Fits(d) && Fit(g, |d0|, s.writes) && cut <= |s.writes|
    && HeadCount(d[g.start]) == 0
    && SameHome(g, d, Apply(g, d0, s.writes[..cut]))
    && (forall b: nat | b < |d| && !g.InLog(b) && b !in s.c.lh :: s.view[b] == d[b])
    && (s.c.lh == [] ==> cut == |s.writes|)
  }

  /** Commit is under way: the disk is that of its latest write. */
  ghost predicate Writing(g: Geometry, d0: Blocks, s: State, cut: nat) {
    && Quiet(g, d0, s, s.from, cut) && Installable(g, s.from, s.c.lh) && s.c.lh != []
    && s.done <= |Pending(g, s)|
    && s.disk == (if s.done == 0 then s.from else Pending(g, s)[s.done - 1])
    && s.cut == if s.done > |s.c.lh| then |s.writes| else cut
  }

  ghost predicate Durable(g: Geometry, d0: Blocks, s: State) {
    && |s.view| == |s.disk| == |d0| && g.Fits(d0)
    && Targets(g, |d0|, s.c.lh)
    && Fit(g, |d0|, s.writes)
    && SameHome(g, s.view, Apply(g, d0, s.writes))
    && WholeOps(s)
    && if s.c.committing && s.c.lh != [] then exists cut :: Writing(g, d0, s, cut)
       else Quiet(g, d0, s, s.disk, s.cut) && (s.c.committing ==> s.from == s.disk && s.done == 0)
  }

  /** A disk with an empty header recovers to itself. */
  lemma EmptyHeaderRecovers(g: Geometry, d: Blocks)
    requires g.Fits(d) && HeadCount(d[g.start]) == 0
    ensures Recoverable(g, d) && SameHome(g, Recovered(g, d), d)
  {
  }

  /** What commit leaves behind when it returns. */
  lemma LastWrite(g: Geometry, d: Blocks, view: Blocks, lh: seq<Word>)
    requires Installable(g, d, lh) && |view| == |d|
    requires forall b: nat | b < |d| && !g.InLog(b) && b !in lh :: view[b] == d[b]
    ensures var w := CommitWrites(g, d, view, lh);
            var e := w[|w| - 1];
            |e| == |d| && HeadCount(e[g.start]) == 0 && SameHome(g, e, view)
  {
    CommittedVisible(g, d, view, lh);
    var c := Committed(g, d, view, lh);
    ClearedRecovers(g, Installed(g, c, HeadBlocks(c[g.start]), |HeadBlocks(c[g.start])|));
    GetPutWord(Installed(g, c, HeadBlocks(c[g.start]), |HeadBlocks(c[g.start])|)[g.start], 0, 0, 0);
  }

  lemma WritesLength(g: Geometry, d: Blocks, view: Blocks, lh: seq<Word>, i: nat)
    requires Installable(g, d, lh) && |view| == |d|
    ensures |CommitWrites(g, d, view, lh)| == 2 * |lh| + 2
    ensures i < 2 * |lh| + 2 ==> |CommitWrites(g, d, view, lh)[i]| == |d|
  {
    hide HeadBlocks, PutHead;
    CommittedRecoverable(g, d, view, lh);
  }

  /** The recovered disk of any durable state is the effect of its committed prefix. */
  lemma DurableRecovers(g: Geometry, d0: Blocks, s: State)
    requires Durable(g, d0, s)
    ensures Recoverable(g, s.disk)
    ensures SameHome(g, Recovered(g, s.disk), Apply(g, d0, s.writes[..s.cut]))
  {
    hide HeadCount, HeadBlocks, CommitWrites, Apply, Recovered;
    if s.c.committing && s.c.lh != [] {
      var cut :| Writing(g, d0, s, cut);
      if s.done == 0 {
        EmptyHeaderRecovers(g, s.from);
      } else {
        CommitCrash(g, s.from, s.view, s.c.lh, s.done - 1);
        assert s.writes[..|s.writes|] == s.writes;
      }
    } else {
      EmptyHeaderRecovers(g, s.disk);
    }
  }

  lemma ApplyOne(g: Geometry, d: Blocks, ws: seq<Write>, w: Write)
    requires Fit(g, |d|, ws) && w.block < |d| && !g.InLog(w.block)
    ensures Fit(g, |d|, ws + [w])
    ensures Apply(g, d, ws + [w]) == Apply(g, d, ws)[w.block := w.data]
  {
    assert (ws + [w])[..|ws|] == ws;
  }

  lemma AppendWhole(g: Geometry, s: State, step: Step)
    requires WholeOps(s) && step.Append? && Enabled(g, s, step)
    ensures WholeOps(Do(g, s, step))
  {
  }

  lemma AppendQuiet(g: Geometry, d0: Blocks, s: State, step: Step)
    requires Quiet(g, d0, s, s.disk, s.cut) && SameHome(g, s.view, Apply(g, d0, s.writes)) && step.Append? &&
             Enabled(g, s, step)
    ensures var s' := Do(g, s, step);
            Quiet(g, d0, s', s'.disk, s'.cut) && SameHome(g, s'.view, Apply(g, d0, s'.writes))
  {
    hide HeadCount, Apply;
    ApplyOne(g, d0, s.writes, Write(step.op, step.block, step.data));
    assert Do(g, s, step).writes[..s.cut] == s.writes[..s.cut];
  }

  lemma AppendDurable(g: Geometry, d0: Blocks, s: State, step: Step)
    requires Durable(g, d0, s) && Reserved(s) && step.Append? && Enabled(g, s, step)
    ensures Durable(g, d0, Do(g, s, step))
  {
    hide HeadCount, Apply, Writing, WholeOps, Quiet, SameHome;
    AppendWhole(g, s, step);
    assert !s.c.committing;
    AppendQuiet(g, d0, s, step);
  }

  lemma EndDurable(g: Geometry, d0: Blocks, s: State, step: Step)
    requires Durable(g, d0, s) && Reserved(s) && step.End? && Enabled(g, s, step)
    requires |s.c.lh| <= g.size - 1
    ensures Durable(g, d0, Do(g, s, step))
  {
    hide HeadCount, CommitWrites, Apply;
    var s' := Do(g, s, step);
    assert !s.c.committing;
    if s'.c.committing && s'.c.lh != [] {
      assert Writing(g, d0, s', s.cut);
    }
  }

  lemma DiskWriteDurable(g: Geometry, d0: Blocks, s: State)
    requires Durable(g, d0, s) && Reserved(s) && Enabled(g, s, DiskWrite)
    ensures Durable(g, d0, Do(g, s, DiskWrite))
  {
    hide HeadCount, CommitWrites, Apply;
    var s' := Do(g, s, DiskWrite);
    var cut :| Writing(g, d0, s, cut);
    WritesLength(g, s.from, s.view, s.c.lh, s.done);
    assert Writing(g, d0, s', cut);
  }

  lemma FinishDurable(g: Geometry, d0: Blocks, s: State)
    requires Durable(g, d0, s) && Reserved(s) && Enabled(g, s, Finish)
    ensures Durable(g, d0, Do(g, s, Finish))
    ensures Do(g, s, Finish).cut == |s.writes|
  {
    hide HeadCount, CommitWrites, Apply;
    assert s.writes[..|s.writes|] == s.writes;
    if s.c.lh != [] {
      var cut :| Writing(g, d0, s, cut);
      WritesLength(g, s.from, s.view, s.c.lh, 0);
      LastWrite(g, s.from, s.view, s.c.lh);
    }
  }

  lemma RecoveredHead(g: Geometry, d: Blocks)
    requires Recoverable(g, d)
    ensures HeadCount(Recovered(g, d)[g.start]) == 0
  {
    hide GetWord, PutWord, Installed;
    var lh := HeadBlocks(d[g.start]);
    GetPutWord(Installed(g, d, lh, |lh|)[g.start], 0, 0, 0);
  }

  lemma CrashWhole(s: State, s': State)
    requires WholeOps(s) && s'.cut == s.cut && s'.writes == s.writes[..s.cut] && s'.ops == Stopped(s.ops)
    ensures WholeOps(s')
  {
  }

  lemma CrashDurable(g: Geometry, d0: Blocks, s: State, boots: seq<Blocks>)
    requires Durable(g, d0, s) && Enabled(g, s, Crash(boots))
    ensures Durable(g, d0, Do(g, s, Crash(boots)))
  {
    hide HeadCount, HeadBlocks, Recovered, Apply, WholeOps, Writing, Pending, SameHome;
    var s' := Do(g, s, Crash(boots));
    RepeatedCrashes(g, boots);
    DurableRecovers(g, d0, s);
    RecoveredHead(g, s.disk);
    CutBound(g, d0, s);
    CrashWhole(s, s');
    assert s'.writes[..s'.cut] == s'.writes;
  }

  lemma CutBound(g: Geometry, d0: Blocks, s: State)
    requires Durable(g, d0, s)
    ensures WholeOps(s) && s.cut <= |s.writes|
  {
  }

  lemma DurableStep(g: Geometry, d0: Blocks, s: State, step: Step)
    requires Durable(g, d0, s) && Reserved(s) && Enabled(g, s, step)
    requires |s.c.lh| <= g.size - 1
    ensures Durable(g, d0, Do(g, s, step))
  {
    match step
    case Begin =>
      assert !s.c.committing;
    case Guard(op) =>
      assert !s.c.committing;
    case Append(_, _, _) => AppendDurable(g, d0, s, step);
    case End(_) => EndDurable(g, d0, s, step);
    case DiskWrite => DiskWriteDurable(g, d0, s);
    case Finish => FinishDurable(g, d0, s);
    case Crash(boots) => CrashDurable(g, d0, s, boots);
  }

  /** Along the run the collected header always fits the log area. */
  ghost predicate Inside(g: Geometry, s: State, steps: seq<Step>)
    requires Legal(g, s, steps)
    decreases |steps|
  {
    |s.c.lh| <= g.size - 1 && (steps != [] ==> Inside(g, Do(g, s, steps[0]), steps[1..]))
  }

  lemma {:induction false} DurableRun(g: Geometry, d0: Blocks, s: State, steps: seq<Step>)
    requires Durable(g, d0, s) && Reserved(s) && Legal(g, s, steps) && Inside(g, s, steps)
    ensures Durable(g, d0, Run(g, s, steps))
    decreases |steps|
  {
    if steps != [] {
      DurableStep(g, d0, s, steps[0]);
      ReservedStep(g, s, steps[0]);
      DurableRun(g, d0, Do(g, s, steps[0]), steps[1..]);
    }
  }

  lemma StartDurable(g: Geometry, d: Blocks)
    requires g.Fits(d) && HeadCount(d[g.start]) == 0
    ensures Durable(g, d, Start(d)) && Reserved(Start(d))
  {
  }

  /** Group commit: whatever the interleaving, a crash in any reachable state recovers to
      the effect of a prefix of the log_writes that contains each operation's writes
      entirely or not at all, and only those of operations that have ended. It does not matter
      how often recovery is itself cut off. */
  lemma RecoveredPrefix(g: Geometry, d0: Blocks, steps: seq<Step>)
    requires g.Fits(d0) && HeadCount(d0[g.start]) == 0
    requires Legal(g, Start(d0), steps) && Inside(g, Start(d0), steps)
    ensures var s := Run(g, Start(d0), steps);
            && s.cut <= |s.writes| && Fit(g, |d0|, s.writes)
            && Recoverable(g, s.disk)
            && WholeOps(s)
            && forall boots | Restarts(g, boots) && boots[0] == s.disk ::
                 SameHome(g, Recovered(g, boots[|boots| - 1]), Apply(g, d0, s.writes[..s.cut]))
  {
    hide HeadCount, HeadBlocks, Recovered, Apply, WholeOps, Run, SameHome;
    StartDurable(g, d0);
    DurableRun(g, d0, Start(d0), steps);
    var s := Run(g, Start(d0), steps);
    DurableRecovers(g, d0, s);
    CutBound(g, d0, s);
    forall boots | Restarts(g, boots) && boots[0] == s.disk
      ensures SameHome(g, Recovered(g, boots[|boots| - 1]), Apply(g, d0, s.writes[..s.cut]))
    {
      RepeatedCrashes(g, boots);
    }
  }

  /** In a log area of more than LOGSIZE blocks that is so of every run. */
  lemma RecoveredAlways(g: Geometry, d0: Blocks, steps: seq<Step>)
    requires g.Fits(d0) && HeadCount(d0[g.start]) == 0 && (g.size == 1 || g.size > LOGSIZE)
    requires Legal(g, Start(d0), steps)
    ensures var s := Run(g, Start(d0), steps);
            && s.cut <= |s.writes| && Fit(g, |d0|, s.writes) && WholeOps(s) && Recoverable(g, s.disk)
            && forall boots | Restarts(g, boots) && boots[0] == s.disk ::
                 SameHome(g, Recovered(g, boots[|boots| - 1]), Apply(g, d0, s.writes[..s.cut]))
  {
    hide HeadCount, HeadBlocks, Recovered, Apply, WholeOps, Run, SameHome;
    if g.size == 1 {
      HeaderOnlyInside(g, Start(d0), steps);
    } else {
      LargeLogInside(g, Start(d0), steps);
    }
    RecoveredPrefix(g, d0, steps);
  }

  // ----- when the header fits the log area

  /** A legal run may be continued by any step enabled in its last state. */
  lemma {:induction false} Extend(g: Geometry, s: State, run: seq<Step>, step: Step)
    requires Legal(g, s, run) && Enabled(g, Run(g, s, run), step)
    ensures Legal(g, s, run + [step]) && Run(g, s, run + [step]) == Do(g, Run(g, s, run), step)
    decreases |run|
  {
    if run == [] {
      assert Legal(g, Do(g, s, step), [step][1..]);
    } else {
      assert (run + [step])[1..] == run[1..] + [step];
      Extend(g, Do(g, s, run[0]), run[1..], step);
    }
  }

  lemma {:induction false} InsideEnd(g: Geometry, s: State, steps: seq<Step>)
    requires Legal(g, s, steps) && Inside(g, s, steps)
    ensures |Run(g, s, steps).c.lh| <= g.size - 1
    decreases |steps|
  {
    if steps != [] {
      InsideEnd(g, Do(g, s, steps[0]), steps[1..]);
    }
  }

  lemma {:induction false} LargeLogInside(g: Geometry, s: State, steps: seq<Step>)
    requires g.size > LOGSIZE && Reserved(s) && Legal(g, s, steps)
    ensures Inside(g, s, steps)
    decreases |steps|
  {
    if steps != [] {
      ReservedStep(g, s, steps[0]);
      LargeLogInside(g, Do(g, s, steps[0]), steps[1..]);
    }
  }

  /** With no log block at all, log_write always panics and the header stays empty. */
  lemma {:induction false} HeaderOnlyInside(g: Geometry, s: State, steps: seq<Step>)
    requires g.size == 1 && s.c.lh == [] && Legal(g, s, steps)
    requires forall i | 0 <= i < |s.ops| :: !s.ops[i].guarded
    ensures Inside(g, s, steps)
    decreases |steps|
  {
    if steps != [] {
      HeaderOnlyInside(g, Do(g, s, steps[0]), steps[1..]);
    }
  }

  /** No block has been written to the disk yet, and none below `base` was logged. */
  ghost predicate Fresh(s: State, d: Blocks, base: nat) {
    s.disk == d && |s.view| == |d| && forall i | 0 <= i < |s.writes| :: s.writes[i].block >= base
  }

  /** Three operations have logged `k` consecutive blocks from `base` in turn. */
  ghost predicate Shared(s: State, base: Word, k: nat) {
    && s.c == L.Control(s.c.lh, 3, false)
    && |s.c.lh| == k && (forall i | 0 <= i < k :: s.c.lh[i] == base + i)
    && |s.ops| == 3
    && (forall i | 0 <= i < 3 ::
          s.ops[i].active && !s.ops[i].guarded && |s.ops[i].logged| <= (k + 2 - i) / 3)
    && base + k <= |s.view| && forall b: nat | base <= b < base + k :: s.view[b] == ZERO_BLOCK
  }

  lemma ShareStep(g: Geometry, s: State, base: Word, k: nat)
    requires Shared(s, base, k) && k < g.size - 1 && k < LOGSIZE - 1
    requires g.start + g.size <= base && base + k < 0x1_0000_0000 && base + k < |s.view|
    ensures Enabled(g, s, Guard(k % 3))
    ensures var s1 := Do(g, s, Guard(k % 3));
            && Enabled(g, s1, Append(k % 3, base + k, ZERO_BLOCK))
            && Shared(Do(g, s1, Append(k % 3, base + k, ZERO_BLOCK)), base, k + 1)
            && forall d: Blocks | Fresh(s, d, base) :: Fresh(Do(g, s1, Append(k % 3, base + k, ZERO_BLOCK)), d, base)
  {
  }

  /** Three operations have begun. */
  lemma ShareNone(g: Geometry, d: Blocks, base: Word) returns (steps: seq<Step>)
    requires base <= |d|
    ensures Legal(g, Start(d), steps)
    ensures Shared(Run(g, Start(d), steps), base, 0) && Fresh(Run(g, Start(d), steps), d, base)
  {
    hide Legal, Run;
    steps := RunNone(g, Start(d));
    for i := 0 to 3
      invariant Legal(g, Start(d), steps)
      invariant Run(g, Start(d), steps)
             == Start(d).(c := L.Control([], i, false), ops := seq(i, _ => Op({}, false, true)))
    {
      Extend(g, Start(d), steps, Begin);
      steps := steps + [Begin];
    }
  }

  lemma {:induction false} ShareRun(g: Geometry, d: Blocks, base: Word, k: nat) returns (steps: seq<Step>)
    requires 2 <= g.size <= LOGSIZE && k <= g.size - 2
    requires g.start + g.size <= base && base + LOGSIZE <= |d| && base + LOGSIZE < 0x1_0000_0000
    ensures Legal(g, Start(d), steps)
    ensures Shared(Run(g, Start(d), steps), base, k) && Fresh(Run(g, Start(d), steps), d, base)
  {
    hide Legal, Run, Enabled, Do, Shared;
    if k == 0 {
      steps := ShareNone(g, d, base);
    } else {
      var run := ShareRun(g, d, base, k - 1);
      ShareStep(g, Run(g, Start(d), run), base, k - 1);
      Extend(g, Start(d), run, Guard((k - 1) % 3));
      Extend(g, Start(d), run + [Guard((k - 1) % 3)], Append((k - 1) % 3, base + k - 1, ZERO_BLOCK));
      steps := run + [Guard((k - 1) % 3)] + [Append((k - 1) % 3, base + k - 1, ZERO_BLOCK)];
    }
  }

  lemma RunNone(g: Geometry, s: State) returns (steps: seq<Step>)
    ensures steps == [] && Legal(g, s, steps) && Run(g, s, steps) == s
  {
    steps := [];
  }

  lemma BothPass(g: Geometry, s: State, base: Word)
    requires 2 <= g.size <= LOGSIZE && Shared(s, base, g.size - 2)
    ensures Enabled(g, s, Guard(1)) && Enabled(g, Do(g, s, Guard(1)), Guard(2))
    ensures Do(g, Do(g, s, Guard(1)), Guard(2)) ==
            s.(ops := [s.ops[0], s.ops[1].(guarded := true), s.ops[2].(guarded := true)])
  {
  }

  lemma RaceStep(g: Geometry, s: State, base: Word)
    requires 2 <= g.size <= LOGSIZE && Shared(s, base, g.size - 2)
    requires g.start + g.size <= base && base + LOGSIZE <= |s.view| && base + LOGSIZE < 0x1_0000_0000
    ensures Enabled(g, s, Guard(1)) && Enabled(g, Do(g, s, Guard(1)), Guard(2))
    ensures var a, b := Append(1, base + g.size - 2, ZERO_BLOCK), Append(2, base + g.size - 1, ZERO_BLOCK);
            var s2 := Do(g, Do(g, s, Guard(1)), Guard(2));
            && Enabled(g, s2, a) && Enabled(g, Do(g, s2, a), b) && Full(g, Do(g, Do(g, s2, a), b), base)
            && forall d: Blocks | Fresh(s, d, base) :: Fresh(Do(g, Do(g, s2, a), b), d, base)
  {
    BothPass(g, s, base);
  }

  /** Two operations pass log_write's unlocked guard together and overrun the log area. */
  lemma RacingGuards(g: Geometry, d: Blocks, base: Word) returns (steps: seq<Step>)
    requires 2 <= g.size <= LOGSIZE
    requires g.start + g.size <= base && base + LOGSIZE <= |d| && base + LOGSIZE < 0x1_0000_0000
    ensures Legal(g, Start(d), steps) && !Inside(g, Start(d), steps)
    ensures Full(g, Run(g, Start(d), steps), base) && Fresh(Run(g, Start(d), steps), d, base)
  {
    hide Legal, Run, Enabled, Do, Inside;
    var a, b := Append(1, base + g.size - 2, ZERO_BLOCK), Append(2, base + g.size - 1, ZERO_BLOCK);
    var run := ShareRun(g, d, base, g.size - 2);
    RaceStep(g, Run(g, Start(d), run), base);
    Extend(g, Start(d), run, Guard(1));
    Extend(g, Start(d), run + [Guard(1)], Guard(2));
    Extend(g, Start(d), run + [Guard(1)] + [Guard(2)], a);
    Extend(g, Start(d), run + [Guard(1)] + [Guard(2)] + [a], b);
    steps := run + [Guard(1)] + [Guard(2)] + [a] + [b];
    if Inside(g, Start(d), steps) {
      InsideEnd(g, Start(d), steps);
      assert false;
    }
  }

  /** The log area is overrun by one block, and three operations are about to end. */
  ghost predicate Full(g: Geometry, s: State, base: Word) {
    && |s.c.lh| == g.size && s.c == L.Control(s.c.lh, 3, false)
    && |s.ops| == 3 && (forall i | 0 <= i < 3 :: s.ops[i].active && !s.ops[i].guarded)
    && (forall i | 0 <= i < |s.c.lh| :: base <= s.c.lh[i] < |s.view| && s.view[s.c.lh[i]] == ZERO_BLOCK)
  }

  lemma EndAll(g: Geometry, d: Blocks, run: seq<Step>, base: Word) returns (steps: seq<Step>)
    requires Legal(g, Start(d), run) && Full(g, Run(g, Start(d), run), base) && Fresh(Run(g, Start(d), run), d, base)
    ensures Legal(g, Start(d), steps)
    ensures var s, s' := Run(g, Start(d), run), Run(g, Start(d), steps);
            && s'.c == L.Control(s.c.lh, 0, true) && s'.view == s.view && s'.writes == s.writes
            && s'.disk == d == s'.from && s'.done == 0
  {
    hide Legal, Run;
    steps := run;
    Extend(g, Start(d), steps, End(0));
    steps := steps + [End(0)];
    Extend(g, Start(d), steps, End(1));
    steps := steps + [End(1)];
    Extend(g, Start(d), steps, End(2));
    steps := steps + [End(2)];
  }

  /** The first `k` disk writes of a commit that has overrun the log area. */
  lemma {:induction false} WriteAll(g: Geometry, d: Blocks, run: seq<Step>, k: nat) returns (steps: seq<Step>)
    requires Legal(g, Start(d), run)
    requires var s := Run(g, Start(d), run);
             s.c.committing && Overrun(g, s) && s.from == s.disk && s.done == 0 && k <= |s.c.lh|
    ensures Legal(g, Start(d), steps)
    ensures var s := Run(g, Start(d), run);
            Run(g, Start(d), steps) == s.(disk := LogWritten(g, s.from, s.view, s.c.lh, k), done := k)
  {
    hide Legal, Run;
    steps := run;
    if k > 0 {
      steps := WriteAll(g, d, run, k - 1);
      Extend(g, Start(d), steps, DiskWrite);
      steps := steps + [DiskWrite];
    }
  }

  /** Nothing of the log area but its blocks 1 to `k`, and the blocks behind it, is written. */
  lemma {:induction false} LogWrittenAt(g: Geometry, d: Blocks, view: Blocks, lh: seq<Word>, k: nat, b: nat)
    requires k <= |lh| && g.start + |lh| < |d| && (forall i | 0 <= i < |lh| :: lh[i] < |view|) && b < |d|
    ensures LogWritten(g, d, view, lh, k)[b] == if g.start < b <= g.start + k then view[lh[b - g.start - 1]] else d[b]
  {
    if k > 0 {
      LogWrittenAt(g, d, view, lh, k - 1, b);
    }
  }

  /** A block that no write names keeps its contents. */
  lemma {:induction false} ApplyElsewhere(g: Geometry, d: Blocks, ws: seq<Write>, b: nat)
    requires Fit(g, |d|, ws) && b < |d| && forall i | 0 <= i < |ws| :: ws[i].block != b
    ensures Apply(g, d, ws)[b] == d[b]
  {
    if ws != [] {
      ApplyElsewhere(g, d, ws[..|ws| - 1], b);
    }
  }

  /** What the race does in a log area as mkfs makes it: write_log overwrites the block behind
      the log area, which no operation has written. */
  lemma BlockLost(g: Geometry, d: Blocks) returns (steps: seq<Step>)
    requires 2 <= g.size <= LOGSIZE && g.start + g.size + 1 + LOGSIZE <= |d|
    requires g.start + g.size + 1 + LOGSIZE < 0x1_0000_0000 && d[g.start + g.size] != ZERO_BLOCK
    ensures Legal(g, Start(d), steps)
    ensures var s, b := Run(g, Start(d), steps), g.start + g.size;
            && s.c.committing && !g.InLog(b) && |s.disk| == |d| &&
              (forall i | 0 <= i < |s.writes| :: s.writes[i].block > b)
            && s.disk[b] != d[b] && s.disk[g.start] == d[g.start]
  {
    hide Legal, Run;
    var base := g.start + g.size + 1;
    var run := RacingGuards(g, d, base);
    steps := EndAll(g, d, run, base);
    var s := Run(g, Start(d), steps);
    steps := WriteAll(g, d, steps, |s.c.lh|);
    LogWrittenAt(g, d, s.view, s.c.lh, |s.c.lh|, g.start + g.size);
    LogWrittenAt(g, d, s.view, s.c.lh, |s.c.lh|, g.start);
  }

  /** The disk recovers to the effect of the first `k` writes, however often recovery is cut off,
      and no operation has writes on both sides. */
  ghost predicate RecoversTo(g: Geometry, d0: Blocks, s: State, k: nat) {
    && k <= |s.writes| && Fit(g, |d0|, s.writes) && Recoverable(g, s.disk)
    && (forall i, j | 0 <= i < k <= j < |s.writes| :: s.writes[i].op != s.writes[j].op)
    && forall boots | Restarts(g, boots) && boots[0] == s.disk ::
         SameHome(g, Recovered(g, boots[|boots| - 1]), Apply(g, d0, s.writes[..k]))
  }

  /** After every run from every disk with an empty log, a crash recovers to a prefix of whole
      operations. */
  ghost predicate AlwaysRecovers(g: Geometry) {
    forall d: Blocks, steps: seq<Step> | g.Fits(d) && HeadCount(d[g.start]) == 0 && Legal(g, Start(d), steps) ::
      exists k: nat :: RecoversTo(g, d, Run(g, Start(d), steps), k)
  }

  /** A disk on which a block was lost recovers to no prefix. */
  lemma LostForGood(g: Geometry, d: Blocks, s: State, b: nat, k: nat)
    requires g.Fits(d) && HeadCount(d[g.start]) == 0 && |s.disk| == |d| && s.disk[g.start] == d[g.start]
    requires b < |d| && !g.InLog(b) && s.disk[b] != d[b] && forall i | 0 <= i < |s.writes| :: s.writes[i].block != b
    ensures Recoverable(g, s.disk) && !RecoversTo(g, d, s, k)
  {
    hide HeadCount, Apply;
    EmptyHeaderRecovers(g, s.disk);
    assert Recovered(g, s.disk)[b] == s.disk[b];
    assert Restarts(g, [s.disk]);
    if k <= |s.writes| && Fit(g, |d|, s.writes) {
      ApplyElsewhere(g, d, s.writes[..k], b);
      assert !SameHome(g, Recovered(g, s.disk), Apply(g, d, s.writes[..k]));
    }
  }

  /** Group commit is atomic in all runs if and only if the log area has one block or more than
      LOGSIZE. */
  lemma RecoveryExact(g: Geometry)
    requires 1 <= g.size && g.start + g.size + 1 + LOGSIZE < 0x1_0000_0000
    ensures AlwaysRecovers(g) <==> g.size == 1 || g.size > LOGSIZE
  {
    hide HeadCount, Legal, Run, RecoversTo;
    if g.size == 1 || g.size > LOGSIZE {
      forall d: Blocks, steps: seq<Step> | g.Fits(d) && HeadCount(d[g.start]) == 0 && Legal(g, Start(d), steps)
        ensures exists k: nat :: RecoversTo(g, d, Run(g, Start(d), steps), k)
      {
        RunRecovers(g, d, steps);
      }
    } else {
      var d := MarkedDisk(g);
      var steps := BlockLost(g, d);
      var s := Run(g, Start(d), steps);
      forall k: nat
        ensures !RecoversTo(g, d, s, k)
      {
        LostForGood(g, d, s, g.start + g.size, k);
      }
    }
  }

  lemma RunRecovers(g: Geometry, d: Blocks, steps: seq<Step>)
    requires g.Fits(d) && HeadCount(d[g.start]) == 0 && (g.size == 1 || g.size > LOGSIZE) && Legal(g, Start(d), steps)
    ensures RecoversTo(g, d, Run(g, Start(d), steps), Run(g, Start(d), steps).cut)
  {
    hide HeadCount, Legal, Run, Apply, SameHome, Recovered, Recoverable;
    RecoveredAlways(g, d, steps);
  }

  /** Zeros but for the block behind the log area. */
  lemma MarkedDisk(g: Geometry) returns (d: Blocks)
    requires 2 <= g.size
    ensures |d| == g.start + g.size + 1 + LOGSIZE && g.Fits(d) && HeadCount(d[g.start]) == 0
    ensures d[g.start + g.size] != ZERO_BLOCK
  {
    var one: Block := seq(BSIZE, _ => 1);
    assert one[0] != ZERO_BLOCK[0];
    d := seq(g.start + g.size + 1 + LOGSIZE, b => if b == g.start + g.size then one else ZERO_BLOCK);
  }

  /** In every run from every disk, commit writes only inside the log area. */
  ghost predicate AlwaysInside(g: Geometry) {
    forall d: Blocks, steps: seq<Step> | Legal(g, Start(d), steps) :: Inside(g, Start(d), steps)
  }

  lemma OneOutside(g: Geometry, d: Blocks, steps: seq<Step>)
    requires Legal(g, Start(d), steps) && !Inside(g, Start(d), steps)
    ensures !AlwaysInside(g)
  {
  }

  /** Every log block that commit writes lies inside the log area in all interleavings,
      exactly when the area is larger than LOGSIZE (or holds the header alone). */
  lemma LogAreaExact(g: Geometry)
    requires g.start + g.size + LOGSIZE < 0x1_0000_0000
    ensures AlwaysInside(g) <==> g.size == 1 || g.size > LOGSIZE
  {
    if g.size == 1 || g.size > LOGSIZE {
      forall d: Blocks, steps: seq<Step> | Legal(g, Start(d), steps)
        ensures Inside(g, Start(d), steps)
      {
        if g.size == 1 {
          HeaderOnlyInside(g, Start(d), steps);
        } else {
          LargeLogInside(g, Start(d), steps);
        }
      }
    } else {
      var d: Blocks := seq(g.start + g.size + LOGSIZE, _ => ZERO_BLOCK);
      var steps: seq<Step>;
      if g.size == 0 {
        steps := RunNone(g, Start(d));
      } else {
        steps := RacingGuards(g, d, g.start + g.size);
      }
      OneOutside(g, d, steps);
    }
  }
}
