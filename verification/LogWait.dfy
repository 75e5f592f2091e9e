/** begin_op, log_write and end_op (kernel/log.c) as clients of sleep and wakeup: any number
    of processes wait for room in the log and for commits, in every interleaving. */
module LogWait {
  import opened Disk
  import opened SleepWakeup
  import L = Log

  const CHAN := 0

  /** What begin_op waits for. */
  const ROOM: (L.Control, nat) -> bool := (c: L.Control, chan: nat) => chan == CHAN && c.Admits()

  /** Where a process is: in begin_op until it is admitted; admitted but still holding the
      lock; inside its operation; in log_write before and after listing the block; in end_op
      before the decrement, after it, or after deciding to commit; committing; reopening the
      log before and after clearing `committing`. */
  datatype Role =
    | Idle | Beginning | Admitted | Working | Logging | Logged
    | Ending | Left | Closing | Committing | Reopening | Reopened
  {
    /** Counted in `outstanding`. */
    predicate Counted() {
      Admitted? || Working? || Logging? || Logged? || Ending?
    }

    predicate Commits() {
      Closing? || Committing? || Reopening?
    }
  }

  datatype System = System(w: State<L.Control>, role: seq<Role>)

  datatype Action =
    | CallBegin(p: nat)
    | Admit(p: nat)
    | CallLog(p: nat)
    | List(p: nat, block: Word)
    | CallEnd(p: nat)
    | Leave(p: nat)
    | CallReopen(p: nat)
    | Reopen(p: nat)
    | Proto(step: Step<L.Control>)
  {
    function Pid(): (q: nat) {
      if Proto? then step.p else p
    }
  }

  function StartLog(n: nat): (s: System) {
    System(Start(L.Control([], 0, false), n), seq(n, _ => Idle))
  }

  /** Which steps of sleep and wakeup the code of each role contains. */
  predicate InCode(role: Role, me: Proc, step: Step<L.Control>) {
    match step
    case Acquire(_) => role.Beginning? || role.Logging? || role.Ending? || role.Reopening?
    case Change(_, _, _) => false
    case Release(_) => role.Admitted? || role.Logged? || role.Closing? ||
      ((role.Left? || role.Reopened?) && me.owes == {})
    case Sleep(_, c) => role.Beginning? && c == CHAN
    case Wakeup(_, c) => (role.Left? || role.Reopened?) && me.owes != {} && me.pc == InLock && c == CHAN
    case _ => true
  }

  function Released(role: Role): (r: Role) {
    if role.Admitted? || role.Logged? then Working else if role.Closing? then Committing else Idle
  }

  ghost predicate Can(s: System, a: Action) {
    && a.Pid() < |s.role| == |s.w.procs|
    && match a
       case CallBegin(p) => s.role[p] == Idle
       case Admit(p) => s.role[p] == Beginning && s.w.procs[p].pc == InLock && s.w.data.Admits()
       case CallLog(p) => s.role[p] == Working
       case List(p, _) => s.role[p] == Logging && s.w.procs[p].pc == InLock
       case CallEnd(p) => s.role[p] == Working
       case Leave(p) => s.role[p] == Ending && s.w.procs[p].pc == InLock && s.w.data.outstanding >= 1
       case CallReopen(p) => s.role[p] == Committing
       case Reopen(p) => s.role[p] == Reopening && s.w.procs[p].pc == InLock
       case Proto(step) => InCode(s.role[step.p], s.w.procs[step.p], step) && Enabled(ROOM, s.w, step)
  }

  /** The change to the shared fields, and the wakeup it must be followed by. */
  ghost function Changed(s: System, a: Action): (r: (L.Control, set<nat>))
    requires Can(s, a)
  {
    var c := s.w.data;
    match a
    case Admit(_) => (c.Begin(), {})
    case List(_, b) => (c.Append(b), {})
    case Leave(_) => (c.End(), if c.End().committing then {} else {CHAN})
    case Reopen(_) => (c.Done(), {CHAN})
    case _ => (c, {})
  }

  predicate Changes(a: Action) {
    a.Admit? || a.List? || a.Leave? || a.Reopen?
  }

  ghost function NextRole(s: System, a: Action): (r: Role)
    requires Can(s, a)
  {
    match a
    case CallBegin(_) => Beginning
    case Admit(_) => Admitted
    case CallLog(_) => Logging
    case List(_, _) => Logged
    case CallEnd(_) => Ending
    case Leave(_) => if s.w.data.End().committing then Closing else Left
    case CallReopen(_) => Reopening
    case Reopen(_) => Reopened
    case Proto(step) => if step.Release? then Released(s.role[step.p]) else s.role[step.p]
  }

  ghost function Act(s: System, a: Action): (s': System)
    requires Can(s, a)
  {
    var (c, owed) := Changed(s, a);
    System(if Changes(a) then Do(ROOM, s.w, Change(a.Pid(), c, owed)) else if a.Proto? then Do(ROOM, s.w, a.step)
           else s.w,
           s.role[a.Pid() := NextRole(s, a)])
  }

  ghost predicate Reach(s: System, acts: seq<Action>)
    decreases |acts|
  {
    acts == [] || (Can(s, acts[0]) && Reach(Act(s, acts[0]), acts[1..]))
  }

  ghost function After(s: System, acts: seq<Action>): (s': System)
    requires Reach(s, acts)
    decreases |acts|
  {
    if acts == [] then s else After(Act(s, acts[0]), acts[1..])
  }

  // ----- the invariant

  predicate InWakeup(pc: Pc) {
    (pc.WakeWant? || pc.Waking?) && pc.held && pc.wake == CHAN
  }

  /** The role of a process fixes where it can be and what it can owe. */
  predicate Fits(role: Role, me: Proc) {
    && (me.owes == {} || ((role.Left? || role.Reopened?) && me.owes == {CHAN}))
    && match role
       case Idle => me.pc == Out
       case Working => me.pc == Out
       case Committing => me.pc == Out
       case Admitted => me.pc == InLock
       case Logged => me.pc == InLock
       case Closing => me.pc == InLock
       case Logging => me.pc == Out || me.pc == InLock
       case Ending => me.pc == Out || me.pc == InLock
       case Reopening => me.pc == Out || me.pc == InLock
       case Left => me.pc == InLock || InWakeup(me.pc)
       case Reopened => me.pc == InLock || InWakeup(me.pc)
       case Beginning => !me.pc.WakeWant? && !me.pc.Waking? && (Dormant(me.pc) || me.pc.Ready? ==> me.pc.chan == CHAN)
  }

  function Count(role: seq<Role>): (k: nat) {
    if role == [] then 0 else (if role[0].Counted() then 1 else 0) + Count(role[1..])
  }

  /** The shared fields say what the processes are doing. */
  ghost predicate Honest(role: seq<Role>, c: L.Control) {
    && c.outstanding == Count(role)
    && (c.committing ==> c.outstanding == 0)
    && (c.committing <==> exists p | 0 <= p < |role| :: role[p].Commits())
    && (forall p, q | 0 <= p < q < |role| :: !role[p].Commits() || !role[q].Commits())
    && (c.outstanding == 0 && !c.committing ==> c.lh == [])
  }

  ghost predicate LogInv(s: System) {
    && Inv(ROOM, s.w)
    && |s.role| == |s.w.procs| && Honest(s.role, s.w.data)
    && (forall p | 0 <= p < |s.role| :: Fits(s.role[p], s.w.procs[p]))
  }

  lemma {:induction false} CountUpdate(role: seq<Role>, p: nat, r: Role)
    requires p < |role|
    ensures Count(role[p := r]) + (if role[p].Counted() then 1 else 0) == Count(role) + (if r.Counted() then 1 else 0)
  {
    if p > 0 {
      assert role[p := r][1..] == role[1..][p - 1 := r];
      CountUpdate(role[1..], p - 1, r);
    } else {
      assert role[p := r][1..] == role[1..];
    }
  }

  lemma {:induction false} CountSome(role: seq<Role>, p: nat)
    requires p < |role| && role[p].Counted()
    ensures Count(role) > 0
  {
    if p > 0 {
      CountSome(role[1..], p - 1);
    }
  }

  lemma {:induction false} CountNone(role: seq<Role>)
    requires forall p | 0 <= p < |role| :: !role[p].Counted()
    ensures Count(role) == 0
  {
    if role != [] {
      CountNone(role[1..]);
    }
  }

  /** The changes that make room are the ones followed by a wakeup. */
  lemma RoomOwed(s: System, a: Action)
    requires Can(s, a) && Changes(a)
    ensures ROOM(Changed(s, a).0, CHAN) && !ROOM(s.w.data, CHAN) ==> CHAN in Changed(s, a).1
  {
  }

  lemma ActIsStep(s: System, a: Action)
    requires LogInv(s) && Can(s, a)
    ensures Inv(ROOM, Act(s, a).w)
  {
    hide Inv;
    if Changes(a) {
      RoomOwed(s, a);
      var (c, owed) := Changed(s, a);
      assert forall chan: nat | !ROOM(s.w.data, chan) && ROOM(c, chan) :: chan in owed;
      InvStep(ROOM, s.w, Change(a.Pid(), c, owed));
    } else if a.Proto? {
      InvStep(ROOM, s.w, a.step);
    }
  }

  lemma ProtoFits(s: System, step: Step<L.Control>, p: nat)
    requires Can(s, Proto(step)) && p < |s.role| == |s.w.procs|
    requires Fits(s.role[p], s.w.procs[p]) && Fits(s.role[step.p], s.w.procs[step.p])
    ensures var s' := Act(s, Proto(step));
            |s'.role| == |s'.w.procs| && p < |s'.role| && Fits(s'.role[p], s'.w.procs[p])
  {
  }

  lemma CodeFits(s: System, a: Action, p: nat)
    requires Can(s, a) && !a.Proto? && p < |s.role| == |s.w.procs| && Fits(s.role[p], s.w.procs[p])
    ensures var s' := Act(s, a);
            |s'.role| == |s'.w.procs| && p < |s'.role| && Fits(s'.role[p], s'.w.procs[p])
  {
  }

  lemma ActFits(s: System, a: Action)
    requires LogInv(s) && Can(s, a)
    ensures var s' := Act(s, a);
            |s'.role| == |s'.w.procs| && forall p | 0 <= p < |s'.role| :: Fits(s'.role[p], s'.w.procs[p])
  {
    hide Inv, Honest, Count, Fits, Do, Enabled, InCode, Changed, NextRole;
    var s' := Act(s, a);
    SizeKept(s, a);
    forall p | 0 <= p < |s'.role|
      ensures Fits(s'.role[p], s'.w.procs[p])
    {
      if a.Proto? {
        ProtoFits(s, a.step, p);
      } else {
        CodeFits(s, a, p);
      }
    }
  }

  lemma SizeKept(s: System, a: Action)
    requires Can(s, a)
    ensures |Act(s, a).role| == |s.role| && |Act(s, a).w.procs| == |s.w.procs|
  {
  }

  /** A change of role that the shared fields do not show. */
  lemma SameHonest(role: seq<Role>, c: L.Control, p: nat, r: Role)
    requires Honest(role, c) && p < |role| && r.Counted() == role[p].Counted() && r.Commits() == role[p].Commits()
    ensures Honest(role[p := r], c)
  {
    hide Count;
    CountUpdate(role, p, r);
    var role' := role[p := r];
    if c.committing {
      var q :| 0 <= q < |role| && role[q].Commits();
      assert role'[q].Commits();
    }
  }

  lemma AdmitHonest(role: seq<Role>, c: L.Control, p: nat)
    requires Honest(role, c) && p < |role| && role[p].Beginning? && c.Admits()
    ensures Honest(role[p := Admitted], c.Begin())
  {
    hide Count;
    CountUpdate(role, p, Admitted);
  }

  lemma ListHonest(role: seq<Role>, c: L.Control, p: nat, b: Word)
    requires Honest(role, c) && p < |role| && role[p].Logging?
    ensures Honest(role[p := Logged], c.Append(b))
  {
    hide Count;
    CountSome(role, p);
    SameHonest(role, c, p, Logged);
  }

  lemma LeaveHonest(role: seq<Role>, c: L.Control, p: nat)
    requires Honest(role, c) && p < |role| && role[p].Ending? && c.outstanding >= 1
    ensures Honest(role[p := if c.End().committing then Closing else Left], c.End())
  {
    hide Count;
    CountUpdate(role, p, if c.End().committing then Closing else Left);
    var role' := role[p := if c.End().committing then Closing else Left];
    assert c.End().committing ==> role'[p].Commits();
  }

  lemma ReopenHonest(role: seq<Role>, c: L.Control, p: nat)
    requires Honest(role, c) && p < |role| && role[p].Reopening?
    ensures Honest(role[p := Reopened], c.Done())
  {
    hide Count;
    CountUpdate(role, p, Reopened);
    var role' := role[p := Reopened];
    forall q | 0 <= q < |role'|
      ensures !role'[q].Commits()
    {
      assert role[p].Commits();
    }
  }

  lemma ActHonest(s: System, a: Action)
    requires LogInv(s) && Can(s, a)
    ensures |Act(s, a).role| == |Act(s, a).w.procs| && Honest(Act(s, a).role, Act(s, a).w.data)
  {
    hide NoneLost, LockHeld, TableHeld, Fits, Honest, Count;
    var p := a.Pid();
    match a
    case Admit(_) => AdmitHonest(s.role, s.w.data, p);
    case List(_, b) => ListHonest(s.role, s.w.data, p, b);
    case Leave(_) => LeaveHonest(s.role, s.w.data, p);
    case Reopen(_) => ReopenHonest(s.role, s.w.data, p);
    case Proto(step) =>
      assert step.Release? ==> Fits(s.role[p], s.w.procs[p]);
      SameHonest(s.role, s.w.data, p, NextRole(s, a));
    case _ => SameHonest(s.role, s.w.data, p, NextRole(s, a));
  }

  lemma {:induction false} LogInvRun(s: System, acts: seq<Action>)
    requires LogInv(s) && Reach(s, acts)
    ensures LogInv(After(s, acts))
    decreases |acts|
  {
    if acts != [] {
      ActIsStep(s, acts[0]);
      ActFits(s, acts[0]);
      ActHonest(s, acts[0]);
      LogInvRun(Act(s, acts[0]), acts[1..]);
    }
  }

  lemma StartInv(n: nat)
    ensures LogInv(StartLog(n))
  {
    CountNone(StartLog(n).role);
  }

  /** Once the wakeups of end_op are done, nobody sleeps in begin_op although the log would
      admit it. */
  lemma NobodyPassedOver(n: nat, acts: seq<Action>, q: nat)
    requires Reach(StartLog(n), acts)
    requires var s := After(StartLog(n), acts);
             q < |s.w.procs| && s.w.procs[q].pc.Asleep? && s.w.data.Admits()
    ensures var s := After(StartLog(n), acts);
            exists p | 0 <= p < |s.role| :: s.role[p].Left? || s.role[p].Reopened?
  {
    hide Honest, LockHeld, TableHeld;
    StartInv(n);
    LogInvRun(StartLog(n), acts);
    var s := After(StartLog(n), acts);
    assert Fits(s.role[q], s.w.procs[q]);
    var p: nat :| Owing(s.w, p, q, CHAN);
    assert Fits(s.role[p], s.w.procs[p]);
  }

  /** The panic in end_op is unreachable, and while a process commits, none is inside an
      operation. */
  lemma CommitAlone(n: nat, acts: seq<Action>, q: nat)
    requires Reach(StartLog(n), acts) && q < |After(StartLog(n), acts).role|
    ensures var s := After(StartLog(n), acts);
            && (s.role[q].Ending? ==> s.w.data.outstanding >= 1 && !s.w.data.committing)
            && (s.role[q].Commits() ==> forall p | 0 <= p < |s.role| && p != q ::
                !s.role[p].Counted() && !s.role[p].Commits())
  {
    hide Inv, Fits;
    StartInv(n);
    LogInvRun(StartLog(n), acts);
    var s := After(StartLog(n), acts);
    if s.role[q].Ending? {
      CountSome(s.role, q);
    }
    if s.role[q].Commits() {
      forall p | 0 <= p < |s.role|
        ensures !s.role[p].Counted()
      {
        if s.role[p].Counted() {
          CountSome(s.role, p);
        }
      }
    }
  }

  /** begin_op cannot deadlock: a process sleeps there only while another is inside an
      operation, committing, or on its way in or out. */
  lemma NoDeadlock(n: nat, acts: seq<Action>)
    requires Reach(StartLog(n), acts)
    requires var s := After(StartLog(n), acts);
             |s.role| == |s.w.procs| && forall p | 0 <= p < |s.role| ::
               s.role[p].Idle? || (s.role[p].Beginning? && s.w.procs[p].pc.Asleep?)
    ensures forall p | 0 <= p < |After(StartLog(n), acts).role| :: After(StartLog(n), acts).role[p].Idle?
  {
    StartInv(n);
    LogInvRun(StartLog(n), acts);
    var s := After(StartLog(n), acts);
    CountNone(s.role);
    assert s.w.data.Admits();
    forall q | 0 <= q < |s.role|
      ensures s.role[q].Idle?
    {
      if s.w.procs[q].pc.Asleep? {
        NobodyPassedOver(n, acts, q);
      }
    }
  }
}
