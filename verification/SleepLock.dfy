/** Sleep-locks (kernel/sleeplock.c) as a client of sleep and wakeup: acquiresleep and
    releasesleep of any number of processes, in every interleaving. */
module SleepLock {
  import opened SleepWakeup

  /** The lock's fields; process `p` has pid `p + 1`. */
  datatype Lock = Lock(locked: bool, pid: nat)

  const CHAN := 0

  /** The condition of acquiresleep's loop. */
  const FREE: (Lock, nat) -> bool := (d: Lock, c: nat) => c == CHAN && !d.locked

  /** What a process is doing with the lock: inside acquiresleep, having set `locked` but
      not left acquiresleep, owning the lock, inside releasesleep before clearing `locked`,
      inside releasesleep after that. */
  datatype Role = Idle | Acquiring | Taken | Holding | Releasing | Dropped {
    predicate Owner() {
      Taken? || Holding? || Releasing?
    }
  }

  datatype System = System(w: State<Lock>, role: seq<Role>)

  datatype Action =
    | CallAcquire(p: nat)
    | CallRelease(p: nat)
    | Take(p: nat)
    | Drop(p: nat)
    | Proto(step: Step<Lock>)
  {
    function Pid(): (q: nat) {
      if Proto? then step.p else p
    }
  }

  function StartLock(n: nat): (s: System) {
    System(Start(Lock(false, 0), n), seq(n, _ => Idle))
  }

  /** Which steps of sleep and wakeup the code of each role contains. */
  predicate InCode(role: Role, me: Proc, step: Step<Lock>) {
    match step
    case Acquire(_) => role.Acquiring? || role.Releasing?
    case Change(_, _, _) => false
    case Release(_) => role.Taken? || (role.Dropped? && me.owes == {})
    case Sleep(_, c) => role.Acquiring? && c == CHAN
    case Wakeup(_, c) => role.Dropped? && me.owes != {} && me.pc == InLock && c == CHAN
    case _ => true
  }

  ghost predicate Can(s: System, a: Action) {
    && a.Pid() < |s.role| == |s.w.procs|
    && match a
       case CallAcquire(p) => s.role[p] == Idle
       case CallRelease(p) => s.role[p] == Holding
       case Take(p) => s.role[p] == Acquiring && s.w.procs[p].pc == InLock && !s.w.data.locked
       case Drop(p) => s.role[p] == Releasing && s.w.procs[p].pc == InLock
       case Proto(step) => InCode(s.role[step.p], s.w.procs[step.p], step) && Enabled(FREE, s.w, step)
  }

  ghost function Act(s: System, a: Action): (s': System)
    requires Can(s, a)
  {
    match a
    case CallAcquire(p) => s.(role := s.role[p := Acquiring])
    case CallRelease(p) => s.(role := s.role[p := Releasing])
    case Take(p) => System(Do(FREE, s.w, Change(p, Lock(true, p + 1), {})), s.role[p := Taken])
    case Drop(p) => System(Do(FREE, s.w, Change(p, Lock(false, 0), {CHAN})), s.role[p := Dropped])
    case Proto(step) =>
      System(Do(FREE, s.w, step),
             if step.Release? then s.role[step.p := if s.role[step.p].Taken? then Holding else Idle] else s.role)
  }

  ghost predicate Reach(s: System, acts: seq<Action>)
    decreases |acts|
  {
    acts == [] || (Can(s, acts[0]) && Reach(Act(s, acts[0]), acts[1..]))
  }

  ghost function After(s: System, acts: seq<Action>): (s': System)
    requires Reach(s, acts)
    decreases |acts|
  {
    if acts == [] then s else After(Act(s, acts[0]), acts[1..])
  }

  /** The role of a process fixes where it can be and what it can owe. */
  predicate Fits(role: Role, me: Proc) {
    && (me.owes == {} || (role.Dropped? && me.owes == {CHAN}))
    && match role
       case Idle => me.pc == Out
       case Holding => me.pc == Out
       case Taken => me.pc == InLock
       case Releasing => me.pc == Out || me.pc == InLock
       case Dropped => me.pc == InLock || (me.pc.WakeWant? && me.pc.held && me.pc.wake == CHAN) ||
         (me.pc.Waking? && me.pc.held && me.pc.wake == CHAN)
       case Acquiring => !me.pc.WakeWant? && !me.pc.Waking? && (Dormant(me.pc) || me.pc.Ready? ==> me.pc.chan == CHAN)
  }

  /** The fields of the lock name its owner. */
  ghost predicate Named(s: System) {
    && |s.role| == |s.w.procs|
    && (s.w.data.locked ==> 0 < s.w.data.pid <= |s.role| && s.role[s.w.data.pid - 1].Owner())
    && (forall p | 0 <= p < |s.role| && s.role[p].Owner() :: s.w.data == Lock(true, p + 1))
  }

  ghost predicate LockInv(s: System) {
    && Inv(FREE, s.w)
    && Named(s)
    && (forall p | 0 <= p < |s.role| :: Fits(s.role[p], s.w.procs[p]))
  }

  /** Each action is a step of the sleep and wakeup protocol, or changes no shared state. */
  lemma ActIsStep(s: System, a: Action)
    requires LockInv(s) && Can(s, a)
    ensures Inv(FREE, Act(s, a).w)
  {
    match a
    case CallAcquire(_) =>
    case CallRelease(_) =>
    case Take(p) => InvStep(FREE, s.w, Change(p, Lock(true, p + 1), {}));
    case Drop(p) => InvStep(FREE, s.w, Change(p, Lock(false, 0), {CHAN}));
    case Proto(step) => InvStep(FREE, s.w, step);
  }

  lemma ActFits(s: System, a: Action)
    requires LockInv(s) && Can(s, a)
    ensures var s' := Act(s, a);
            |s'.role| == |s'.w.procs| && forall p | 0 <= p < |s'.role| :: Fits(s'.role[p], s'.w.procs[p])
  {
    hide NoneLost, LockHeld, TableHeld, Named;
  }

  lemma ActNamed(s: System, a: Action)
    requires LockInv(s) && Can(s, a)
    ensures Named(Act(s, a))
  {
    hide NoneLost, LockHeld, TableHeld;
  }

  lemma {:induction false} LockInvRun(s: System, acts: seq<Action>)
    requires LockInv(s) && Reach(s, acts)
    ensures LockInv(After(s, acts))
    decreases |acts|
  {
    if acts != [] {
      ActIsStep(s, acts[0]);
      ActFits(s, acts[0]);
      ActNamed(s, acts[0]);
      LockInvRun(Act(s, acts[0]), acts[1..]);
    }
  }

  /** Mutual exclusion, and holdingsleep's test is right: whatever the interleaving, a
      process owns the lock exactly if `locked` is set and `pid` is its own. */
  lemma OneHolder(n: nat, acts: seq<Action>, p: nat)
    requires Reach(StartLock(n), acts)
    ensures var s := After(StartLock(n), acts);
            && |s.role| == n
            && (p < n ==> (s.role[p].Owner() <==> s.w.data.locked && s.w.data.pid == p + 1))
  {
    LockInvRun(StartLock(n), acts);
    SizeKept(StartLock(n), acts);
  }

  /** Once every releasesleep that cleared the lock has finished, nobody sleeps on a free
      lock. */
  lemma NoSleeperOnFree(n: nat, acts: seq<Action>, q: nat)
    requires Reach(StartLock(n), acts)
    requires var s := After(StartLock(n), acts);
             q < |s.w.procs| && !s.w.data.locked && forall p | 0 <= p < |s.role| :: s.role[p] != Dropped
    ensures !After(StartLock(n), acts).w.procs[q].pc.Asleep?
  {
    LockInvRun(StartLock(n), acts);
    var s := After(StartLock(n), acts);
    assert Fits(s.role[q], s.w.procs[q]);
    forall p: nat, c: nat
      ensures !Owing(s.w, p, q, c)
    {
      assert p < |s.role| ==> Fits(s.role[p], s.w.procs[p]);
    }
  }

  lemma {:induction false} SizeKept(s: System, acts: seq<Action>)
    requires Reach(s, acts)
    ensures |After(s, acts).role| == |s.role|
    decreases |acts|
  {
    if acts != [] {
      SizeKept(Act(s, acts[0]), acts[1..]);
    }
  }
}
