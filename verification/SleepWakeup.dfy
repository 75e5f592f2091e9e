/** sleep and wakeup (kernel/proc.c) as interleaved steps of any number of processes over
    one condition lock and the process-table lock. */
module SleepWakeup {
  import opened Options

  /** Where a process stands. `held` says whether it called wakeup with the condition lock
      held; `at` is the table slot that its wakeup1 loop looks at next. */
  datatype Pc =
    | Out                          // running without either lock
    | InLock                       // holding the condition lock
    | WantTable(chan: nat)         // in sleep, before acquire(&ptable.lock)
    | HasBoth(chan: nat)           // in sleep, before release(lk)
    | HasTable(chan: nat)          // in sleep, before setting chan and state
    | Dozing(chan: nat)            // SLEEPING, before the scheduler drops ptable.lock
    | Asleep(chan: nat)            // SLEEPING
    | Ready(chan: nat)             // RUNNABLE again
    | Resumed                      // running in sleep, still holding ptable.lock
    | WantLock                     // in sleep, before acquire(lk)
    | WakeWant(wake: nat, held: bool)            // in wakeup, before acquire(&ptable.lock)
    | Waking(wake: nat, held: bool, at: nat)     // in wakeup1
  {
    predicate HoldsLock() {
      InLock? || WantTable? || HasBoth? || (WakeWant? && held) || (Waking? && held)
    }

    predicate HoldsTable() {
      HasBoth? || HasTable? || Dozing? || Resumed? || Waking?
    }

    /** Past the point where the condition lock no longer protects its test. */
    predicate Committed() {
      HasTable? || Dozing? || Asleep?
    }
  }

  /** A process and the channels on which it still has to call wakeup. */
  datatype Proc = Proc(pc: Pc, owes: set<nat>)

  datatype State<D> = State(lock: Option<nat>, table: Option<nat>, data: D, procs: seq<Proc>)

  datatype Step<D> =
    | Acquire(p: nat)
    | Change(p: nat, data: D, owed: set<nat>)
    | Release(p: nat)
    | Sleep(p: nat, chan: nat)
    | SleepTable(p: nat)
    | SleepRelease(p: nat)
    | SleepMark(p: nat)
    | SleepSwitch(p: nat)
    | Schedule(p: nat)
    | SleepDone(p: nat)
    | SleepRelock(p: nat)
    | Wakeup(p: nat, chan: nat)
    | WakeTable(p: nat)
    | WakeNext(p: nat)
    | WakeDone(p: nat)

  function Start<D>(d: D, n: nat): (s: State<D>) {
    State(None, None, d, seq(n, _ => Proc(Out, {})))
  }

  /** `cond(d, c)` is what a process sleeping on channel `c` waits for. */
  ghost predicate Enabled<D(!new)>(cond: (D, nat) -> bool, s: State<D>, step: Step<D>) {
    step.p < |s.procs| &&
    var me := s.procs[step.p];
    match step
    case Acquire(_) => me.pc == Out && s.lock == None
    case Change(_, d, owed) => me.pc == InLock && forall c: nat | !cond(s.data, c) && cond(d, c) :: c in owed
    case Release(_) => me.pc == InLock
    case Sleep(_, c) => me.pc == InLock && !cond(s.data, c) && me.owes == {}
    case SleepTable(_) => me.pc.WantTable? && s.table == None
    case SleepRelease(_) => me.pc.HasBoth?
    case SleepMark(_) => me.pc.HasTable?
    case SleepSwitch(_) => me.pc.Dozing?
    case Schedule(_) => me.pc.Ready? && s.table == None
    case SleepDone(_) => me.pc.Resumed?
    case SleepRelock(_) => me.pc.WantLock? && s.lock == None
    case Wakeup(_, _) => me.pc == Out || me.pc == InLock
    case WakeTable(_) => me.pc.WakeWant? && s.table == None
    case WakeNext(_) => me.pc.Waking? && me.pc.at < |s.procs|
    case WakeDone(_) => me.pc.Waking? && me.pc.at == |s.procs|
  }

  function SetPc(procs: seq<Proc>, p: nat, pc: Pc): (r: seq<Proc>)
    requires p < |procs|
  {
    procs[p := procs[p].(pc := pc)]
  }

  function Do<D>(cond: (D, nat) -> bool, s: State<D>, step: Step<D>): (s': State<D>)
    requires step.p < |s.procs|
    requires step.SleepTable? ==> s.procs[step.p].pc.WantTable?
    requires step.SleepRelease? ==> s.procs[step.p].pc.HasBoth?
    requires step.SleepMark? ==> s.procs[step.p].pc.HasTable?
    requires step.SleepSwitch? ==> s.procs[step.p].pc.Dozing?
    requires step.WakeTable? ==> s.procs[step.p].pc.WakeWant?
    requires step.WakeNext? || step.WakeDone? ==> s.procs[step.p].pc.Waking?
    requires step.WakeNext? ==> s.procs[step.p].pc.at < |s.procs|
  {
    var p := step.p;
    var me := s.procs[p];
    match step
    case Acquire(_) => s.(lock := Some(p), procs := SetPc(s.procs, p, InLock))
    case Change(_, d, owed) => s.(data := d, procs := s.procs[p := me.(owes := me.owes + owed)])
    case Release(_) => s.(lock := None, procs := SetPc(s.procs, p, Out))
    case Sleep(_, c) => s.(procs := SetPc(s.procs, p, WantTable(c)))
    case SleepTable(_) => s.(table := Some(p), procs := SetPc(s.procs, p, HasBoth(me.pc.chan)))
    case SleepRelease(_) => s.(lock := None, procs := SetPc(s.procs, p, HasTable(me.pc.chan)))
    case SleepMark(_) => s.(procs := SetPc(s.procs, p, Dozing(me.pc.chan)))
    case SleepSwitch(_) => s.(table := None, procs := SetPc(s.procs, p, Asleep(me.pc.chan)))
    case Schedule(_) => s.(table := Some(p), procs := SetPc(s.procs, p, Resumed))
    case SleepDone(_) => s.(table := None, procs := SetPc(s.procs, p, WantLock))
    case SleepRelock(_) => s.(lock := Some(p), procs := SetPc(s.procs, p, InLock))
    case Wakeup(_, c) => s.(procs := SetPc(s.procs, p, WakeWant(c, me.pc == InLock)))
    case WakeTable(_) => s.(table := Some(p), procs := SetPc(s.procs, p, Waking(me.pc.wake, me.pc.held, 0)))
    case WakeNext(_) =>
      var q := me.pc.at;
      var woken := if s.procs[q].pc == Asleep(me.pc.wake) then SetPc(s.procs, q, Ready(me.pc.wake)) else s.procs;
      s.(procs := SetPc(woken, p, me.pc.(at := q + 1)))
    case WakeDone(_) =>
      s.(table := None, procs := s.procs[p := Proc(if me.pc.held then InLock else Out, me.owes - {me.pc.wake})])
  }

  ghost predicate Legal<D(!new)>(cond: (D, nat) -> bool, s: State<D>, steps: seq<Step<D>>)
    decreases |steps|
  {
    steps == [] || (Enabled(cond, s, steps[0]) && Legal(cond, Do(cond, s, steps[0]), steps[1..]))
  }

  ghost function Run<D(!new)>(cond: (D, nat) -> bool, s: State<D>, steps: seq<Step<D>>): (s': State<D>)
    requires Legal(cond, s, steps)
    decreases |steps|
  {
    if steps == [] then s else Run(cond, Do(cond, s, steps[0]), steps[1..])
  }

  // ----- the invariant

  /** Each lock is held by exactly the process whose program counter says so. */
  ghost predicate Locks<D>(s: State<D>) {
    LockHeld(s) && TableHeld(s)
  }

  ghost predicate LockHeld<D>(s: State<D>) {
    forall p | 0 <= p < |s.procs| :: s.procs[p].pc.HoldsLock() <==> s.lock == Some(p)
  }

  ghost predicate TableHeld<D>(s: State<D>) {
    forall p | 0 <= p < |s.procs| :: s.procs[p].pc.HoldsTable() <==> s.table == Some(p)
  }

  /** Process `p` will still call wakeup on `c` in such a way that it reaches slot `q`. */
  predicate Owing<D>(s: State<D>, p: nat, q: nat, c: nat) {
    && p < |s.procs| && c in s.procs[p].owes
    && (s.procs[p].pc.Waking? && s.procs[p].pc.wake == c ==> s.procs[p].pc.at <= q)
  }

  /** A process that has started to sleep tested its condition under the lock; whatever has
      made the condition true since then has a wakeup outstanding. */
  ghost predicate NoneLost<D>(cond: (D, nat) -> bool, s: State<D>) {
    && (forall q | 0 <= q < |s.procs| && (s.procs[q].pc.WantTable? || s.procs[q].pc.HasBoth?) ::
        !cond(s.data, s.procs[q].pc.chan))
    && (forall q | 0 <= q < |s.procs| && s.procs[q].pc.Committed() && cond(s.data, s.procs[q].pc.chan) ::
          exists p :: Owing(s, p, q, s.procs[q].pc.chan))
    && (forall q | 0 <= q < |s.procs| :: Dormant(s.procs[q].pc) ==> s.procs[q].owes == {})
  }

  /** Inside sleep up to the wakeup. */
  predicate Dormant(pc: Pc) {
    pc.WantTable? || pc.HasBoth? || pc.HasTable? || pc.Dozing? || pc.Asleep?
  }

  ghost predicate Inv<D>(cond: (D, nat) -> bool, s: State<D>) {
    Locks(s) && NoneLost(cond, s)
  }

  /** Steps of wakeup: at `WakeNext` the loop either passes a slot that is not asleep on the
      channel or wakes it; at `WakeDone` no sleeper on the channel is left behind. */
  lemma WakeStep<D(!new)>(cond: (D, nat) -> bool, s: State<D>, step: Step<D>)
    requires Inv(cond, s) && Enabled(cond, s, step) && (step.WakeNext? || step.WakeDone?)
    ensures NoneLost(cond, Do(cond, s, step))
  {
    var s' := Do(cond, s, step);
    var me := s.procs[step.p];
    forall q | 0 <= q < |s'.procs| && s'.procs[q].pc.Committed() && cond(s'.data, s'.procs[q].pc.chan)
      ensures exists p :: Owing(s', p, q, s'.procs[q].pc.chan)
    {
      assert s.procs[q].pc == s'.procs[q].pc;
      var p :| Owing(s, p, q, s.procs[q].pc.chan);
      assert !s.procs[q].pc.HoldsTable();
      assert Owing(s', p, q, s'.procs[q].pc.chan);
    }
  }

  lemma ChangeStep<D(!new)>(cond: (D, nat) -> bool, s: State<D>, step: Step<D>)
    requires Inv(cond, s) && Enabled(cond, s, step) && step.Change?
    ensures NoneLost(cond, Do(cond, s, step))
  {
    var s' := Do(cond, s, step);
    forall q | 0 <= q < |s'.procs| && s'.procs[q].pc.Committed() && cond(s'.data, s'.procs[q].pc.chan)
      ensures exists p :: Owing(s', p, q, s'.procs[q].pc.chan)
    {
      var c := s.procs[q].pc.chan;
      if cond(s.data, c) {
        var p :| Owing(s, p, q, c);
        assert Owing(s', p, q, c);
      } else {
        assert Owing(s', step.p, q, c);
      }
    }
  }

  lemma OtherStep<D(!new)>(cond: (D, nat) -> bool, s: State<D>, step: Step<D>)
    requires Inv(cond, s) && Enabled(cond, s, step) && !step.WakeNext? && !step.WakeDone? && !step.Change?
    ensures NoneLost(cond, Do(cond, s, step))
  {
    var s' := Do(cond, s, step);
    forall q | 0 <= q < |s'.procs| && s'.procs[q].pc.Committed() && cond(s'.data, s'.procs[q].pc.chan)
      ensures exists p :: Owing(s', p, q, s'.procs[q].pc.chan)
    {
      var c := s'.procs[q].pc.chan;
      assert s.procs[q].pc.Committed() && s.procs[q].pc.chan == c;
      var p :| Owing(s, p, q, c);
      assert Owing(s', p, q, c);
    }
  }

  lemma LockStep<D(!new)>(cond: (D, nat) -> bool, s: State<D>, step: Step<D>)
    requires LockHeld(s) && Enabled(cond, s, step)
    ensures LockHeld(Do(cond, s, step))
  {
  }

  lemma TableStep<D(!new)>(cond: (D, nat) -> bool, s: State<D>, step: Step<D>)
    requires TableHeld(s) && Enabled(cond, s, step)
    ensures TableHeld(Do(cond, s, step))
  {
  }

  lemma InvStep<D(!new)>(cond: (D, nat) -> bool, s: State<D>, step: Step<D>)
    requires Inv(cond, s) && Enabled(cond, s, step)
    ensures Inv(cond, Do(cond, s, step))
  {
    hide NoneLost, LockHeld, TableHeld, Enabled, Do;
    LockStep(cond, s, step);
    TableStep(cond, s, step);
    if step.WakeNext? || step.WakeDone? {
      WakeStep(cond, s, step);
    } else if step.Change? {
      ChangeStep(cond, s, step);
    } else {
      OtherStep(cond, s, step);
    }
  }

  lemma {:induction false} InvRun<D(!new)>(cond: (D, nat) -> bool, s: State<D>, steps: seq<Step<D>>)
    requires Inv(cond, s) && Legal(cond, s, steps)
    ensures Inv(cond, Run(cond, s, steps))
    decreases |steps|
  {
    if steps != [] {
      InvStep(cond, s, steps[0]);
      InvRun(cond, Do(cond, s, steps[0]), steps[1..]);
    }
  }

  /** No lost wakeup: in every interleaving of any number of processes, if a process is
      asleep on a channel whose condition holds, then another process that is not asleep
      still owes the wakeup and has not passed it. */
  lemma NoLostWakeup<D(!new)>(cond: (D, nat) -> bool, d: D, n: nat, steps: seq<Step<D>>, q: nat)
    requires Legal(cond, Start(d, n), steps)
    requires var s := Run(cond, Start(d, n), steps);
             q < |s.procs| && s.procs[q].pc.Asleep? && cond(s.data, s.procs[q].pc.chan)
    ensures var s := Run(cond, Start(d, n), steps);
            exists p: nat | p < |s.procs| :: Owing(s, p, q, s.procs[q].pc.chan) && p != q && !s.procs[p].pc.Asleep?
  {
    InvRun(cond, Start(d, n), steps);
    var s := Run(cond, Start(d, n), steps);
    var p: nat :| Owing(s, p, q, s.procs[q].pc.chan);
    assert s.procs[p].owes != {};
  }
}
