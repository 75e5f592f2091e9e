/** Sleeping and waking in pipes (kernel/pipe.c): any number of readers, writers and closers
    of one pipe, as a client of sleep and wakeup. Killing processes is left out. */
module PipeSync {
  import opened Options
  import opened Disk
  import opened SleepWakeup
  import opened Pipe

  /** The fields of `struct pipe` that the conditions look at. */
  datatype Ends = Ends(nread: Word, nwrite: Word, readopen: bool, writeopen: bool) {
    predicate Full() {
      nwrite == (nread + PIPESIZE) % TWO32
    }

    predicate Empty() {
      nread == nwrite
    }

    function Filled(): (n: nat) {
      (nwrite + TWO32 - nread) % TWO32
    }
  }

  /** Channels: the addresses of `nread` and `nwrite`. */
  const NREAD := 0
  const NWRITE := 1

  const GO: (Ends, nat) -> bool :=
    (d: Ends, c: nat) => (c == NREAD && (!d.Empty() || !d.writeopen)) || (c == NWRITE && (!d.Full() || !d.readopen))

  datatype Role = Idle | Writing | Reading | Closing(writable: bool) | Shut(writable: bool)

  /** `rfd` and `wfd`: the file table still refers to that end. */
  datatype System = System(w: State<Ends>, role: seq<Role>, rfd: bool, wfd: bool)

  datatype Action =
    | CallWrite(p: nat)
    | CallRead(p: nat)
    | CallClose(p: nat, writable: bool)
    | Store(p: nat)
    | Load(p: nat)
    | ShutEnd(p: nat)
    | Proto(step: Step<Ends>)
  {
    function Pid(): (q: nat) {
      if Proto? then step.p else p
    }
  }

  function StartPipe(n: nat): (s: System) {
    System(Start(Ends(0, 0, true, true), n), seq(n, _ => Idle), true, true)
  }

  function WakesOn(role: Role): (c: nat) {
    if role.Writing? || (role.Shut? && role.writable) then NREAD else NWRITE
  }

  /** The steps that pipewrite, piperead and pipeclose contain. A writer that finds the ring
      full and no reader left returns -1 without waking anyone. */
  predicate InCode(role: Role, d: Ends, me: Proc, step: Step<Ends>) {
    match step
    case Acquire(_) => role.Writing? || role.Reading? || role.Closing?
    case Change(_, _, _) => false
    case Release(_) => !role.Closing? && (me.owes == {} || (role.Writing? && d.Full() && !d.readopen))
    case Sleep(_, c) => (role.Writing? && c == NWRITE) || (role.Reading? && c == NREAD)
    case Wakeup(_, c) => me.pc == InLock && (role.Writing? || role.Reading? || role.Shut?) && c == WakesOn(role)
    case _ => true
  }

  function Stored(d: Ends): (e: Ends) {
    d.(nwrite := (d.nwrite + 1) % TWO32)
  }

  function Loaded(d: Ends): (e: Ends) {
    d.(nread := (d.nread + 1) % TWO32)
  }

  function ClosedEnd(d: Ends, writable: bool): (e: Ends) {
    if writable then d.(writeopen := false) else d.(readopen := false)
  }

  /** The channel that closing an end wakes. */
  function Debt(writable: bool): (owed: set<nat>) {
    if writable then {NREAD} else {NWRITE}
  }

  ghost predicate Can(s: System, a: Action) {
    && a.Pid() < |s.role| == |s.w.procs|
    && match a
       case CallWrite(p) => s.role[p] == Idle && s.wfd
       case CallRead(p) => s.role[p] == Idle && s.rfd
       case CallClose(p, w) => s.role[p] == Idle && (if w then s.wfd else s.rfd)
                               && forall q | 0 <= q < |s.role| :: s.role[q] != if w then Writing else Reading
       case Store(p) => s.role[p] == Writing && s.w.procs[p].pc == InLock && !s.w.data.Full()
       case Load(p) => s.role[p] == Reading && s.w.procs[p].pc == InLock && !s.w.data.Empty()
       case ShutEnd(p) => s.role[p].Closing? && s.w.procs[p].pc == InLock
       case Proto(step) => InCode(s.role[step.p], s.w.data, s.w.procs[step.p], step) && Enabled(GO, s.w, step)
  }

  ghost function Act(s: System, a: Action): (s': System)
    requires Can(s, a)
  {
    match a
    case CallWrite(p) => s.(role := s.role[p := Writing])
    case CallRead(p) => s.(role := s.role[p := Reading])
    case CallClose(p, w) =>
      s.(role := s.role[p := Closing(w)], wfd := s.wfd && !w, rfd := s.rfd && w)
    case Store(p) => s.(w := Do(GO, s.w, Change(p, Stored(s.w.data), {NREAD})))
    case Load(p) => s.(w := Do(GO, s.w, Change(p, Loaded(s.w.data), {NWRITE})))
    case ShutEnd(p) =>
      s.(w := Do(GO, s.w, Change(p, ClosedEnd(s.w.data, s.role[p].writable), Debt(s.role[p].writable))),
         role := s.role[p := Shut(s.role[p].writable)])
    case Proto(step) =>
      s.(w := Do(GO, s.w, step), role := if step.Release? then s.role[step.p := Idle] else s.role)
  }

  ghost predicate Reach(s: System, acts: seq<Action>)
    decreases |acts|
  {
    acts == [] || (Can(s, acts[0]) && Reach(Act(s, acts[0]), acts[1..]))
  }

  ghost function After(s: System, acts: seq<Action>): (s': System)
    requires Reach(s, acts)
    decreases |acts|
  {
    if acts == [] then s else After(Act(s, acts[0]), acts[1..])
  }

  // ----- the invariant

  /** A debt is settled before the lock is released, except by a writer that found the ring
      full with no reader left: its debt is to readers only. */
  predicate Fits(role: Role, me: Proc, d: Ends) {
    && (forall c <- me.owes :: c == NREAD || c == NWRITE)
    && (Dormant(me.pc) ==> me.owes == {})
    && (NWRITE in me.owes ==> me.pc.HoldsLock())
    && (NREAD in me.owes && d.readopen ==> me.pc.HoldsLock())
    && (role.Idle? ==> me.pc == Out)
    && (role.Closing? ==> me.pc == Out || me.pc == InLock)
    && (role.Shut? ==> me.pc.HoldsLock() && !Dormant(me.pc))
    && (me.pc.WakeWant? ==> me.pc.held && me.pc.wake == WakesOn(role))
    && (me.pc.Waking? ==> me.pc.held && me.pc.wake == WakesOn(role))
    && (Dormant(me.pc) || me.pc.Ready? ==>
          (role.Writing? && me.pc.chan == NWRITE) || (role.Reading? && me.pc.chan == NREAD))
    && (role.Writing? && me.pc.HoldsLock() ==> NWRITE !in me.owes)
    && (role.Reading? && me.pc.HoldsLock() && d.readopen ==> NREAD !in me.owes)
  }

  /** An end whose flag is down has no file and no user. */
  ghost predicate EndsInUse(s: System) {
    && |s.role| == |s.w.procs|
    && (s.rfd ==> s.w.data.readopen) && (s.wfd ==> s.w.data.writeopen)
    && (forall p | 0 <= p < |s.role| :: s.role[p] == Reading ==> s.rfd)
    && (forall p | 0 <= p < |s.role| :: s.role[p] == Writing ==> s.wfd)
    && (forall p | 0 <= p < |s.role| :: s.role[p] == Closing(false) ==> !s.rfd && s.w.data.readopen)
    && (forall p | 0 <= p < |s.role| :: s.role[p] == Closing(true) ==> !s.wfd && s.w.data.writeopen)
    && (forall p, q | 0 <= p < q < |s.role| && s.role[p].Closing? :: s.role[p] != s.role[q])
    && s.w.data.Filled() <= PIPESIZE
  }

  ghost predicate PipeInv(s: System) {
    && Inv(GO, s.w)
    && EndsInUse(s)
    && (forall p | 0 <= p < |s.role| :: Fits(s.role[p], s.w.procs[p], s.w.data))
  }

  lemma CloseWakes(d: Ends, writable: bool)
    ensures forall c: nat | !GO(d, c) && GO(ClosedEnd(d, writable), c) :: c in Debt(writable)
  {
    if writable {
      assert ClosedEnd(d, writable).Full() == d.Full();
    } else {
      assert ClosedEnd(d, writable).Empty() == d.Empty();
    }
  }

  lemma ActIsStep(s: System, a: Action)
    requires PipeInv(s) && Can(s, a)
    ensures Inv(GO, Act(s, a).w)
  {
    match a
    case CallWrite(_) =>
    case CallRead(_) =>
    case CallClose(_, _) =>
    case Store(p) => InvStep(GO, s.w, Change(p, Stored(s.w.data), {NREAD}));
    case Load(p) => InvStep(GO, s.w, Change(p, Loaded(s.w.data), {NWRITE}));
    case ShutEnd(p) =>
      CloseWakes(s.w.data, s.role[p].writable);
      InvStep(GO, s.w, Change(p, ClosedEnd(s.w.data, s.role[p].writable), Debt(s.role[p].writable)));
    case Proto(step) => InvStep(GO, s.w, step);
  }

  lemma CountStep(d: Ends)
    requires d.Filled() <= PIPESIZE
    ensures !d.Full() ==> Stored(d).Filled() == d.Filled() + 1 <= PIPESIZE
    ensures !d.Empty() ==> Loaded(d).Filled() == d.Filled() - 1
    ensures d.Full() <==> d.Filled() == PIPESIZE
    ensures d.Empty() <==> d.Filled() == 0
  {
    if d.nwrite >= d.nread {
      assert d.Filled() == d.nwrite - d.nread;
    } else {
      assert d.Filled() == d.nwrite + TWO32 - d.nread;
    }
  }

  lemma ProtoEnds(s: System, step: Step<Ends>)
    requires EndsInUse(s) && Can(s, Proto(step))
    ensures EndsInUse(Act(s, Proto(step)))
  {
    assert Act(s, Proto(step)).w.data == s.w.data;
  }

  lemma ActEnds(s: System, a: Action)
    requires EndsInUse(s) && Can(s, a)
    ensures EndsInUse(Act(s, a))
  {
    hide Enabled;
    CountStep(s.w.data);
    if a.Proto? {
      ProtoEnds(s, a.step);
    }
  }

  lemma ProtoFits(s: System, step: Step<Ends>, p: nat)
    requires PipeInv(s) && Can(s, Proto(step)) && p < |s.role|
    ensures var s' := Act(s, Proto(step));
            |s'.w.procs| == |s.role| && Fits(s'.role[p], s'.w.procs[p], s'.w.data)
  {
    hide NoneLost, TableHeld, LockHeld;
    assert Fits(s.role[p], s.w.procs[p], s.w.data);
  }

  lemma UserFits(s: System, a: Action, p: nat)
    requires PipeInv(s) && Can(s, a) && !a.Proto? && p < |s.role|
    ensures var s' := Act(s, a);
            |s'.w.procs| == |s.role| && Fits(s'.role[p], s'.w.procs[p], s'.w.data)
  {
    hide NoneLost, TableHeld, LockHeld;
    assert Fits(s.role[p], s.w.procs[p], s.w.data);
  }

  lemma ActFits(s: System, a: Action)
    requires PipeInv(s) && Can(s, a)
    ensures var s' := Act(s, a);
            forall p | 0 <= p < |s'.role| == |s'.w.procs| :: Fits(s'.role[p], s'.w.procs[p], s'.w.data)
  {
    hide PipeInv, Fits, Do, Enabled, InCode;
    forall p | 0 <= p < |Act(s, a).role| == |Act(s, a).w.procs|
      ensures Fits(Act(s, a).role[p], Act(s, a).w.procs[p], Act(s, a).w.data)
    {
      if a.Proto? {
        ProtoFits(s, a.step, p);
      } else {
        UserFits(s, a, p);
      }
    }
  }

  lemma {:induction false} PipeInvRun(s: System, acts: seq<Action>)
    requires PipeInv(s) && Reach(s, acts)
    ensures PipeInv(After(s, acts))
    decreases |acts|
  {
    if acts != [] {
      ActIsStep(s, acts[0]);
      ActEnds(s, acts[0]);
      ActFits(s, acts[0]);
      PipeInvRun(Act(s, acts[0]), acts[1..]);
    }
  }

  /** Whenever the pipe's lock is free: a sleeping reader means the pipe is empty and its
      write end open, a sleeping writer means it is full and its read end open, so the two
      never sleep together; and the counters are never more than PIPESIZE apart. */
  lemma NobodyStuck(n: nat, acts: seq<Action>)
    requires Reach(StartPipe(n), acts) && After(StartPipe(n), acts).w.lock == None
    ensures var s := After(StartPipe(n), acts);
            && s.w.data.Filled() <= PIPESIZE
            && (forall q | 0 <= q < |s.w.procs| && s.w.procs[q].pc == Asleep(NREAD) ::
                s.w.data.Empty() && s.w.data.writeopen)
            && (forall q | 0 <= q < |s.w.procs| && s.w.procs[q].pc == Asleep(NWRITE) ::
                s.w.data.Full() && s.w.data.readopen)
            && !(exists q, r | 0 <= q < |s.w.procs| && 0 <= r < |s.w.procs| ::
                   s.w.procs[q].pc == Asleep(NREAD) && s.w.procs[r].pc == Asleep(NWRITE))
  {
    PipeInvRun(StartPipe(n), acts);
    var s := After(StartPipe(n), acts);
    CountStep(s.w.data);
    forall q | 0 <= q < |s.w.procs| && s.w.procs[q].pc.Asleep?
      ensures !GO(s.w.data, s.w.procs[q].pc.chan)
    {
      NoDebt(s, q);
    }
  }

  lemma NoDebt(s: System, q: nat)
    requires PipeInv(s) && s.w.lock == None && q < |s.w.procs| && s.w.procs[q].pc.Asleep?
    ensures forall p: nat :: !Owing(s.w, p, q, s.w.procs[q].pc.chan)
  {
    assert Fits(s.role[q], s.w.procs[q], s.w.data);
    forall p: nat
      ensures !Owing(s.w, p, q, s.w.procs[q].pc.chan)
    {
      assert p < |s.role| ==> Fits(s.role[p], s.w.procs[p], s.w.data);
    }
  }
}
