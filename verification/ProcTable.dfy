/** The process table (kernel/proc.c). Each method is one stay in ptable.lock (or a store to
    a slot that only its creator can reach), so the invariant holds whenever the lock is
    free, whatever the processors interleave. */
module ProcTable {
  import opened Options

  const NPROC := 64

  datatype ProcState = UNUSED | EMBRYO | SLEEPING | RUNNABLE | RUNNING | ZOMBIE

  /** A process sleeps in wait on the address of its own slot; every other channel is
      some other address. */
  datatype Chan = Nowhere | Slot(p: nat) | Elsewhere(addr: nat)

  datatype Proc = Proc(state: ProcState, pid: nat, parent: Option<nat>, chan: Chan) {
    predicate Live() {
      state == SLEEPING || state == RUNNABLE || state == RUNNING
    }
  }

  // ----- what the loops compute

  predicate Sleeper(x: Proc, chan: Chan) {
    x.state == SLEEPING && x.chan == chan
  }

  function Wake(x: Proc, chan: Chan): (y: Proc) {
    if Sleeper(x, chan) then x.(state := RUNNABLE) else x
  }

  /** wakeup1. */
  function Woken(procs: seq<Proc>, chan: Chan): (r: seq<Proc>) {
    seq(|procs|, i requires 0 <= i < |procs| => Wake(procs[i], chan))
  }

  function Adopt(x: Proc, cur: nat, init: nat): (y: Proc) {
    if x.parent == Some(cur) then x.(parent := Some(init)) else x
  }

  /** The children of `cur` among the first `k` slots now belong to `init`. */
  function Adopted(procs: seq<Proc>, cur: nat, init: nat, k: nat): (r: seq<Proc>)
    requires k <= |procs|
  {
    seq(|procs|, i requires 0 <= i < |procs| => if i < k then Adopt(procs[i], cur, init) else procs[i])
  }

  predicate ZombieChild(procs: seq<Proc>, cur: nat, k: nat)
    requires k <= |procs|
  {
    exists i | 0 <= i < k :: procs[i].parent == Some(cur) && procs[i].state == ZOMBIE
  }

  /** The table when exit calls sched. */
  function Exited(procs: seq<Proc>, cur: nat, init: nat): (r: seq<Proc>)
    requires cur < |procs|
  {
    var up := if procs[cur].parent.Some? then Woken(procs, Slot(procs[cur].parent.value)) else procs;
    var down := if ZombieChild(procs, cur, |procs|) then Woken(up, Slot(init)) else up;
    var all := Adopted(down, cur, init, |procs|);
    all[cur := all[cur].(state := ZOMBIE)]
  }

  /** The channels that exit wakes: its parent's, and init's if init inherits a zombie. */
  ghost predicate Alerted(procs: seq<Proc>, cur: nat, init: nat, chan: Chan)
    requires cur < |procs|
  {
    || (procs[cur].parent.Some? && chan == Slot(procs[cur].parent.value))
    || (chan == Slot(init) && exists q | 0 <= q < |procs| :: procs[q].parent == Some(cur) && procs[q].state == ZOMBIE)
  }

  /** What exit does to each slot. */
  lemma ExitedAt(procs: seq<Proc>, cur: nat, init: nat, p: nat)
    requires cur < |procs| && p < |procs| && procs[cur].parent.Some? && procs[cur].parent != Some(cur)
    requires procs[cur].state != SLEEPING
    ensures |Exited(procs, cur, init)| == |procs|
    ensures var x, y := procs[p], Exited(procs, cur, init)[p];
            if p == cur then y == x.(state := ZOMBIE)
            else
              && y.pid == x.pid && y.chan == x.chan
              && y.parent == (if x.parent == Some(cur) then Some(init) else x.parent)
              && y.state == if x.state == SLEEPING && Alerted(procs, cur, init, x.chan) then RUNNABLE else x.state
  {
  }

  // ----- the invariant

  /** No parent pointer names a slot that is free, unborn or dead; everyone but init has a
      parent, and it is init or was created earlier. */
  ghost predicate Family(procs: seq<Proc>, init: nat) {
    && init < |procs| && procs[init].Live() && procs[init].parent == None
    && (forall p | 0 <= p < |procs| && procs[p].parent.Some? ::
          procs[p].parent.value < |procs| && procs[procs[p].parent.value].Live()
          && (procs[p].parent.value == init || procs[procs[p].parent.value].pid < procs[p].pid))
    && (forall p | 0 <= p < |procs| && procs[p].state == UNUSED :: procs[p].parent == None)
    && (forall p | 0 <= p < |procs| && p != init && (procs[p].Live() || procs[p].state == ZOMBIE) ::
        procs[p].parent.Some?)
  }

  /** Nobody sleeps in wait while having a zombie child. */
  ghost predicate Waiters(procs: seq<Proc>) {
    && (forall q | 0 <= q < |procs| && procs[q].state == ZOMBIE && procs[q].parent.Some? ::
          procs[q].parent.value < |procs| && !InWait(procs, procs[q].parent.value))
    && (forall p | 0 <= p < |procs| && procs[p].state == SLEEPING && procs[p].chan.Slot? :: procs[p].chan.p == p)
  }

  predicate InWait(procs: seq<Proc>, p: nat)
    requires p < |procs|
  {
    Sleeper(procs[p], Slot(p))
  }

  /** Slots in use have different pids, all handed out already. */
  ghost predicate Pids(procs: seq<Proc>, nextpid: nat) {
    && (forall p | 0 <= p < |procs| && procs[p].state != UNUSED :: 0 < procs[p].pid < nextpid)
    && (forall p, q | 0 <= p < q < |procs| && procs[p].state != UNUSED && procs[q].state != UNUSED ::
        procs[p].pid != procs[q].pid)
  }

  /** RUNNING processes and busy processors correspond one to one. */
  ghost predicate Processors(procs: seq<Proc>, cpus: seq<Option<nat>>) {
    && (forall c | 0 <= c < |cpus| && cpus[c].Some? :: cpus[c].value < |procs| && procs[cpus[c].value].state == RUNNING)
    && (forall c, d | 0 <= c < d < |cpus| && cpus[c].Some? :: cpus[c] != cpus[d])
    && (forall p | 0 <= p < |procs| && procs[p].state == RUNNING :: Some(p) in cpus)
  }

  /** Every exit is answered by exactly one successful wait, or its zombie is still there. */
  ghost predicate Accounts(procs: seq<Proc>, exited: set<nat>, reaped: seq<nat>) {
    && (forall i, j | 0 <= i < j < |reaped| :: reaped[i] != reaped[j])
    && (forall i | 0 <= i < |reaped| :: reaped[i] in exited)
    && (forall p | 0 <= p < |procs| && procs[p].state == ZOMBIE :: procs[p].pid in exited && procs[p].pid !in reaped)
    && (forall x <- exited :: x in reaped || IsZombie(procs, x))
    && (forall p | 0 <= p < |procs| && (procs[p].Live() || procs[p].state == EMBRYO) :: procs[p].pid !in exited)
  }

  predicate IsZombie(procs: seq<Proc>, pid: nat) {
    exists p | 0 <= p < |procs| :: procs[p].state == ZOMBIE && procs[p].pid == pid
  }

  datatype WaitResult = Reaped(pid: nat) | NoChildren | Waits

  class ProcTable {
    const init: nat
    var procs: seq<Proc>
    var cpus: seq<Option<nat>>
    var nextpid: nat
    /** The pids of all processes that have exited, and what successful waits returned. */
    ghost var exited: set<nat>
    ghost var reaped: seq<nat>

    ghost predicate Valid()
      reads this
    {
      |procs| == NPROC && nextpid > 0 && Table(procs, cpus, init, nextpid, exited, reaped)
    }

    ghost predicate Runs(c: nat, p: nat)
      reads this
    {
      c < |cpus| && cpus[c] == Some(p)
    }

    /** The machine after userinit: one runnable process. */
    constructor (ncpu: nat)
      ensures Valid() && init == 0 && exited == {} && reaped == [] && nextpid == 2
      ensures procs[0].state == RUNNABLE && procs[0].pid == 1
      ensures forall p | 0 < p < NPROC :: procs[p].state == UNUSED
      ensures |cpus| == ncpu && forall c | 0 <= c < ncpu :: cpus[c] == None
    {
      init, nextpid := 0, 2;
      procs := seq(NPROC, i => if i == 0 then Proc(RUNNABLE, 1, None, Nowhere) else Proc(UNUSED, 0, None, Nowhere));
      cpus := seq(ncpu, _ => None);
      exited, reaped := {}, [];
    }

    /** allocproc: claim the first unused slot. */
    method AllocProc() returns (r: Option<nat>)
      requires Valid()
      modifies this`procs, this`nextpid
      ensures Valid()
      ensures r.None? <==> forall p | 0 <= p < NPROC :: old(procs)[p].state != UNUSED
      ensures r.None? ==> procs == old(procs) && nextpid == old(nextpid)
      ensures r.Some? ==>
        && r.value < NPROC && old(procs)[r.value].state == UNUSED && nextpid == old(nextpid) + 1
        && (forall p | 0 <= p < r.value :: old(procs)[p].state != UNUSED)
        && procs == old(procs)[r.value := old(procs)[r.value].(state := EMBRYO, pid := old(nextpid))]
    {
      hide Family, Waiters, Pids, Processors, Accounts;
      var p := 0;
      while p < NPROC && procs[p].state != UNUSED
        invariant 0 <= p <= NPROC && forall q | 0 <= q < p :: procs[q].state != UNUSED
      {
        p := p + 1;
      }
      if p == NPROC {
        return None;
      }
      EmbryoKeeps(procs, cpus, init, nextpid, exited, reaped, p);
      procs := procs[p := procs[p].(state := EMBRYO, pid := nextpid)];
      nextpid := nextpid + 1;
      r := Some(p);
    }

    /** The failure paths of allocproc and fork give the slot back. */
    method Abandon(np: nat)
      requires Valid() && np < NPROC && procs[np].state == EMBRYO && procs[np].parent == None
      modifies this`procs
      ensures Valid() && procs == old(procs)[np := old(procs)[np].(state := UNUSED)]
    {
      hide Family, Waiters, Pids, Processors, Accounts;
      AbandonKeeps(procs, cpus, init, nextpid, exited, reaped, np);
      procs := procs[np := procs[np].(state := UNUSED)];
    }

    /** fork, once memory and files are copied: make the child a runnable child of the
        current process. */
    method ForkDone(c: nat, cur: nat, np: nat)
      requires Valid() && Runs(c, cur) && np < NPROC && procs[np].state == EMBRYO && procs[np].parent == None
      requires procs[cur].pid < procs[np].pid
      modifies this`procs
      ensures Valid() && procs == old(procs)[np := old(procs)[np].(parent := Some(cur), state := RUNNABLE)]
    {
      hide Family, Waiters, Pids, Processors, Accounts;
      RunningFacts(procs, cpus, init, c, cur);
      ForkKeeps(procs, cpus, init, nextpid, exited, reaped, cur, np);
      procs := procs[np := procs[np].(parent := Some(cur), state := RUNNABLE)];
    }

    /** wakeup1: a process becomes runnable exactly if it sleeps on this channel. */
    method Wakeup1(chan: Chan)
      requires |procs| == NPROC
      modifies this`procs
      ensures procs == Woken(old(procs), chan)
      ensures forall p | 0 <= p < NPROC ::
                && procs[p].pid == old(procs)[p].pid && procs[p].parent == old(procs)[p].parent
                && procs[p].chan == old(procs)[p].chan
                && procs[p].state == if old(procs)[p].state == SLEEPING && old(procs)[p].chan == chan then RUNNABLE
                   else old(procs)[p].state
    {
      for p := 0 to NPROC
        invariant |procs| == NPROC
        invariant procs[..p] == Woken(old(procs), chan)[..p] && procs[p..] == old(procs)[p..]
      {
        assert procs[p] == old(procs)[p];
        if procs[p].state == SLEEPING && procs[p].chan == chan {
          procs := procs[p := procs[p].(state := RUNNABLE)];
        }
      }
    }

    /** wakeup for anything but wait. */
    method Wakeup(chan: Chan)
      requires Valid()
      modifies this`procs
      ensures Valid() && procs == Woken(old(procs), chan)
      ensures forall p | 0 <= p < NPROC ::
                && procs[p].pid == old(procs)[p].pid && procs[p].parent == old(procs)[p].parent
                && procs[p].chan == old(procs)[p].chan
                && procs[p].state == if old(procs)[p].state == SLEEPING && old(procs)[p].chan == chan then RUNNABLE
                   else old(procs)[p].state
    {
      hide Family, Waiters, Pids, Processors, Accounts;
      WokenKeeps(procs, cpus, init, nextpid, exited, reaped, chan);
      Wakeup1(chan);
    }

    /** exit from the acquisition of ptable.lock; false is the panic "init exiting". */
    method Exit(c: nat, cur: nat) returns (ok: bool)
      requires Valid() && Runs(c, cur)
      modifies this`procs, this`cpus, this`exited
      ensures Valid()
      ensures ok == (cur != init)
      ensures ok ==>
        && procs == Exited(old(procs), cur, init) && cpus == old(cpus)[c := None]
        && exited == old(exited) + {old(procs)[cur].pid}
      ensures !ok ==> procs == old(procs) && cpus == old(cpus) && exited == old(exited)
      // slot by slot: the children are init's, and who may wait for a zombie is awake
      ensures ok ==>
        && procs[cur] == old(procs)[cur].(state := ZOMBIE) && old(procs)[cur].parent.Some?
        && forall p | 0 <= p < NPROC && p != cur ::
             && procs[p].pid == old(procs)[p].pid && procs[p].chan == old(procs)[p].chan
             && procs[p].parent == (if old(procs)[p].parent == Some(cur) then Some(init) else old(procs)[p].parent)
             && procs[p].state == if old(procs)[p].state == SLEEPING &&
               Alerted(old(procs), cur, init, old(procs)[p].chan)
                then RUNNABLE else old(procs)[p].state
    {
      hide Family, Waiters, Pids, Processors, Accounts;
      RunningFacts(procs, cpus, init, c, cur);
      if cur == init {
        return false;
      }
      ExitKeeps(procs, cpus, init, nextpid, exited, reaped, c, cur);
      ghost var before := procs;
      forall p: nat | p < NPROC {
        ExitedAt(before, cur, init, p);
      }
      Wakeup1(Slot(procs[cur].parent.value));
      AdoptChildren(cur, before);
      procs := procs[cur := procs[cur].(state := ZOMBIE)];
      cpus := cpus[c := None];
      exited := exited + {before[cur].pid};
      ok := true;
    }

    /** exit's loop over the table. */
    method AdoptChildren(cur: nat, ghost before: seq<Proc>)
      requires |procs| == NPROC == |before| && cur < NPROC && before[cur].parent.Some?
      requires procs == Woken(before, Slot(before[cur].parent.value))
      modifies this`procs
      ensures var up := Woken(before, Slot(before[cur].parent.value));
              procs == Adopted(if ZombieChild(before, cur, NPROC) then Woken(up, Slot(init)) else up, cur, init, NPROC)
    {
      ghost var up := procs;
      for p := 0 to NPROC
        invariant |procs| == NPROC
        invariant procs == Adopted(if ZombieChild(before, cur, p) then Woken(up, Slot(init)) else up, cur, init, p)
      {
        AdoptStep(before, up, procs, cur, init, p);
        if procs[p].parent == Some(cur) {
          procs := procs[p := procs[p].(parent := Some(init))];
          if procs[p].state == ZOMBIE {
            Wakeup1(Slot(init));
          }
        }
      }
    }

    /** One pass of wait's outer loop. */
    method Wait(c: nat, cur: nat) returns (r: WaitResult)
      requires Valid() && Runs(c, cur)
      modifies this`procs, this`cpus, this`reaped
      ensures Valid()
      ensures r.Reaped? ==>
        && reaped == old(reaped) + [r.pid] && cpus == old(cpus)
        && exists p | 0 <= p < NPROC ::
             && old(procs)[p].parent == Some(cur) && old(procs)[p].state == ZOMBIE && old(procs)[p].pid == r.pid
             && (forall q | 0 <= q < p && old(procs)[q].parent == Some(cur) :: old(procs)[q].state != ZOMBIE)
             && procs == old(procs)[p := Proc(UNUSED, 0, None, old(procs)[p].chan)]
      ensures !r.Reaped? ==> reaped == old(reaped)
      ensures !r.Reaped? ==>
        forall p | 0 <= p < NPROC :: old(procs)[p].parent == Some(cur) ==> old(procs)[p].state != ZOMBIE
      ensures r.NoChildren? <==> forall p | 0 <= p < NPROC :: old(procs)[p].parent != Some(cur)
      ensures r.NoChildren? ==> procs == old(procs) && cpus == old(cpus)
      ensures r.Waits? ==>
        && procs == old(procs)[cur := old(procs)[cur].(state := SLEEPING, chan := Slot(cur))]
        && cpus == old(cpus)[c := None]
    {
      hide Family, Waiters, Pids, Processors, Accounts;
      RunningFacts(procs, cpus, init, c, cur);
      var havekids := false;
      for p := 0 to NPROC
        invariant procs == old(procs) && reaped == old(reaped) && cpus == old(cpus)
        invariant forall q | 0 <= q < p && procs[q].parent == Some(cur) :: procs[q].state != ZOMBIE
        invariant havekids <==> exists q | 0 <= q < p :: procs[q].parent == Some(cur)
      {
        if procs[p].parent == Some(cur) {
          havekids := true;
          if procs[p].state == ZOMBIE {
            ReapKeeps(procs, cpus, init, nextpid, exited, reaped, p);
            r := Reaped(procs[p].pid);
            reaped := reaped + [procs[p].pid];
            procs := procs[p := Proc(UNUSED, 0, None, procs[p].chan)];
            return;
          }
        }
      }
      if !havekids {
        return NoChildren;
      }
      LeaveKeeps(procs, cpus, init, nextpid, exited, reaped, c, cur, procs[cur].(state := SLEEPING, chan := Slot(cur)));
      procs := procs[cur := procs[cur].(state := SLEEPING, chan := Slot(cur))];
      cpus := cpus[c := None];
      r := Waits;
    }

    /** The scheduler of an idle processor switches to a runnable process. */
    method Switch(c: nat, p: nat)
      requires Valid() && c < |cpus| && cpus[c] == None && p < NPROC && procs[p].state == RUNNABLE
      modifies this`procs, this`cpus
      ensures Valid() && procs == old(procs)[p := old(procs)[p].(state := RUNNING)] && cpus == old(cpus)[c := Some(p)]
    {
      hide Family, Waiters, Pids, Processors, Accounts;
      SwitchKeeps(procs, cpus, init, nextpid, exited, reaped, c, p);
      cpus := cpus[c := Some(p)];
      procs := procs[p := procs[p].(state := RUNNING)];
    }

    method Yield(c: nat, cur: nat)
      requires Valid() && Runs(c, cur)
      modifies this`procs, this`cpus
      ensures Valid() && procs == old(procs)[cur := old(procs)[cur].(state := RUNNABLE)] && cpus == old(cpus)[c := None]
    {
      hide Family, Waiters, Pids, Processors, Accounts;
      RunningFacts(procs, cpus, init, c, cur);
      LeaveKeeps(procs, cpus, init, nextpid, exited, reaped, c, cur, procs[cur].(state := RUNNABLE));
      procs := procs[cur := procs[cur].(state := RUNNABLE)];
      cpus := cpus[c := None];
    }

    /** sleep on anything but one's own slot. */
    method Sleep(c: nat, cur: nat, chan: Chan)
      requires Valid() && Runs(c, cur) && chan.Elsewhere?
      modifies this`procs, this`cpus
      ensures Valid() && procs == old(procs)[cur := old(procs)[cur].(state := SLEEPING, chan := chan)] &&
              cpus == old(cpus)[c := None]
    {
      hide Family, Waiters, Pids, Processors, Accounts;
      RunningFacts(procs, cpus, init, c, cur);
      LeaveKeeps(procs, cpus, init, nextpid, exited, reaped, c, cur, procs[cur].(state := SLEEPING, chan := chan));
      procs := procs[cur := procs[cur].(state := SLEEPING, chan := chan)];
      cpus := cpus[c := None];
    }
  }

  // ----- what the invariant gives

  /** Following parent pointers from `p` reaches init in `k` steps. */
  ghost predicate Descends(procs: seq<Proc>, init: nat, p: nat, k: nat)
    decreases k
  {
    p < |procs| &&
    if k == 0 then p == init else procs[p].parent.Some? && Descends(procs, init, procs[p].parent.value, k - 1)
  }

  /** The processes form a tree rooted at init: nobody is orphaned, whatever has exited. */
  lemma {:induction false} EveryoneDescends(procs: seq<Proc>, init: nat, p: nat) returns (k: nat)
    requires Family(procs, init) && p < |procs| && (procs[p].Live() || procs[p].state == ZOMBIE)
    ensures Descends(procs, init, p, k)
    decreases procs[p].pid
  {
    if p == init {
      k := 0;
    } else if procs[p].parent.value == init {
      k := 1;
      assert Descends(procs, init, init, 0);
    } else {
      k := EveryoneDescends(procs, init, procs[p].parent.value);
      k := k + 1;
    }
  }

  // ----- each stay keeps the invariant

  ghost predicate Table(procs: seq<Proc>, cpus: seq<Option<nat>>, init: nat, nextpid: nat, exited: set<nat>,
                        reaped: seq<nat>) {
    && Family(procs, init) && Waiters(procs) && Pids(procs, nextpid) && Processors(procs, cpus)
    && Accounts(procs, exited, reaped) && (forall x <- exited :: x < nextpid)
  }

  /** How a change of one slot can disturb each part of the invariant. */
  lemma FamilyUpdate(procs: seq<Proc>, init: nat, p: nat, x: Proc)
    requires Family(procs, init) && p < |procs|
    requires procs[p].Live() ==> x.Live() && x.pid == procs[p].pid
    requires p == init ==> x.parent == None
    requires x.parent.Some? ==>
               var up := x.parent.value;
               up < |procs| && up != p && procs[up].Live() && (up == init || procs[up].pid < x.pid)
    requires x.state == UNUSED ==> x.parent == None
    requires p != init && (x.Live() || x.state == ZOMBIE) ==> x.parent.Some?
    ensures Family(procs[p := x], init)
  {
    var procs' := procs[p := x];
    forall q | 0 <= q < |procs| && procs'[q].parent.Some?
      ensures procs'[q].parent.value < |procs| && procs'[procs'[q].parent.value].Live()
      ensures procs'[q].parent.value == init || procs'[procs'[q].parent.value].pid < procs'[q].pid
    {
    }
  }

  lemma WaitersUpdate(procs: seq<Proc>, p: nat, x: Proc)
    requires Waiters(procs) && p < |procs|
    requires x.state == SLEEPING && x.chan.Slot? ==> x.chan.p == p
    requires Sleeper(x, Slot(p)) ==> forall q | 0 <= q < |procs| && procs[q].parent == Some(p) ::
               procs[q].state != ZOMBIE
    requires x.state == ZOMBIE ==> procs[p].state == ZOMBIE && x.parent == procs[p].parent
    ensures Waiters(procs[p := x])
  {
    var procs' := procs[p := x];
    forall q | 0 <= q < |procs| && procs'[q].state == ZOMBIE && procs'[q].parent.Some?
      ensures procs'[q].parent.value < |procs| && !InWait(procs', procs'[q].parent.value)
    {
      assert procs[q].state == ZOMBIE && procs[q].parent == procs'[q].parent;
      assert !InWait(procs, procs[q].parent.value);
    }
  }

  lemma PidsUpdate(procs: seq<Proc>, nextpid: nat, nextpid': nat, p: nat, x: Proc)
    requires Pids(procs, nextpid) && p < |procs| && nextpid <= nextpid'
    requires x.state == UNUSED || (procs[p].state != UNUSED && x.pid == procs[p].pid) || nextpid <= x.pid < nextpid'
    requires x.state != UNUSED ==> x.pid > 0
    ensures Pids(procs[p := x], nextpid')
  {
  }

  lemma AccountsUpdate(procs: seq<Proc>, exited: set<nat>, reaped: seq<nat>, p: nat, x: Proc)
    requires Accounts(procs, exited, reaped) && p < |procs| && procs[p].state != ZOMBIE && x.state != ZOMBIE
    requires x.state != UNUSED ==> x.pid !in exited
    ensures Accounts(procs[p := x], exited, reaped)
  {
    SameZombies(procs, procs[p := x]);
  }

  /** A slot that is not running changes to another state that is not running. */
  lemma ProcessorsUpdate(procs: seq<Proc>, cpus: seq<Option<nat>>, p: nat, x: Proc)
    requires Processors(procs, cpus) && p < |procs| && procs[p].state != RUNNING && x.state != RUNNING
    ensures Processors(procs[p := x], cpus)
  {
    forall q | 0 <= q < |procs| && procs[p := x][q].state == RUNNING
      ensures Some(q) in cpus
    {
      assert procs[q].state == RUNNING;
    }
  }

  lemma EmbryoKeeps(procs: seq<Proc>, cpus: seq<Option<nat>>, init: nat, nextpid: nat, exited: set<nat>,
                    reaped: seq<nat>, p: nat)
    requires Table(procs, cpus, init, nextpid, exited, reaped) && p < |procs| && procs[p].state == UNUSED && nextpid > 0
    ensures Table(procs[p := procs[p].(state := EMBRYO, pid := nextpid)], cpus, init, nextpid + 1, exited, reaped)
  {
    hide Waiters, Pids, Processors, Accounts;
    var x := procs[p].(state := EMBRYO, pid := nextpid);
    FamilyUpdate(procs, init, p, x);
    WaitersUpdate(procs, p, x);
    PidsUpdate(procs, nextpid, nextpid + 1, p, x);
    ProcessorsUpdate(procs, cpus, p, x);
    AccountsUpdate(procs, exited, reaped, p, x);
  }

  lemma AbandonKeeps(procs: seq<Proc>, cpus: seq<Option<nat>>, init: nat, nextpid: nat, exited: set<nat>,
                     reaped: seq<nat>, p: nat)
    requires Table(procs, cpus, init, nextpid, exited, reaped)
    requires p < |procs| && procs[p].state == EMBRYO && procs[p].parent == None
    ensures Table(procs[p := procs[p].(state := UNUSED)], cpus, init, nextpid, exited, reaped)
  {
    hide Waiters, Pids, Processors, Accounts;
    var x := procs[p].(state := UNUSED);
    FamilyUpdate(procs, init, p, x);
    WaitersUpdate(procs, p, x);
    PidsUpdate(procs, nextpid, nextpid, p, x);
    ProcessorsUpdate(procs, cpus, p, x);
    AccountsUpdate(procs, exited, reaped, p, x);
  }

  lemma PidFacts(procs: seq<Proc>, nextpid: nat, exited: set<nat>, reaped: seq<nat>, p: nat)
    requires Pids(procs, nextpid) && Accounts(procs, exited, reaped) && p < |procs| && procs[p].state != UNUSED
    ensures procs[p].pid > 0 && (procs[p].state != ZOMBIE ==> procs[p].pid !in exited)
  {
  }

  lemma ForkKeeps(procs: seq<Proc>, cpus: seq<Option<nat>>, init: nat, nextpid: nat, exited: set<nat>, reaped: seq<nat>,
                  cur: nat, np: nat)
    requires Table(procs, cpus, init, nextpid, exited, reaped)
    requires cur < |procs| && procs[cur].state == RUNNING && np < |procs| && procs[np].state == EMBRYO &&
             procs[np].parent == None
    requires procs[cur].pid < procs[np].pid
    ensures Table(procs[np := procs[np].(parent := Some(cur), state := RUNNABLE)], cpus, init, nextpid, exited, reaped)
  {
    hide Waiters, Pids, Processors, Accounts;
    var x := procs[np].(parent := Some(cur), state := RUNNABLE);
    PidFacts(procs, nextpid, exited, reaped, np);
    FamilyUpdate(procs, init, np, x);
    WaitersUpdate(procs, np, x);
    PidsUpdate(procs, nextpid, nextpid, np, x);
    ProcessorsUpdate(procs, cpus, np, x);
    AccountsUpdate(procs, exited, reaped, np, x);
  }

  /** Zombies are recognised by state and pid. */
  lemma SameZombies(procs: seq<Proc>, procs': seq<Proc>)
    requires |procs'| == |procs|
    requires forall p | 0 <= p < |procs| && procs[p].state == ZOMBIE ::
               procs'[p].state == ZOMBIE && procs'[p].pid == procs[p].pid
    ensures forall x: nat | IsZombie(procs, x) :: IsZombie(procs', x)
  {
    forall x: nat | IsZombie(procs, x)
      ensures IsZombie(procs', x)
    {
      var p :| 0 <= p < |procs| && procs[p].state == ZOMBIE && procs[p].pid == x;
      assert procs'[p].state == ZOMBIE;
    }
  }

  lemma WokenKeeps(procs: seq<Proc>, cpus: seq<Option<nat>>, init: nat, nextpid: nat, exited: set<nat>,
                   reaped: seq<nat>, chan: Chan)
    requires Table(procs, cpus, init, nextpid, exited, reaped)
    ensures Table(Woken(procs, chan), cpus, init, nextpid, exited, reaped)
  {
    hide Family, Waiters, Pids, Processors, Accounts;
    SameZombies(procs, Woken(procs, chan));
    WokenFamily(procs, init, chan);
    WokenWaiters(procs, chan);
    WokenRest(procs, cpus, nextpid, exited, reaped, chan);
  }

  lemma WokenFamily(procs: seq<Proc>, init: nat, chan: Chan)
    requires Family(procs, init)
    ensures Family(Woken(procs, chan), init)
  {
    forall q | 0 <= q < |procs|
      ensures var x, y := procs[q], Woken(procs, chan)[q];
              y.pid == x.pid && y.parent == x.parent && y.Live() == x.Live() &&
                (y.state == UNUSED <==> x.state == UNUSED)
    {
    }
  }

  lemma WokenWaiters(procs: seq<Proc>, chan: Chan)
    requires Waiters(procs)
    ensures Waiters(Woken(procs, chan))
  {
    forall q | 0 <= q < |procs| && Woken(procs, chan)[q].state == ZOMBIE && Woken(procs, chan)[q].parent.Some?
      ensures procs[q].parent.value < |procs| && !InWait(Woken(procs, chan), procs[q].parent.value)
    {
      assert !InWait(procs, procs[q].parent.value);
    }
  }

  lemma WokenRest(procs: seq<Proc>, cpus: seq<Option<nat>>, nextpid: nat, exited: set<nat>, reaped: seq<nat>,
                  chan: Chan)
    requires Pids(procs, nextpid) && Processors(procs, cpus) && Accounts(procs, exited, reaped)
    requires forall x: nat | IsZombie(procs, x) :: IsZombie(Woken(procs, chan), x)
    ensures Pids(Woken(procs, chan), nextpid) && Processors(Woken(procs, chan), cpus) &&
            Accounts(Woken(procs, chan), exited, reaped)
  {
    forall q | 0 <= q < |procs|
      ensures var x, y := procs[q], Woken(procs, chan)[q];
              y.pid == x.pid && (y.state == x.state || (x.state == SLEEPING && y.state == RUNNABLE))
    {
    }
  }

  /** A processor lets its process go, as runnable or asleep. */
  lemma LeaveKeeps(procs: seq<Proc>, cpus: seq<Option<nat>>, init: nat, nextpid: nat, exited: set<nat>,
                   reaped: seq<nat>, c: nat, cur: nat, x: Proc)
    requires Table(procs, cpus, init, nextpid, exited, reaped) && c < |cpus| && cpus[c] == Some(cur)
    requires x.pid == procs[cur].pid && x.parent == procs[cur].parent
    requires x.state == RUNNABLE || (x.state == SLEEPING && (x.chan.Elsewhere? || x.chan == Slot(cur)))
    requires x.state == SLEEPING && x.chan == Slot(cur) ==>
               forall q | 0 <= q < |procs| && procs[q].parent == Some(cur) :: procs[q].state != ZOMBIE
    ensures Table(procs[cur := x], cpus[c := None], init, nextpid, exited, reaped)
  {
    hide Waiters, Pids, Accounts;
    PidFacts(procs, nextpid, exited, reaped, cur);
    FamilyUpdate(procs, init, cur, x);
    WaitersUpdate(procs, cur, x);
    PidsUpdate(procs, nextpid, nextpid, cur, x);
    LeaveProcessor(procs, cpus, c, cur, procs[cur := x]);
    AccountsUpdate(procs, exited, reaped, cur, x);
  }

  lemma LeaveProcessor(procs: seq<Proc>, cpus: seq<Option<nat>>, c: nat, cur: nat, procs': seq<Proc>)
    requires Processors(procs, cpus) && c < |cpus| && cpus[c] == Some(cur) && |procs'| == |procs|
    requires forall p | 0 <= p < |procs| :: procs'[p].state == RUNNING <==> procs[p].state == RUNNING && p != cur
    ensures Processors(procs', cpus[c := None])
  {
    forall p | 0 <= p < |procs| && procs'[p].state == RUNNING
      ensures Some(p) in cpus[c := None]
    {
      var d :| 0 <= d < |cpus| && cpus[d] == Some(p);
      assert cpus[c := None][d] == Some(p);
    }
  }

  lemma EnterProcessor(procs: seq<Proc>, cpus: seq<Option<nat>>, c: nat, p: nat, x: Proc)
    requires Processors(procs, cpus) && c < |cpus| && cpus[c] == None && p < |procs| && procs[p].state != RUNNING &&
             x.state == RUNNING
    ensures Processors(procs[p := x], cpus[c := Some(p)])
  {
    var procs', cpus' := procs[p := x], cpus[c := Some(p)];
    assert cpus'[c] == Some(p);
    forall q | 0 <= q < |procs'| && procs'[q].state == RUNNING
      ensures Some(q) in cpus'
    {
      if q != p {
        var d :| 0 <= d < |cpus| && cpus[d] == Some(q);
        assert cpus'[d] == Some(q);
      }
    }
  }

  lemma SwitchKeeps(procs: seq<Proc>, cpus: seq<Option<nat>>, init: nat, nextpid: nat, exited: set<nat>,
                    reaped: seq<nat>, c: nat, p: nat)
    requires Table(procs, cpus, init, nextpid, exited, reaped)
    requires c < |cpus| && cpus[c] == None && p < |procs| && procs[p].state == RUNNABLE
    ensures Table(procs[p := procs[p].(state := RUNNING)], cpus[c := Some(p)], init, nextpid, exited, reaped)
  {
    hide Waiters, Pids, Processors, Accounts;
    var x := procs[p].(state := RUNNING);
    PidFacts(procs, nextpid, exited, reaped, p);
    FamilyUpdate(procs, init, p, x);
    WaitersUpdate(procs, p, x);
    PidsUpdate(procs, nextpid, nextpid, p, x);
    EnterProcessor(procs, cpus, c, p, x);
    AccountsUpdate(procs, exited, reaped, p, x);
  }

  lemma ReapKeeps(procs: seq<Proc>, cpus: seq<Option<nat>>, init: nat, nextpid: nat, exited: set<nat>, reaped: seq<nat>,
                  p: nat)
    requires Table(procs, cpus, init, nextpid, exited, reaped) && p < |procs| && procs[p].state == ZOMBIE
    ensures Table(procs[p := Proc(UNUSED, 0, None, procs[p].chan)], cpus, init, nextpid, exited,
                  reaped + [procs[p].pid])
  {
    hide Waiters, Pids, Processors, Accounts;
    var x := Proc(UNUSED, 0, None, procs[p].chan);
    FamilyUpdate(procs, init, p, x);
    WaitersUpdate(procs, p, x);
    PidsUpdate(procs, nextpid, nextpid, p, x);
    ProcessorsUpdate(procs, cpus, p, x);
    ReapAccounts(procs, nextpid, exited, reaped, p, x);
  }

  lemma ReapAccounts(procs: seq<Proc>, nextpid: nat, exited: set<nat>, reaped: seq<nat>, p: nat, x: Proc)
    requires Pids(procs, nextpid) && Accounts(procs, exited, reaped) && p < |procs| && procs[p].state == ZOMBIE &&
             x.state == UNUSED
    ensures Accounts(procs[p := x], exited, reaped + [procs[p].pid])
  {
    var procs', reaped' := procs[p := x], reaped + [procs[p].pid];
    forall y <- exited
      ensures y in reaped' || IsZombie(procs', y)
    {
      if y !in reaped && y != procs[p].pid {
        var q :| 0 <= q < |procs| && procs[q].state == ZOMBIE && procs[q].pid == y;
        assert procs'[q].state == ZOMBIE;
      }
    }
  }

  // ----- exit

  lemma AdoptStep(before: seq<Proc>, up: seq<Proc>, procs: seq<Proc>, cur: nat, init: nat, p: nat)
    requires |before| == |up| == |procs| && p < |procs|
    requires forall i | 0 <= i < |before| ::
               up[i].parent == before[i].parent && (up[i].state == ZOMBIE <==> before[i].state == ZOMBIE)
    requires procs == Adopted(if ZombieChild(before, cur, p) then Woken(up, Slot(init)) else up, cur, init, p)
    ensures procs[p].parent == before[p].parent && (procs[p].state == ZOMBIE <==> before[p].state == ZOMBIE)
    ensures ZombieChild(before, cur, p + 1)
        <==> ZombieChild(before, cur, p) || (before[p].parent == Some(cur) && before[p].state == ZOMBIE)
    ensures var next := if procs[p].parent == Some(cur) then procs[p := procs[p].(parent := Some(init))] else procs;
            (if procs[p].parent == Some(cur) && procs[p].state == ZOMBIE then Woken(next, Slot(init)) else next)
            == Adopted(if ZombieChild(before, cur, p + 1) then Woken(up, Slot(init)) else up, cur, init, p + 1)
  {
  }

  /** What exit does to one slot. */
  lemma ExitedSlot(procs: seq<Proc>, cur: nat, init: nat, p: nat)
    requires cur < |procs| && p < |procs|
    requires procs[cur].parent.Some?
    ensures |Exited(procs, cur, init)| == |procs|
    ensures SlotRel(procs, procs[p], Exited(procs, cur, init)[p], cur, init, p)
  {
  }

  ghost predicate ExitedRel(procs: seq<Proc>, procs': seq<Proc>, cur: nat, init: nat) {
    && |procs'| == |procs| && cur < |procs| && procs[cur].parent.Some?
    && forall p | 0 <= p < |procs| :: SlotRel(procs, procs[p], procs'[p], cur, init, p)
  }

  ghost predicate SlotRel(procs: seq<Proc>, x: Proc, y: Proc, cur: nat, init: nat, p: nat)
    requires cur < |procs| && procs[cur].parent.Some?
  {
    && y.pid == x.pid && y.chan == x.chan
    && y.parent == (if x.parent == Some(cur) then Some(init) else x.parent)
    && (p == cur ==> y.state == ZOMBIE)
    && (p != cur ==> y.state == x.state || (x.state == SLEEPING && y.state == RUNNABLE))
    && (p != cur ==> !Sleeper(y, Slot(procs[cur].parent.value)))
    && (p != cur && ZombieChild(procs, cur, |procs|) ==> !Sleeper(y, Slot(init)))
  }

  lemma ExitedIsRel(procs: seq<Proc>, cur: nat, init: nat)
    requires cur < |procs| && procs[cur].parent.Some?
    ensures ExitedRel(procs, Exited(procs, cur, init), cur, init)
  {
    hide Exited;
    forall p | 0 <= p < |procs|
      ensures |Exited(procs, cur, init)| == |procs|
      ensures SlotRel(procs, procs[p], Exited(procs, cur, init)[p], cur, init, p)
    {
      ExitedSlot(procs, cur, init, p);
    }
  }

  lemma ExitFamily(procs: seq<Proc>, procs': seq<Proc>, cur: nat, init: nat)
    requires Family(procs, init) && cur != init && ExitedRel(procs, procs', cur, init) && procs[cur].Live()
    ensures Family(procs', init)
  {
    forall p | 0 <= p < |procs|
      ensures p != cur ==> procs'[p].Live() == procs[p].Live()
      ensures procs'[p].parent.Some? ==>
                procs'[p].parent.value < |procs| && procs'[procs'[p].parent.value].Live()
                && (procs'[p].parent.value == init || procs'[procs'[p].parent.value].pid < procs'[p].pid)
    {
      assert SlotRel(procs, procs[p], procs'[p], cur, init, p);
      var up := procs'[p].parent;
      if up.Some? {
        assert up.value < |procs| && SlotRel(procs, procs[up.value], procs'[up.value], cur, init, up.value);
      }
    }
  }

  lemma ExitWaiters(procs: seq<Proc>, procs': seq<Proc>, cur: nat, init: nat)
    requires Family(procs, init) && Waiters(procs) && cur != init && ExitedRel(procs, procs', cur, init) &&
             procs[cur].state == RUNNING
    ensures Waiters(procs')
  {
    forall q | 0 <= q < |procs| && procs'[q].state == ZOMBIE && procs'[q].parent.Some?
      ensures procs'[q].parent.value < |procs| && !InWait(procs', procs'[q].parent.value)
    {
      assert SlotRel(procs, procs[q], procs'[q], cur, init, q);
      var up := procs'[q].parent.value;
      assert SlotRel(procs, procs[up], procs'[up], cur, init, up);
      if q != cur && procs[q].parent != Some(cur) {
        assert !InWait(procs, up);
      }
    }
  }

  lemma ExitPids(procs: seq<Proc>, procs': seq<Proc>, cur: nat, init: nat, nextpid: nat)
    requires Pids(procs, nextpid) && ExitedRel(procs, procs', cur, init) && procs[cur].state == RUNNING
    ensures Pids(procs', nextpid)
  {
    forall p | 0 <= p < |procs|
      ensures procs'[p].pid == procs[p].pid && (procs'[p].state == UNUSED <==> procs[p].state == UNUSED)
    {
      assert SlotRel(procs, procs[p], procs'[p], cur, init, p);
    }
  }

  lemma ExitAccounts(procs: seq<Proc>, procs': seq<Proc>, cur: nat, init: nat, nextpid: nat, exited: set<nat>,
                     reaped: seq<nat>)
    requires Pids(procs, nextpid) && Accounts(procs, exited, reaped) && ExitedRel(procs, procs', cur, init) &&
             procs[cur].state == RUNNING
    ensures Accounts(procs', exited + {procs[cur].pid}, reaped)
  {
    forall p | 0 <= p < |procs|
      ensures procs'[p].pid == procs[p].pid && (procs[p].state == ZOMBIE ==> procs'[p].state == ZOMBIE)
      ensures p != cur && procs'[p].state == ZOMBIE ==> procs[p].state == ZOMBIE
      ensures procs'[p].Live() || procs'[p].state == EMBRYO ==>
                p != cur && (procs[p].Live() || procs[p].state == EMBRYO)
    {
      assert SlotRel(procs, procs[p], procs'[p], cur, init, p);
    }
    SameZombies(procs, procs');
    assert procs'[cur].state == ZOMBIE && IsZombie(procs', procs[cur].pid);
  }

  lemma ExitKeeps(procs: seq<Proc>, cpus: seq<Option<nat>>, init: nat, nextpid: nat, exited: set<nat>, reaped: seq<nat>,
                  c: nat, cur: nat)
    requires Table(procs, cpus, init, nextpid, exited, reaped) && c < |cpus| && cpus[c] == Some(cur) && cur != init
    ensures procs[cur].parent.Some?
    ensures Table(Exited(procs, cur, init), cpus[c := None], init, nextpid, exited + {procs[cur].pid}, reaped)
  {
    hide Exited, Family, Waiters, Pids, Processors, Accounts, ExitedRel;
    RunningFacts(procs, cpus, init, c, cur);
    var procs' := Exited(procs, cur, init);
    ExitedIsRel(procs, cur, init);
    ExitFamily(procs, procs', cur, init);
    ExitWaiters(procs, procs', cur, init);
    ExitPids(procs, procs', cur, init, nextpid);
    ExitAccounts(procs, procs', cur, init, nextpid, exited, reaped);
    ExitRunning(procs, procs', cur, init);
    LeaveProcessor(procs, cpus, c, cur, procs');
    PidBound(procs, nextpid, cur);
  }

  lemma RunningFacts(procs: seq<Proc>, cpus: seq<Option<nat>>, init: nat, c: nat, cur: nat)
    requires Processors(procs, cpus) && Family(procs, init) && c < |cpus| && cpus[c] == Some(cur)
    ensures cur < |procs| && procs[cur].state == RUNNING
    ensures cur != init ==> procs[cur].parent.Some? && procs[cur].parent != Some(cur)
  {
  }

  lemma ExitRunning(procs: seq<Proc>, procs': seq<Proc>, cur: nat, init: nat)
    requires ExitedRel(procs, procs', cur, init)
    ensures |procs'| == |procs|
    ensures forall p | 0 <= p < |procs| :: procs'[p].state == RUNNING <==> procs[p].state == RUNNING && p != cur
  {
    forall p | 0 <= p < |procs|
      ensures procs'[p].state == RUNNING <==> procs[p].state == RUNNING && p != cur
    {
      assert SlotRel(procs, procs[p], procs'[p], cur, init, p);
    }
  }

  lemma PidBound(procs: seq<Proc>, nextpid: nat, p: nat)
    requires Pids(procs, nextpid) && p < |procs| && procs[p].state != UNUSED
    ensures procs[p].pid < nextpid
  {
  }
}
