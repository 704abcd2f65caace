/**
 Processes and their memory together: every process in the ring has an address space of its own,
 and CR3 is that of the running one, through fork, exec, switch, exit and reaping.
 */
module OperatingSystem {
  import opened ProcessTable
  import opened ProcessInvariants
  import opened Lifecycle
  import opened Scheduler
  import opened Session
  import opened Paging
  import C = Cow

  // ----- the invariant --------------------------------------------------------------------------

  /** Each number in use has a live root of its own, and the running process's is in CR3. */
  ghost predicate Matched(t: Table, roots: map<int, nat>, live: set<nat>, cr3: nat) {
    && roots.Keys == t.used && t.ring != []
    && (forall p :: p in roots ==> roots[p] in live)
    && (forall p, q :: p in roots && q in roots && roots[p] == roots[q] ==> p == q)
    && t.ring[0].pid in roots && roots[t.ring[0].pid] == cr3
  }

  lemma {:induction false} WaitAllUsed(t: Table, k: nat)
    requires 1 <= k <= |t.ring|
    ensures WaitAllFrom(t, k).used <= t.used
    decreases |t.ring| - k
  {
    if k < |t.ring| {
      if t.ring[k].state == Zombie {
        WaitAllUsed(Reap(t, k), k);
      } else {
        WaitAllUsed(t, k + 1);
      }
    }
  }

  /** The scheduler reaps neither the process that calls it nor the one that runs next. */
  lemma ScheduleSpares(t: Table)
    requires Inv(t)
    ensures var t' := Schedule(t);
      t'.ring != [] && t'.used <= t.used && t.ring[0].pid in t'.used && t'.ring[0].pid in t'.used
  {
    ScheduleTurns(t);
    ScheduleKeepsInv(t);
    WaitAllKeepsInv(t, 1);
    WaitAllUsed(t, 1);
    WaitAllMembers(t);
    hide WaitAllFrom, Choice;
    PidsMember(Schedule(t).ring, 0);
    PidsMember(WaitAllFrom(t, 1).ring, 0);
  }

  lemma ForkMatched(t: Table, roots: map<int, nat>, live: set<nat>, cr3: nat, ch: nat)
    requires Inv(t) && |t.ring| < MAX_P - 1 && Matched(t, roots, live, cr3) && ch !in live
    ensures LeastFree(t.used, 1) != -1
    ensures Matched(Fork(t), roots[LeastFree(t.used, 1) := ch], live + {ch}, cr3)
  {
    FreePidIff(t);
  }

  /** exec: the caller's number gets the new root, and the old one is given up. */
  lemma ExecNumbers(t: Table)
    requires t.ring != []
    ensures Exec(t).used == t.used && Exec(t).ring != [] && Exec(t).ring[0].pid == t.ring[0].pid
  {
  }

  lemma ExecMatched(t: Table, roots: map<int, nat>, live: set<nat>, cr3: nat, r: nat)
    requires t.ring != [] && Matched(t, roots, live, cr3) && r !in live
    ensures Matched(Exec(t), roots[t.ring[0].pid := r], live + {r} - {cr3}, r)
  {
  }

  /** Reaping and switching: the numbers that are still in use keep their roots, and the others'
      roots, none of which is in CR3, can be given up. */
  lemma ReapMatched(t: Table, t': Table, roots: map<int, nat>, live: set<nat>, cr3: nat)
    requires Matched(t, roots, live, cr3) && t'.used <= t.used && t'.ring != [] && t'.ring[0].pid in t'.used
    requires t.ring[0].pid in t'.used
    ensures var roots' := Restricted(roots, t'.used);
      && Matched(t', roots', live - Dropped(roots, t'.used), roots[t'.ring[0].pid])
      && cr3 !in Dropped(roots, t'.used) && Dropped(roots, t'.used) <= live
  {
  }

  function Restricted(roots: map<int, nat>, used: set<int>): map<int, nat> {
    map p | p in roots && p in used :: roots[p]
  }

  /** The roots of the numbers that are no longer in use. */
  ghost function Dropped(roots: map<int, nat>, used: set<int>): set<nat> {
    set p | p in roots && p !in used :: roots[p]
  }

  /** The numbers still in use keep their roots; the others have none any more, and those they had are
      not in use. */
  ghost predicate RootsKept(roots: map<int, nat>, roots': map<int, nat>, used: set<int>, live': set<nat>) {
    forall p :: p in roots ==>
      if p in used then p in roots' && roots'[p] == roots[p] else p !in roots' && roots[p] !in live'
  }

  // ----- the kernel's steps on both ---------------------------------------------------------------

  class System {
    const sched: Kernel
    const mem: Machine
    var roots: map<int, nat>  // cr3 of each process, by number

    ghost predicate Valid()
      reads this, sched, sched.repr, sched.processes
      reads mem, mem.k, mem.k.ram, mem.k.ram.words, mem.k.alloc, mem.k.alloc.descs
    {
      sched.Valid() && Inv(sched.T()) && mem.Valid() && Matched(sched.T(), roots, mem.k.live, mem.k.cr3)
    }

    /** The number of the running process. */
    ghost function Current(): int
      reads this, sched
    {
      if sched.procs == [] then -1 else sched.procs[0].pid
    }


    method RunningPid() returns (pid: int)
      requires Valid()
      ensures pid == Current()
    {
      pid := sched.CurrentPid();
    }

    /** init_idle_process: the idle process runs in the kernel's own address space. */
    constructor (mem: Machine)
      requires mem.Valid() && mem.k.live == {mem.k.cr3}
      ensures Valid() && this.mem == mem && fresh(sched) && fresh(sched.repr) && fresh(sched.processes)
      ensures sched.T() == Table([Proc(IDLE, 0, Running)], {IDLE})
      ensures roots == map[IDLE := mem.k.cr3]
    {
      hide Inv, Machine.Valid, Kernel.Valid, Matched;
      this.mem := mem;
      sched := new Kernel();
      roots := map[IDLE := mem.k.cr3];
      new;
      IdleAlone(mem.k.cr3);
    }

    /** create_process while the idle process is alone. */
    method Create() returns (pid: int)
      requires Valid() && |sched.T().ring| == 1 && mem.k.CanTake(1)
      modifies `roots, sched, sched.repr, sched.processes
      modifies mem`trace, mem.k`role, mem.k`live, mem.k.ram, mem.k.ram.words, mem.k.alloc, mem.k.alloc.descs
      ensures Valid() && sched.T() == ProcessTable.Create(old(sched.T())) && pid == LeastFree(old(sched.used), 1)
      ensures exists r: nat :: roots == old(roots)[pid := r] && mem.trace == old(mem.trace) + [C.NewSpace(r)]
    {
      hide Inv, Matched, LeastFree, ProcessTable.Create, Kernel.Valid, Machine.Valid, AddressSpaces.CanTake;
      ghost var t, live := sched.T(), mem.k.live;
      var r := mem.NewSpace();
      CreateMatched(t, roots, live, mem.k.cr3, r);
      var p := sched.CreateProcess();
      pid := p.pid;
      roots := roots[pid := r];
    }

    /** There is a number for a child, no page of the caller is shared, and there are frames for the
        child's tables. */
    ghost predicate CanFork()
      reads this, sched, sched.repr, sched.processes
      reads mem, mem.k, mem.k.ram, mem.k.ram.words, mem.k.alloc, mem.k.alloc.descs
    {
      Valid() && |sched.procs| < MAX_P - 1 && mem.CanFork()
    }

    /** fork, where no page of the caller is shared: the child gets the copied space. */
    method Fork() returns (pid: int, ghost ch: nat)
      requires CanFork()
      modifies `roots, sched, sched.repr, sched.processes
      modifies mem`trace, mem.k`role, mem.k`live, mem.k.ram, mem.k.ram.words, mem.k.alloc, mem.k.alloc.descs
      ensures Valid() && sched.T() == ProcessTable.Fork(old(sched.T())) && pid == LeastFree(old(sched.used), 1)
      ensures roots == old(roots)[pid := ch] && mem.trace == old(mem.trace) + [C.Fork(mem.k.cr3, ch)]
      ensures pid !in old(sched.used) && sched.used == old(sched.used) + {pid} && Current() == old(Current())
    {
      hide Inv, Matched, LeastFree, ProcessTable.Fork, Kernel.Valid, Machine.Valid, Machine.CanFork;
      ForkKeepsInv(sched.T());
      ghost var t, live := sched.T(), mem.k.live;
      var root := mem.Fork();
      ch := root;
      ForkMatched(t, roots, live, mem.k.cr3, ch);
      ForkNumbers(t);
      UsedNumbers(t);
      var child := sched.ForkProcess();
      pid := child.pid;
      roots := roots[pid := root];
    }

    /** The events a step adds to the trace are exits of the given spaces. */
    static ghost predicate Exits(es: seq<C.Event>, es': seq<C.Event>, rs: set<nat>) {
      es <= es' && forall e :: e in es'[|es|..] ==> e.Exit? && e.space in rs
    }

    /** The roots of reaped processes are forgotten. */
    ghost method Forget(rs: set<nat>)
      requires mem.Valid() && rs <= mem.k.live && mem.k.cr3 !in rs
      modifies mem`trace, mem.k`live
      ensures mem.Valid() && mem.k.live == old(mem.k.live) - rs && Exits(old(mem.trace), mem.trace, rs)
    {
      hide Machine.Valid;
      var left := rs;
      while left != {}
        invariant mem.Valid() && left <= rs && mem.k.live == old(mem.k.live) - (rs - left) && left <= mem.k.live
        invariant Exits(old(mem.trace), mem.trace, rs)
        decreases left
      {
        var r :| r in left;
        mem.Reap(r);
        left := left - {r};
      }
    }

    /** exec: a new structure in a new, empty space. */
    method Exec()
      requires Valid() && mem.k.CanTake(1)
      modifies `roots, sched, sched.repr, sched.processes
      modifies mem`trace, mem.k`role, mem.k`live, mem.k`cr3, mem.k.ram, mem.k.ram.words, mem.k.alloc, mem.k.alloc.descs
      ensures Valid() && sched.T() == ProcessTable.Exec(old(sched.T()))
      ensures sched.used == old(sched.used) && Current() == old(Current())
      ensures mem.k.cr3 !in old(mem.k.live) &&
        mem.trace == old(mem.trace) + [C.NewSpace(mem.k.cr3), C.Exit(old(mem.k.cr3))]
    {
      hide Inv, Matched, ProcessTable.Exec, Kernel.Valid, Machine.Valid, AddressSpaces.CanTake;
      ghost var t, live, cr3 := sched.T(), mem.k.live, mem.k.cr3;
      CurrentRoot(t, roots, live, cr3);
      ExecKeepsInv(t);
      ExecNumbers(t);
      var pid := sched.CurrentPid();
      var r := mem.NewSpace();
      ExecMatched(t, roots, live, cr3, r);
      mem.SwitchTo(r);
      mem.Reap(cr3);
      var p := sched.ExecProcess();
      roots := roots[pid := r];
    }

    /** The processes that wait_all reaped give up their roots, and CR3 is loaded for the one that runs. */
    method AfterSchedule(ghost t: Table)
      requires sched.Valid() && Inv(sched.T()) && mem.Valid() && Matched(t, roots, mem.k.live, mem.k.cr3)
      requires sched.T().used <= t.used && t.ring[0].pid in sched.T().used
      requires sched.T().ring != [] && sched.T().ring[0].pid in sched.T().used
      modifies `roots, mem`trace, mem.k`live, mem.k`cr3
      ensures Valid() && roots == Restricted(old(roots), sched.used)
      ensures Exits(old(mem.trace), mem.trace, Dropped(old(roots), sched.used))
      ensures mem.k.live == old(mem.k.live) - Dropped(old(roots), sched.used)
      ensures RootsKept(old(roots), roots, sched.used, mem.k.live)
    {
      hide Inv, Matched, Machine.Valid, Kernel.Linked, Kernel.Mirrored;
      ReapMatched(t, sched.T(), roots, mem.k.live, mem.k.cr3);
      Forget(Dropped(roots, sched.used));
      var pid := sched.CurrentPid();
      mem.SwitchTo(roots[pid]);
      roots := map p | p in roots && 0 <= p < MAX_P && sched.processes[p] :: roots[p];
      assert roots == Restricted(old(roots), sched.used);
    }

    /** scheduler. */
    method Yield() returns (o: Outcome)
      requires Valid()
      modifies `roots, sched, sched.repr, sched.processes, mem`trace, mem.k`live, mem.k`cr3
      ensures Valid() && sched.T() == ProcessTable.Schedule(old(sched.T()))
      ensures o == Switched || (o == Alone && sched.T().ring[0].state == Running)
      ensures o == Switched <==> Current() != old(Current())
      ensures sched.used <= old(sched.used) && Current() in sched.used && old(Current()) in sched.used && sched.Marked()
      ensures roots == Restricted(old(roots), sched.used)
      ensures Exits(old(mem.trace), mem.trace, Dropped(old(roots), sched.used))
      ensures mem.k.live == old(mem.k.live) - Dropped(old(roots), sched.used)
      ensures RootsKept(old(roots), roots, sched.used, mem.k.live)
    {
      hide Inv, Matched, Kernel.Linked, Kernel.Mirrored, Kernel.Marked, Machine.Valid, ProcessTable.Schedule, RootsKept;
      ghost var t := sched.T();
      UsedNumbers(t);
      ScheduleSpares(t);
      o := sched.Schedule();
      AfterSchedule(t);
    }

    /** exit of a process other than the idle one. */
    method Exit() returns (o: Outcome)
      requires Valid() && Current() != IDLE
      modifies `roots, sched, sched.repr, sched.processes, mem`trace, mem.k`live, mem.k`cr3
      ensures Valid() && sched.T() == Apply(old(sched.T()), DoExit) && sched.Marked() && sched.repr == old(sched.repr)
      ensures o == Switched <==> Current() != old(Current())
      ensures sched.used <= old(sched.used) && Current() in sched.used && old(Current()) in sched.used
      ensures roots == Restricted(old(roots), sched.used)
      ensures Exits(old(mem.trace), mem.trace, Dropped(old(roots), sched.used))
      ensures mem.k.live == old(mem.k.live) - Dropped(old(roots), sched.used)
      ensures RootsKept(old(roots), roots, sched.used, mem.k.live)
    {
      hide Inv, Matched, Machine.Valid, Kernel.Linked, Kernel.Marked, ProcessTable.Schedule, Kill, RootsKept;
      ghost var t := sched.T();
      UsedNumbers(t);
      KillKeepsInv(t);
      KillSameNumbers(t);
      ScheduleSpares(Kill(t));
      o := sched.ExitCurrentProcess();
      SameNumbersMatched(t, Kill(t), roots, mem.k.live, mem.k.cr3);
      AfterSchedule(Kill(t));
    }

    /** kill(pid). */
    method KillByNumber(pid: int) returns (r: int)
      requires Valid()
      modifies sched, sched.repr
      ensures Valid() && sched.T() == KillKern(old(sched.T()), pid)
    {
      hide Matched, Machine.Valid, Kernel.Valid, Kill, Agree, OneRunner, IdleLives;
      ghost var t := sched.T();
      KillKernKeepsInv(t, pid);
      r := sched.KillKernel(pid);
      SameNumbersMatched(t, sched.T(), roots, mem.k.live, mem.k.cr3);
    }

    /** One pass of wait: a reaped child's root is forgotten. */
    method Wait() returns (pid: int, childExists: bool, ghost k: nat)
      requires Valid()
      modifies `roots, sched.repr, sched`ring, sched`procs, sched`used, sched.processes, mem`trace, mem.k`live,
        mem.k`cr3
      ensures Valid() && roots == Restricted(old(roots), sched.used) && sched.Marked()
      ensures sched.used <= old(sched.used) && Current() == old(Current()) && Current() in sched.used
      ensures WaitPass(old(sched.T()), sched.T(), pid, childExists, k)
      ensures pid != -1 ==> pid in old(roots) && pid !in roots
      ensures Exits(old(mem.trace), mem.trace, Dropped(old(roots), sched.used))
      ensures mem.k.live == old(mem.k.live) - Dropped(old(roots), sched.used)
      ensures RootsKept(old(roots), roots, sched.used, mem.k.live)
    {
      hide Matched, Machine.Valid, Kernel.Linked, Kernel.Marked, OneRunner, IdleLives, RootsKept;
      ghost var t := sched.T();
      NumbersInRange(t);
      CurrentRoot(t, roots, mem.k.live, mem.k.cr3);
      pid, childExists, k := sched.WaitScan();
      hide Agree, Inv;
      AfterWait(t, sched.T(), k);
      AfterSchedule(t);
    }
  }

  /** One pass of wait: it reaps the first of the caller's children that is a zombie, k places behind
      the caller, and returns its number; if there is none it changes nothing, and says whether the
      caller has a child at all. */
  ghost predicate WaitPass(t: Table, t': Table, pid: int, childExists: bool, k: nat) {
    && t.ring != [] && 1 <= k <= |t.ring|
    && (forall i :: 1 <= i < k ==> !(t.ring[i].ppid == t.ring[0].pid && t.ring[i].state == Zombie))
    && (if k < |t.ring| then
          && t.ring[k].ppid == t.ring[0].pid && t.ring[k].state == Zombie
          && t' == Apply(t, DoReap(k)) && pid == t.ring[k].pid && childExists
        else
          && t' == t && pid == -1
          && (childExists <==> exists i :: 1 <= i < |t.ring| && t.ring[i].ppid == t.ring[0].pid))
  }

  /** exit, and the next scheduler call after it: the process's number is free and its address space
      given up. */
  method ExitThenSchedule(sys: System) returns (o: Outcome)
    requires sys.Valid() && sys.Current() != IDLE
    modifies sys`roots, sys.sched, sys.sched.repr, sys.sched.processes, sys.mem`trace, sys.mem.k`live, sys.mem.k`cr3
    ensures sys.Valid() && old(sys.Current()) !in sys.sched.used && old(sys.Current()) !in sys.roots
    ensures old(sys.mem.k.cr3) !in sys.mem.k.live
  {
    hide Inv, Matched, Machine.Valid, Kernel.Valid, Apply, Restricted, Dropped, System.Exits, Kernel.Marked,
      ProcessTable.Schedule;
    ghost var t := sys.sched.T();
    CurrentRoot(t, sys.roots, sys.mem.k.live, sys.mem.k.cr3);
    o := sys.Exit();
    ExitGone(t);
    o := sys.Yield();
  }

  lemma ExitGone(t: Table)
    requires Inv(t) && t.ring[0].pid != IDLE
    ensures Apply(t, DoExit).ring != [] && t.ring[0].pid in Apply(t, DoExit).used
    ensures t.ring[0].pid !in Schedule(Apply(t, DoExit)).used
  {
    ExitLeavesZombie(t);
    StepKeepsInv(t, DoExit);
    var t1 := Apply(t, DoExit);
    PidsMember(t1.ring, |t1.ring| - 1);
    hide Apply;
    assert ZombieIs(t1, t.ring[0].pid);
    ScheduleKeepsZombie(t1, t.ring[0].pid);
  }

  lemma UsedNumbers(t: Table)
    requires Inv(t)
    ensures t.ring != [] && t.ring[0].pid in t.used
  {
    PidsMember(t.ring, 0);
  }

  /** Killing changes states and parents only. */
  lemma KillSameNumbers(t: Table)
    requires t.ring != []
    ensures Kill(t).ring != [] && Kill(t).used == t.used && Kill(t).ring[0].pid == t.ring[0].pid
  {
  }

  lemma ForkNumbers(t: Table)
    requires Inv(t) && |t.ring| < MAX_P - 1
    ensures var pid, t' := LeastFree(t.used, 1), Fork(t);
      pid !in t.used && t'.used == t.used + {pid} && t'.ring != [] && t'.ring[0].pid == t.ring[0].pid
  {
    FreePidIff(t);
  }

  lemma SameNumbersMatched(t: Table, t': Table, roots: map<int, nat>, live: set<nat>, cr3: nat)
    requires Matched(t, roots, live, cr3) && t'.ring != [] && t'.used == t.used && t'.ring[0].pid == t.ring[0].pid
    ensures Matched(t', roots, live, cr3)
  {
  }

  lemma KillKernKeepsInv(t: Table, pid: int)
    requires Inv(t)
    ensures var t' := KillKern(t, pid); Inv(t') && t'.ring != [] && t'.used == t.used && t'.ring[0].pid == t.ring[0].pid
  {
    if KillKern(t, pid) != t {
      KillKeepsInv(t);
      KillSameNumbers(t);
    }
  }

  lemma NumbersInRange(t: Table)
    requires Inv(t)
    ensures forall i :: 0 <= i < |t.ring| ==> 1 <= t.ring[i].pid < MAX_P
  {
  }

  /** What one pass of wait does to the numbers. */
  lemma AfterWait(t: Table, t': Table, k: nat)
    requires Inv(t) && 1 <= k <= |t.ring|
    requires k == |t.ring| ==> t' == t
    requires k < |t.ring| ==> Enabled(t, DoReap(k)) && t' == Apply(t, DoReap(k))
    ensures Inv(t') && t'.ring != [] && t'.used <= t.used && t.ring[0].pid in t'.used && t'.ring[0].pid in t'.used
    ensures k < |t.ring| ==> t.ring[k].pid in t.used && t.ring[k].pid !in t'.used
    ensures t'.ring[0] == t.ring[0]
  {
    UsedNumbers(t);
    if k < |t.ring| {
      ReapKeepsInv(t, k);
      UsedNumbers(t');
      PidsMember(t.ring, k);
    }
  }

  lemma CurrentRoot(t: Table, roots: map<int, nat>, live: set<nat>, cr3: nat)
    requires Matched(t, roots, live, cr3)
    ensures t.ring != [] && cr3 in live && roots.Keys == t.used && t.ring[0].pid in roots
    ensures roots[t.ring[0].pid] == cr3
  {
  }

  lemma CreateMatched(t: Table, roots: map<int, nat>, live: set<nat>, cr3: nat, r: nat)
    requires Inv(t) && |t.ring| == 1 && Matched(t, roots, live, cr3) && r !in live
    ensures Inv(Create(t)) && Matched(Create(t), roots[LeastFree(t.used, 1) := r], live + {r}, cr3)
  {
    CreateAgreesIff(t);
    FreePidIff(t);
    hide LeastFree;
    IdleAt(Create(t), 0);
  }

  lemma IdleAlone(cr3: nat)
    ensures Inv(Table([Proc(IDLE, 0, Running)], {IDLE}))
    ensures Matched(Table([Proc(IDLE, 0, Running)], {IDLE}), map[IDLE := cr3], {cr3}, cr3)
  {
    var t := Table([Proc(IDLE, 0, Running)], {IDLE});
    IdleAt(t, 0);
    assert Pids(t.ring) == {IDLE};
  }
}
