/**
 Processes, memory and registers together: whatever the kernel does in between, a process that is
 switched to continues with exactly what it had when it was left, in its own address space.
 */
module Computer {
  import opened Addresses
  import opened Boot
  import opened ProcessTable
  import opened ProcessInvariants
  import opened Scheduler
  import opened Session
  import opened OperatingSystem
  import opened Context
  import opened Interleaving

  /** A task that is not running, with what it is to continue with. */
  ghost predicate Parked(task: Task, c: Ctx)
    reads task, task.stack
  {
    && Suspended(task.stack[..], task.rspVal, c.regs, c.ret)
    && task.rspVal + FRAME + 1 == c.rsp && task.stack[..][task.rspVal + FRAME..] == c.above
  }

  /** What the running task would be left with if it called switch_to now. */
  ghost function Now(cpu: Cpu): Ctx
    requires FRAME <= cpu.rsp < cpu.current.stack.Length
    reads cpu, cpu.current, cpu.current.stack
  {
    Ctx(cpu.regs, cpu.current.stack[cpu.rsp], cpu.rsp + 1, cpu.current.stack[..][cpu.rsp..])
  }

  /** What a child forked now is to continue with, where at is the place of fork's return address. */
  ghost function Child(cpu: Cpu, at: nat): Ctx
    reads cpu, cpu.current, cpu.current.stack
  {
    var stack := cpu.current.stack[..];
    if at < |stack| then Ctx(cpu.regs.(rax := 0), stack[at], at + 1, stack[at..]) else Ctx(cpu.regs, 0, 0, [])
  }

  /** Where cpu stands is what c says. */
  ghost predicate At(cpu: Cpu, c: Ctx)
    reads cpu, cpu.current, cpu.current.stack
  {
    && cpu.regs == c.regs && cpu.rip == c.ret && cpu.rsp == c.rsp
    && 1 <= cpu.rsp <= cpu.current.stack.Length && cpu.current.stack[..][cpu.rsp - 1..] == c.above
  }

  lemma StackFits(stack: seq<int>, rsp: int, r: Regs, ret: int)
    requires Suspended(stack, rsp, r, ret)
    ensures 0 <= rsp && rsp + FRAME < |stack|
  {
  }

  /** switch_to between parked tasks. */
  method SwitchParked(cpu: Cpu, next: Task, ghost c: Ctx)
    requires next != cpu.current && next.stack != cpu.current.stack && FRAME <= cpu.rsp < cpu.current.stack.Length
    requires Parked(next, c)
    modifies cpu, cpu.current, cpu.current.stack
    ensures cpu.current == next && At(cpu, c) && Parked(old(cpu.current), old(Now(cpu)))
  {
    hide Popped, Pushes, Frame;
    ghost var own, rsp := cpu.current.stack[..], cpu.rsp;
    cpu.SwitchTo(next);
    assert own[rsp..] == old(cpu.current.stack[rsp..]);
  }

  /** The tasks have structures and stacks of their own. */
  ghost predicate Apart(tasks: map<int, Task>) {
    forall p, q :: p in tasks && q in tasks && p != q ==> tasks[p] != tasks[q] && tasks[p].stack != tasks[q].stack
  }

  /** Every task but the one of process cur is parked with what the book says. */
  ghost predicate Waiting(tasks: map<int, Task>, book: map<int, Ctx>, cur: int)
    reads set p | p in tasks :: tasks[p], set p | p in tasks :: tasks[p].stack
  {
    forall p :: p in tasks && p != cur ==> p in book && Parked(tasks[p], book[p])
  }

  /** The processor and the kernel stacks of all processes. */
  class Registers {
    const cpu: Cpu
    var tasks: map<int, Task>      // the kernel stack of each process, by number
    ghost var book: map<int, Ctx>  // what each process was left with

    /** The numbers in `used` have stacks, the one of cur is in use, the others are parked. */
    ghost predicate Valid(used: set<int>, cur: int)
      reads this, cpu, set p | p in tasks :: tasks[p], set p | p in tasks :: tasks[p].stack
    {
      && tasks.Keys == used && Apart(tasks) && cur in tasks && cpu.current == tasks[cur] && Waiting(tasks, book, cur)
    }

    /** The idle process runs on the stack it was started on. */
    constructor (cpu: Cpu)
      ensures Valid({IDLE}, IDLE) && this.cpu == cpu && book == map[]
    {
      var task: Task := cpu.current;
      this.cpu, tasks, book := cpu, map[IDLE := task], map[];
    }

    /** The running process is parked and process next continues. */
    method HandTo(next: int, ghost used: set<int>, ghost cur: int)
      requires Valid(used, cur) && next in used && next != cur && FRAME <= cpu.rsp < cpu.current.stack.Length
      modifies `book, cpu, cpu.current, cpu.current.stack
      ensures Valid(used, next)
      ensures next in old(book) && At(cpu, old(book)[next]) && book == old(book)[cur := old(Now(cpu))]
    {
      hide Suspended;
      ghost var c := Now(cpu);
      SwitchParked(cpu, tasks[next], book[next]);
      book := book[cur := c];
    }

    /** The stacks of processes that are no more are given up. */
    method Prune(sched: Kernel, ghost used: set<int>, ghost cur: int)
      requires Valid(used, cur) && sched.Marked() && sched.used <= used && cur in sched.used
      modifies `tasks
      ensures Valid(sched.used, cur)
    {
      hide Parked;
      tasks := map p | p in tasks && 0 <= p < MAX_P && sched.processes[p] :: tasks[p];
    }

    /** The switch the scheduler has decided on, from cur to next, and what it reaped. */
    method Continue(sched: Kernel, next: int, switched: bool, ghost used: set<int>, ghost cur: int)
      requires Valid(used, cur) && sched.Marked() && sched.used <= used && next in sched.used
      requires switched <==> next != cur
      requires FRAME <= cpu.rsp < cpu.current.stack.Length
      modifies `tasks, `book, cpu, cpu.current, cpu.current.stack
      ensures Valid(sched.used, next)
      ensures switched ==> next in old(book) && At(cpu, old(book)[next]) && book == old(book)[cur := old(Now(cpu))]
      ensures !switched ==> cpu.regs == old(cpu.regs) && cpu.rsp == old(cpu.rsp)
    {
      hide Valid, Kernel.Marked, At, Now;
      if switched {
        HandTo(next, used, cur);
      }
      Prune(sched, used, next);
    }

    /** A stack for a new program, which starts at entry. */
    method AddProgram(pid: int, entry: int, ghost used: set<int>, ghost cur: int)
      requires Valid(used, cur) && pid !in used
      modifies `tasks, `book
      ensures Valid(used + {pid}, cur) && pid in book && book[pid].ret == entry && book == old(book)[pid := book[pid]]
    {
      hide Suspended;
      var task := new Task.ForProgram(entry);
      ghost var zero := Regs(0, 0, 0, 0, 0, 0, 0, 0, 0, 0, 0, 0, 0, 0, 0);
      StackFits(task.stack[..], task.rspVal, zero, entry);
      tasks := tasks[pid := task];
      book := book[pid := Ctx(zero, entry, task.rspVal + FRAME + 1, task.stack[..][task.rspVal + FRAME..])];
    }

    /** fork's return address lies on the running process's stack, from start up. */
    ghost predicate Returns(start: nat, ret: int)
      reads this, cpu, cpu.current, cpu.current.stack
    {
      FRAME <= start < cpu.current.stack.Length == STACK && ret in cpu.current.stack[start..]
    }

    /** A stack for a forked child, which returns from fork as its parent does, but with 0. */
    method AddForked(pid: int, start: nat, ret: int, ghost used: set<int>, ghost cur: int) returns (ghost at: nat)
      requires Valid(used, cur) && pid !in used && Returns(start, ret)
      modifies `tasks, `book
      ensures Valid(used + {pid}, cur) && start <= at < cpu.current.stack.Length && cpu.current.stack[at] == ret
      ensures book == old(book)[pid := Child(cpu, at)]
    {
      hide Suspended, Frame;
      var child := new Task();
      at := cpu.ForkStack(child, start, ret);
      assert child.stack[..][at..] == child.stack[at..] && cpu.current.stack[..][at..] == cpu.current.stack[at..];
      tasks := tasks[pid := child];
      book := book[pid := Child(cpu, at)];
    }
  }

  // ----- all three together -----------------------------------------------------------------------

  /** The scheduler, called with the return address on top of the running process's stack.  If it
      switches, the next process continues with exactly what it was left with, and what the caller
      has is noted. */
  method Yield(sys: System, regs: Registers) returns (o: Outcome)
    requires sys.Valid() && regs.Valid(sys.sched.used, sys.Current())
    requires FRAME <= regs.cpu.rsp < regs.cpu.current.stack.Length
    modifies sys`roots, sys.sched, sys.sched.repr, sys.sched.processes, sys.mem`trace, sys.mem.k`live, sys.mem.k`cr3
    modifies regs`tasks, regs`book, regs.cpu, regs.cpu.current, regs.cpu.current.stack
    ensures sys.Valid() && regs.Valid(sys.sched.used, sys.Current())
    ensures sys.sched.T() == ProcessTable.Schedule(old(sys.sched.T()))
    ensures o == Switched ==>
      && sys.Current() in old(regs.book) && At(regs.cpu, old(regs.book)[sys.Current()])
      && regs.book == old(regs.book)[old(sys.Current()) := old(Now(regs.cpu))]
    ensures o != Switched ==> regs.cpu.regs == old(regs.cpu.regs) && regs.cpu.rsp == old(regs.cpu.rsp)
  {
    hide System.Valid, Registers.Valid, ProcessTable.Schedule, At, Now, Kernel.Marked, System.Exits, Restricted,
      Dropped, RootsKept;
    ghost var cur, used := sys.Current(), sys.sched.used;
    o := sys.Yield();
    var next := sys.RunningPid();
    regs.Continue(sys.sched, next, o == Switched, used, cur);
  }

  /** exit: the same, for a process that will not be back. */
  method Exit(sys: System, regs: Registers) returns (o: Outcome)
    requires sys.Valid() && regs.Valid(sys.sched.used, sys.Current()) && sys.Current() != IDLE
    requires FRAME <= regs.cpu.rsp < regs.cpu.current.stack.Length
    modifies sys`roots, sys.sched, sys.sched.repr, sys.sched.processes, sys.mem`trace, sys.mem.k`live, sys.mem.k`cr3
    modifies regs`tasks, regs`book, regs.cpu, regs.cpu.current, regs.cpu.current.stack
    ensures sys.Valid() && regs.Valid(sys.sched.used, sys.Current())
    ensures sys.sched.T() == ProcessTable.Apply(old(sys.sched.T()), DoExit)
    ensures o == Switched ==> sys.Current() in old(regs.book) && At(regs.cpu, old(regs.book)[sys.Current()])
  {
    hide System.Valid, Registers.Valid, At, Now, Kernel.Marked, System.Exits, Restricted, Dropped, RootsKept,
      ProcessTable.Apply;
    ghost var cur, used := sys.Current(), sys.sched.used;
    o := sys.Exit();
    var next := sys.RunningPid();
    regs.Continue(sys.sched, next, o == Switched, used, cur);
  }

  /** fork: the child has a copied space, and continues, once it is switched to, where fork returns,
      on a stack like its parent's, but with 0 in rax. */
  method Fork(sys: System, regs: Registers, start: nat, ret: int) returns (pid: int, ghost at: nat)
    requires sys.CanFork() && regs.Valid(sys.sched.used, sys.Current()) && regs.Returns(start, ret)
    modifies sys`roots, sys.sched, sys.sched.repr, sys.sched.processes, regs`tasks, regs`book
    modifies sys.mem`trace, sys.mem.k`role, sys.mem.k`live
    modifies sys.mem.k.ram, sys.mem.k.ram.words, sys.mem.k.alloc, sys.mem.k.alloc.descs
    ensures sys.Valid() && regs.Valid(sys.sched.used, sys.Current()) && sys.Current() == old(sys.Current())
    ensures sys.sched.T() == ProcessTable.Fork(old(sys.sched.T())) && pid == LeastFree(old(sys.sched.used), 1)
    ensures regs.book == old(regs.book)[pid := Child(regs.cpu, at)] && Child(regs.cpu, at).ret == ret && at >= start
  {
    hide System.Valid, System.CanFork, Registers.Valid, Registers.Returns, ProcessTable.Fork, LeastFree;
    ghost var cur, used, ch := sys.Current(), sys.sched.used, 0;
    pid, ch := sys.Fork();
    at := regs.AddForked(pid, start, ret, used, cur);
  }

  /** One pass of wait. */
  method Wait(sys: System, regs: Registers) returns (pid: int, childExists: bool, ghost k: nat)
    requires sys.Valid() && regs.Valid(sys.sched.used, sys.Current())
    modifies sys`roots, sys.sched.repr, sys.sched`ring, sys.sched`procs, sys.sched`used, sys.sched.processes
    modifies sys.mem`trace, sys.mem.k`live, sys.mem.k`cr3, regs`tasks
    ensures sys.Valid() && regs.Valid(sys.sched.used, sys.Current()) && sys.Current() == old(sys.Current())
    ensures WaitPass(old(sys.sched.T()), sys.sched.T(), pid, childExists, k)
  {
    hide System.Valid, Registers.Valid, Kernel.Marked, System.Exits, Restricted, Dropped, RootsKept, WaitPass;
    ghost var cur, used := sys.Current(), sys.sched.used;
    pid, childExists, k := sys.Wait();
    regs.Prune(sys.sched, used, cur);
  }

  /** From power-on to the first program: the idle process runs, in the kernel's own space and on the
      stack the processor is on, and the program waits, in a space of its own, to be switched to. */
  method StartUp(physfree: nat, base: nat, length: nat, lo: nat, cpu: Cpu, entry: int) returns (sys: System,
      regs: Registers)
    requires physfree % PAGE == 0 && Roomy(lo, physfree / PAGE, (base + length) / PAGE) && VIDEO_PAGE < lo
    ensures fresh(sys) && fresh(regs) && regs.cpu == cpu
    ensures sys.Valid() && sys.sched.T() == BootTable() && regs.Valid(sys.sched.used, sys.Current())
    ensures 2 in regs.book && regs.book[2].ret == entry
  {
    hide System.Valid, Registers.Valid, Machine.Valid, LeastFree, ProcessTable.Create;
    var machine := PowerOn(physfree, base, length, lo);
    sys := new System(machine);
    FirstNumbers();
    var pid := sys.Create();
    regs := new Registers(cpu);
    regs.AddProgram(pid, entry, {IDLE}, IDLE);
  }

  lemma FirstNumbers()
    ensures LeastFree({IDLE}, 1) == 2 && {IDLE} + {2} == BootTable().used
    ensures ProcessTable.Create(Table([Proc(IDLE, 0, Running)], {IDLE})) == BootTable()
  {
    BootSteps();
  }
}
