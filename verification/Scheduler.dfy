/** The process structures themselves, linked in a ring by `next`, and the code that relinks them. */
module Scheduler {
  import opened ProcessTable
  import opened ProcessInvariants

  class Process {
    var pid: int
    var ppid: int
    var state: PState
    var next: Process?

    constructor (pid: int, ppid: int, state: PState)
      ensures this.pid == pid && this.ppid == ppid && this.state == state && next == null
    {
      this.pid, this.ppid, this.state, next := pid, ppid, state, null;
    }

    ghost predicate Holds(p: Proc)
      reads this
    {
      pid == p.pid && ppid == p.ppid && state == p.state
    }
  }

  function Succ(i: nat, n: nat): (j: nat)
    requires i < n
    ensures j < n
  {
    if i + 1 == n then 0 else i + 1
  }

  /** Where the elements of a sequence are once it has been turned by k places. */
  function Turned(i: nat, k: nat, n: nat): (j: nat)
    requires i < n && k < n
    ensures j < n
  {
    if i + k < n then i + k else i + k - n
  }

  lemma TurnedSucc(i: nat, k: nat, n: nat)
    requires i < n && k < n
    ensures Turned(Succ(i, n), k, n) == Succ(Turned(i, k, n), n)
  {
  }

  lemma TurnedAt<X>(s: seq<X>, k: nat, i: nat)
    requires k < |s| && i < |s|
    ensures (s[k..] + s[..k])[i] == s[Turned(i, k, |s|)]
  {
  }

  lemma TurnedDistinct<X>(s: seq<X>, k: nat)
    requires k < |s| && forall i, j :: 0 <= i < j < |s| ==> s[i] != s[j]
    ensures var t := s[k..] + s[..k]; forall i, j :: 0 <= i < j < |t| ==> t[i] != t[j]
  {
  }

  /** The idle process alone, and create_process from there, give the table the runs start from. */
  lemma BootSteps()
    ensures LeastFree({}, 1) == IDLE
    ensures Create(Table([Proc(IDLE, 0, Running)], {IDLE})) == BootTable()
  {
  }

  lemma WaitAllStep(t: Table, k: nat)
    requires 1 <= k < |t.ring|
    ensures WaitAllFrom(t, k) == if t.ring[k].state == Zombie then WaitAllFrom(Reap(t, k), k) else WaitAllFrom(t, k + 1)
  {
  }

  lemma WaitAllEnd(t: Table)
    requires t.ring != []
    ensures WaitAllFrom(t, |t.ring|) == t
  {
  }

  class Kernel {
    var current: Process
    const processes: array<bool>

    ghost var ring: seq<Process>  // from the running process on, in `next` order
    ghost var procs: seq<Proc>    // what they hold
    ghost var used: set<int>
    ghost var repr: set<Process>

    ghost function T(): Table
      reads this
    {
      Table(procs, used)
    }

    ghost predicate Linked()
      reads this, repr
    {
      && ring != [] && ring[0] == current
      && (forall i :: 0 <= i < |ring| ==> ring[i] in repr)
      && (forall i, j :: 0 <= i < j < |ring| ==> ring[i] != ring[j])
      && (forall i :: 0 <= i < |ring| ==> ring[i].next == ring[Succ(i, |ring|)])
    }

    ghost predicate Mirrored()
      reads this, repr
    {
      |ring| == |procs| && forall i :: 0 <= i < |ring| ==> ring[i] in repr && ring[i].Holds(procs[i])
    }

    ghost predicate Marked()
      reads this, processes
    {
      && processes.Length == MAX_P
      && (forall k :: 0 <= k < MAX_P ==> (processes[k] <==> k in used))
      && (forall k :: k in used ==> 0 <= k < MAX_P)
    }

    ghost predicate Valid()
      reads this, repr, processes
    {
      Linked() && Mirrored() && Marked()
    }

    /** init_processes and init_idle_process: the idle process is alone and runs. */
    constructor ()
      ensures Valid() && T() == Table([Proc(IDLE, 0, Running)], {IDLE}) && fresh(processes) && fresh(repr)
    {
      processes := new bool[MAX_P](k => k == IDLE);
      var idle := new Process(IDLE, 0, Running);
      current := idle;
      ring, procs, used, repr := [idle], [Proc(IDLE, 0, Running)], {IDLE}, {idle};
      new;
      idle.next := idle;
    }

    /** getPID. */
    method GetPid() returns (pid: int)
      requires Marked()
      modifies processes, `used
      ensures Marked() && pid == LeastFree(old(used), 1) && used == Mark(old(used), pid)
    {
      var i := 1;
      while i < MAX_P
        invariant 1 <= i <= MAX_P && Marked() && used == old(used)
        invariant LeastFree(used, 1) == LeastFree(used, i)
      {
        if !processes[i] {
          processes[i] := true;
          used := used + {i};
          return i;
        }
        i := i + 1;
      }
      return -1;
    }

    method CurrentPid() returns (pid: int)
      requires Valid()
      ensures pid == T().ring[0].pid
    {
      pid := current.pid;
    }

    /** Put a process right behind the running one. */
    method InsertBehind(child: Process)
      requires Linked() && child !in ring
      modifies current`next, child`next, `ring, `repr
      ensures repr == old(repr) + {child}
      ensures Linked() && ring == [old(ring)[0], child] + old(ring)[1..]
    {
      var last := current.next;
      current.next := child;
      child.next := last;
      ghost var r := ring;
      ring, repr := [r[0], child] + r[1..], repr + {child};
      forall i | 0 <= i < |ring| ensures ring[i].next == ring[Succ(i, |ring|)] {
        if i > 1 {
          assert ring[i] == r[i - 1];
        }
      }
    }

    /** The ring part of fork and copy_process. */
    method ForkProcess() returns (child: Process)
      requires Valid()
      modifies this, repr, processes
      ensures Valid() && T() == Fork(old(T()))
      ensures fresh(child) && repr == old(repr) + {child} && ring == [old(ring)[0], child] + old(ring)[1..]
      ensures child.pid == LeastFree(old(used), 1)
    {
      hide LeastFree;
      var pid := GetPid();
      child := new Process(pid, current.pid, Queued);
      InsertBehind(child);
      procs := [procs[0], Proc(pid, procs[0].pid, Queued)] + procs[1..];
    }
  
    /** create_process, which links the new process and the running one to each other and so drops
        everybody else from the ring; see CreateAgreesIff. */
    method CreateProcess() returns (p: Process)
      requires Valid()
      modifies this, repr, processes
      ensures Valid() && fresh(p) && repr == old(repr) + {p} && ring == [old(ring)[0], p] && T() == Create(old(T()))
      ensures p.pid == LeastFree(old(used), 1)
    {
      hide LeastFree;
      var pid := GetPid();
      p := new Process(pid, 0, Queued);
      current.next := p;
      p.next := current;
      repr := repr + {p};
      ring, procs := [current, p], [procs[0], Proc(pid, 0, Queued)];
    }

    /** The structure before the running one in the ring. */
    method FindLast() returns (last: Process)
      requires Linked()
      ensures last == ring[|ring| - 1]
    {
      last := current.next;
      ghost var k := Succ(0, |ring|);
      while last.next != current
        invariant 0 <= k < |ring| && last == ring[k]
        decreases |ring| - k
      {
        last := last.next;
        k := k + 1;
      }
    }

    /** Put p in the place of the running process. */
    method Replace(p: Process)
      requires Linked() && p !in ring
      modifies repr`next, p`next, `ring, `repr, `current
      ensures repr == old(repr) + {p} && ring == old(ring)[0 := p] && Linked()
    {
      var last := FindLast();
      last.next := p;
      p.next := current.next;
      current := p;
      ghost var r := ring;
      ring, repr := r[0 := p], repr + {p};
      forall i | 0 <= i < |ring| ensures ring[i].next == ring[Succ(i, |ring|)] {
        if i > 0 {
          assert ring[i] == r[i];
        }
      }
    }

    /** The ring part of exec: a new structure takes the place of the running one. */
    method ExecProcess() returns (p: Process)
      requires Valid()
      modifies this, repr
      ensures Valid() && T() == Exec(old(T()))
      ensures fresh(p) && repr == old(repr) + {p} && ring == old(ring)[0 := p]
      ensures p.pid == old(current.pid) && p.ppid == old(current.ppid) && p.state == Running
    {
      p := new Process(current.pid, current.ppid, Running);
      Replace(p);
      procs := procs[0 := procs[0].(state := Running)];
    }

    /** The search of reap_process: the structure before the one to be removed. */
    method FindBefore(process: Process, ghost k: nat) returns (prev: Process)
      requires Linked() && 1 <= k < |ring| && ring[k] == process
      ensures prev == ring[k - 1]
    {
      var it := current.next;
      prev := current;
      ghost var i := 1;
      while it != process
        invariant 1 <= i <= k && it == ring[i] && prev == ring[i - 1]
        decreases k - i
      {
        prev := it;
        it := it.next;
        i := i + 1;
      }
    }

    /** Unlink the process k places behind the running one, whose structure is `process`. */
    method Unlink(process: Process, ghost k: nat)
      requires Linked() && 1 <= k < |ring| && ring[k] == process
      modifies repr`next, `ring
      ensures Linked() && ring == old(ring)[..k] + old(ring)[k + 1..] && current == old(current)
    {
      var prev := FindBefore(process, k);
      ghost var r := ring;
      prev.next := process.next;
      ring := r[..k] + r[k + 1..];
      forall j | 0 <= j < |ring| ensures ring[j].next == ring[Succ(j, |ring|)] {
        assert ring[j] == r[if j < k then j else j + 1];
      }
    }

    ghost predicate InRange()
      reads this
    {
      forall i :: 0 <= i < |procs| ==> 0 <= procs[i].pid < MAX_P
    }

    /** reap_process. */
    method ReapProcess(process: Process, ghost k: nat)
      requires Valid() && 1 <= k < |ring| && ring[k] == process && InRange()
      modifies repr`next, `ring, `procs, `used, processes
      ensures Valid() && T() == Reap(old(T()), k) && InRange()
      ensures ring == old(ring)[..k] + old(ring)[k + 1..] && current == old(current)
    {
      var pid := process.pid;
      assert pid == procs[k].pid;
      Unlink(process, k);
      WithoutMirrored(old(ring), procs, k);
      processes[pid] := false;
      used := used - {pid};
      procs := procs[..k] + procs[k + 1..];
    }

    static lemma WithoutMirrored(r: seq<Process>, p: seq<Proc>, k: nat)
      requires k < |r| == |p| && forall i :: 0 <= i < |r| ==> r[i].Holds(p[i])
      ensures var t, q := r[..k] + r[k + 1..], p[..k] + p[k + 1..];
        |t| == |q| && (forall i :: 0 <= i < |t| ==> t[i].Holds(q[i])) && forall x :: x in q ==> x in p
    {
    }

    /** wait_all. */
    method WaitAll()
      requires Valid() && InRange()
      modifies repr`next, `ring, `procs, `used, processes
      ensures Valid() && T() == WaitAllFrom(old(T()), 1) && InRange()
    {
      hide WaitAllFrom, Reap;
      var it, prev := current.next, current;
      ghost var k := 1;
      while it != current
        invariant Valid() && InRange() && current == old(current) && 1 <= k <= |ring|
        invariant prev == ring[k - 1] && it == if k == |ring| then current else ring[k]
        invariant WaitAllFrom(T(), k) == WaitAllFrom(old(T()), 1)
        decreases |ring| - k
      {
        WaitAllStep(T(), k);
        if it.state == Zombie {
          ReapProcess(it, k);
          it := prev.next;
        } else {
          prev := it;
          it := it.next;
          k := k + 1;
        }
      }
      WaitAllEnd(T());
    }
  
    /** The search of switch_process: the first queued process behind the running one. */
    method FindQueued() returns (cand: Process, ghost k: nat)
      requires Valid()
      ensures k == FirstQueued(procs, 1)
      ensures if k == |ring| then cand == current else cand == ring[k] && k > 0
    {
      cand := current.next;
      k := 1;
      while cand != current && cand.state != Queued
        invariant 1 <= k <= |ring| && cand == if k == |ring| then current else ring[k]
        invariant FirstQueued(procs, 1) == FirstQueued(procs, k)
        decreases |ring| - k
      {
        cand := cand.next;
        k := k + 1;
      }
    }

    static lemma TurnsLinked(r: seq<Process>, k: nat)
      requires k < |r| && forall i :: 0 <= i < |r| ==> r[i].next == r[Succ(i, |r|)]
      ensures var t := r[k..] + r[..k]; |t| == |r| && forall i :: 0 <= i < |t| ==> t[i].next == t[Succ(i, |t|)]
    {
      var t, n := r[k..] + r[..k], |r|;
      forall i | 0 <= i < n ensures t[i].next == t[Succ(i, n)] {
        TurnedAt(r, k, i);
        TurnedAt(r, k, Succ(i, n));
        TurnedSucc(i, k, n);
      }
    }

    static lemma TurnsMirrored(r: seq<Process>, p: seq<Proc>, k: nat)
      requires k < |r| == |p| && forall i :: 0 <= i < |r| ==> r[i].Holds(p[i])
      ensures var t, q := r[k..] + r[..k], p[k..] + p[..k]; |t| == |q| && forall i :: 0 <= i < |t| ==> t[i].Holds(q[i])
    {
      var t, q := r[k..] + r[..k], p[k..] + p[..k];
      forall i | 0 <= i < |t| ensures t[i].Holds(q[i]) {
        TurnedAt(r, k, i);
        TurnedAt(p, k, i);
      }
    }

    /** Hand over to the process k places on. */
    method MakeCurrent(cand: Process, ghost k: nat)
      requires Valid() && k < |ring| && cand == ring[k]
      modifies `current, `ring, `procs
      ensures Valid() && ring == old(ring)[k..] + old(ring)[..k] && procs == old(procs)[k..] + old(procs)[..k]
    {
      TurnsLinked(ring, k);
      TurnsMirrored(ring, procs, k);
      TurnedDistinct(ring, k);
      current := cand;
      ghost var r, p := ring, procs;
      ring, procs := r[k..] + r[..k], p[k..] + p[..k];
    }

    /** The running process is queued again, unless it is a zombie, and cand is marked running. */
    method HandOver(cand: Process, ghost k: nat)
      requires Valid() && 1 <= k < |ring| && cand == ring[k] && current.state != Queued
      modifies current`state, cand`state, `procs
      ensures Valid() && procs == old(procs)[0 := Preempt(old(procs)[0])][k := old(procs)[k].(state := Running)]
      ensures procs[0] ==
        Proc(old(current.pid), old(current.ppid), if old(current.state) == Zombie then Zombie else Queued)
    {
      if current.state == Running {
        current.state := Queued;
      }
      cand.state := Running;
      procs := procs[0 := Preempt(procs[0])][k := procs[k].(state := Running)];
    }

    /** switch_process.  With nobody queued it creates a shell; see ScheduleTurns. */
    method SwitchProcess() returns (o: Outcome)
      requires Valid()
      modifies this, repr, processes
      ensures Valid() && o == Choice(old(T())) && T() == Switch(old(T()))
      ensures o != NobodyQueued ==> repr == old(repr)
    {
      hide LeastFree;
      if current == current.next {
        return Alone;
      }
      ghost var k;
      var cand;
      cand, k := FindQueued();
      if cand == current {
        var shell := CreateProcess();
        return NobodyQueued;
      }
      if current.state != Running && current.state != Zombie {
        return BadState;
      }
      HandOver(cand, k);
      MakeCurrent(cand, k);
      return Switched;
    }
  
    /** scheduler. */
    method Schedule() returns (o: Outcome)
      requires Valid() && Inv(T())
      modifies this, repr, processes
      ensures Valid() && T() == ProcessTable.Schedule(old(T())) && Inv(T()) && repr == old(repr)
      ensures o == Switched || (o == Alone && T().ring[0].state == Running)
      ensures o == Switched <==> T().ring[0].pid != old(T()).ring[0].pid
    {
      ghost var t := T();
      ScheduleMovesOn(t);
      ScheduleTurns(t);
      ScheduleKeepsInv(t);
      hide Inv, WaitAllFrom;
      WaitAll();
      o := SwitchProcess();
    }

    /** The loop of kill_process: the children of the running process go to the idle process. */
    method HandOverChildren()
      requires Valid()
      modifies repr`ppid, `procs
      ensures Valid() && procs == [old(procs)[0]] + Orphans(old(procs)[1..], old(procs)[0].pid)
    {
      ghost var p := procs;
      var it := current.next;
      ghost var i := 1;
      while it != current
        invariant 1 <= i <= |ring| == |p| && it == (if i == |ring| then current else ring[i])
        invariant forall j :: 0 <= j < |ring| ==> ring[j].Holds(if 1 <= j < i then Orphan(p[j], p[0].pid) else p[j])
        decreases |ring| - i
      {
        if it.ppid == current.pid {
          it.ppid := IDLE;
        }
        it := it.next;
        i := i + 1;
      }
      procs := [p[0]] + Orphans(p[1..], p[0].pid);
    }

    /** kill_process, which acts on the running process. */
    method KillProcess()
      requires Valid()
      modifies this, repr
      ensures Valid() && T() == Kill(old(T())) && repr == old(repr) && ring == old(ring)
    {
      if current.next == current {
        return;
      }
      ghost var t := T();
      KillPlaces(t);
      HandOverChildren();
      hide Kill;
      current.state := Zombie;
      procs := Kill(t).ring;
      forall i | 0 <= i < |ring| ensures ring[i].Holds(procs[i]) {}
    }

    /** Is pid the number of a process other than the running one? */
    method ElsewhereInRing(pid: int) returns (found: bool)
      requires Valid()
      ensures found <==> exists i :: 1 <= i < |procs| && procs[i].pid == pid
    {
      var it := current.next;
      ghost var i := 1;
      while it != current
        invariant 1 <= i <= |ring| && it == (if i == |ring| then current else ring[i])
        invariant forall j :: 1 <= j < i ==> procs[j].pid != pid
        decreases |ring| - i
      {
        if it.pid == pid {
          return true;
        }
        it := it.next;
        i := i + 1;
      }
      return false;
    }

    /** kill_kern: 0 when the running process has been killed, else -1. */
    method KillKernel(pid: int) returns (r: int)
      requires Valid() && Agree(T())
      modifies this, repr
      ensures Valid() && T() == KillKern(old(T()), pid) && repr == old(repr)
      ensures r == if pid == old(current.pid) && pid != IDLE && |ring| > 1 then 0 else -1
    {
      PidsMember(procs, 0);
      if pid <= 0 || pid >= MAX_P || pid == IDLE || !processes[pid] {
        return -1;
      }
      if current == current.next && current.pid == pid {
        return -1;
      }
      var elsewhere := ElsewhereInRing(pid);
      if elsewhere || current.pid != pid {
        return -1;
      }
      hide Kill;
      KillProcess();
      return 0;
    }

    /** exit_current_process. */
    method ExitCurrentProcess() returns (o: Outcome)
      requires Valid() && Inv(T()) && T().ring[0].pid != IDLE
      modifies this, repr, processes
      ensures Valid() && T() == Apply(old(T()), DoExit) && Inv(T()) && repr == old(repr)
      ensures o == Switched <==> T().ring[0].pid != old(T()).ring[0].pid
    {
      KillKeepsInv(T());
      hide Inv, ProcessTable.Schedule, Kill;
      KillProcess();
      o := Schedule();
    }
  
    /** One pass of the loop in wait: reap the first child that is a zombie.  The result is its number,
        or -1, and then whether there is a child at all to wait for. */
    method WaitScan() returns (pid: int, childExists: bool, ghost k: nat)
      requires Valid() && InRange()
      modifies repr`next, `ring, `procs, `used, processes
      ensures Valid() && InRange()
      ensures 1 <= k <= |old(procs)|
      ensures k < |old(procs)| ==>
        Enabled(old(T()), DoReap(k)) && T() == Apply(old(T()), DoReap(k)) && pid == old(procs)[k].pid && childExists
      ensures k == |old(procs)| ==> T() == old(T()) && pid == -1
      ensures k == |old(procs)| ==> (childExists <==> exists i :: 1 <= i < |procs| && procs[i].ppid == procs[0].pid)
      ensures forall i :: 1 <= i < k ==> !(old(procs)[i].ppid == old(procs)[0].pid && old(procs)[i].state == Zombie)
    {
      var it := current.next;
      k := 1;
      childExists := false;
      while it != current
        invariant 1 <= k <= |ring| && it == (if k == |ring| then current else ring[k])
        invariant childExists <==> exists i :: 1 <= i < k && procs[i].ppid == procs[0].pid
        invariant forall i :: 1 <= i < k ==> !(procs[i].ppid == procs[0].pid && procs[i].state == Zombie)
        decreases |ring| - k
      {
        if it.ppid == current.pid {
          childExists := true;
          if it.state == Zombie {
            pid := it.pid;
            ReapProcess(it, k);
            return;
          }
        }
        it := it.next;
        k := k + 1;
      }
      pid := -1;
    }
  }
}
