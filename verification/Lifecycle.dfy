/** What the steps do to each process: who its parent is, and what becomes of it when it forks,
    executes, is switched away from, exits and is reaped. */
module Lifecycle {
  import opened ProcessTable
  import opened ProcessInvariants

  // ----- fork, exec and kill, place by place ------------------------------------------------------

  /** The child is right behind the caller, queued, with the caller as its parent and a number nobody
      has; everyone else is as before. */
  lemma ForkPlaces(t: Table)
    requires Inv(t) && |t.ring| < MAX_P - 1
    ensures var r := Fork(t).ring;
      && |r| == |t.ring| + 1 && r[0] == t.ring[0] && r[2..] == t.ring[1..]
      && r[1].ppid == t.ring[0].pid && r[1].state == Queued && r[1].pid !in t.used
      && Fork(t).used == t.used + {r[1].pid}
  {
    FreePidIff(t);
  }

  /** Exec leaves everyone's number and parent alone, and everything about the others; its caller runs. */
  lemma ExecPlaces(t: Table)
    requires t.ring != []
    ensures var t' := Apply(t, DoExec);
      && t'.used == t.used && |t'.ring| == |t.ring| && t'.ring[1..] == t.ring[1..]
      && t'.ring[0].pid == t.ring[0].pid && t'.ring[0].ppid == t.ring[0].ppid && t'.ring[0].state == Running
  {
  }

  /** So exec changes neither who is whose child, nor who among the others is a zombie, nor whom its
      caller can reap. */
  lemma ExecKeepsFamily(t: Table, k: nat)
    requires t.ring != []
    ensures var t' := Apply(t, DoExec);
      && (forall i, j :: 0 <= i < |t.ring| && 0 <= j < |t.ring| ==>
          (t'.ring[i].ppid == t'.ring[j].pid <==> t.ring[i].ppid == t.ring[j].pid))
      && (forall i :: 1 <= i < |t.ring| ==> t'.ring[i].state == t.ring[i].state)
      && (Enabled(t', DoReap(k)) <==> Enabled(t, DoReap(k)))
  {
    ExecPlaces(t);
    var r, r' := t.ring, Exec(t).ring;
    forall i | 1 <= i < |r| ensures r'[i] == r[i] {
      assert r'[i] == r'[1..][i - 1];
    }
    hide Exec;
  }

  /** Killing: the caller is a zombie with the number and parent it had, its children are the idle
      process's, and nothing else changes. */
  lemma KillHandsOver(t: Table)
    requires |t.ring| >= 2
    ensures var r, p := Kill(t).ring, t.ring[0];
      && Kill(t).used == t.used && |r| == |t.ring| && r[0] == Proc(p.pid, p.ppid, Zombie)
      && forall i :: 1 <= i < |r| ==>
        && r[i].pid == t.ring[i].pid && r[i].state == t.ring[i].state
        && r[i].ppid == if t.ring[i].ppid == p.pid then 1 else t.ring[i].ppid
  {
    KillPlaces(t);
  }

  /** kill(pid) does that to the running process, if it is not number 1, and nothing to any other. */
  lemma KillByNumber(t: Table, pid: int)
    requires Inv(t)
    ensures Apply(t, DoKill(pid)) == if pid == t.ring[0].pid && pid != 1 then Kill(t) else t
    ensures pid == t.ring[0].pid && pid != 1 ==> |t.ring| >= 2
  {
    PidsMember(t.ring, 0);
  }

  // ----- leaving the processor --------------------------------------------------------------------

  /** The scheduler, if it switches, puts its caller at the end of the ring with the number and parent
      it had: queued if it was running, a zombie if it was one.  It runs on only if it is alone. */
  lemma CallerGoesLast(t: Table)
    requires Inv(t)
    ensures var r, p := Schedule(t).ring, t.ring[0];
      && r != [] && r[0].state == Running
      && (|r| > 1 ==> r[|r| - 1] == Proc(p.pid, p.ppid, if p.state == Zombie then Zombie else Queued))
      && (|r| == 1 ==> r[0] == p)
  {
    ScheduleTurns(t);
    WaitAllMembers(t);
  }

  /** After exit the process is at the end of the ring, a zombie with the number and parent it had, and
      somebody else runs. */
  lemma ExitLeavesZombie(t: Table)
    requires Inv(t) && t.ring[0].pid != IDLE
    ensures var r, p := Apply(t, DoExit).ring, t.ring[0];
      |r| > 1 && r[|r| - 1] == Proc(p.pid, p.ppid, Zombie) && r[0].state == Running && r[0].pid != p.pid
  {
    KillHandsOver(t);
    KillKeepsInv(t);
    ScheduleKeepsInv(Kill(t));
    CallerGoesLast(Kill(t));
    hide Schedule, Kill;
  }

  // ----- zombies stay zombies ---------------------------------------------------------------------

  /** Number pid is in use, and whoever has it is a zombie. */
  ghost predicate ZombieIs(t: Table, pid: int) {
    pid in t.used && forall p :: p in t.ring && p.pid == pid ==> p.state == Zombie
  }

  /** The event is an exec by process pid. */
  predicate ExecBy(t: Table, e: Event, pid: int)
    requires t.ring != []
  {
    e.DoExec? && t.ring[0].pid == pid
  }

  /** The scheduler leaves a zombie it does not reap a zombie, and reaps every one but its caller. */
  lemma ScheduleKeepsZombie(t: Table, pid: int)
    requires Inv(t) && ZombieIs(t, pid)
    ensures var t' := Schedule(t);
      && (pid in t'.used <==> pid == t.ring[0].pid)
      && (pid in t'.used ==> ZombieIs(t', pid))
  {
    var w, t' := WaitAllFrom(t, 1), Schedule(t);
    ScheduleTurns(t);
    WaitAllMembers(t);
    WaitAllKeepsInv(t, 1);
    ScheduleKeepsInv(t);
    hide WaitAllFrom, Schedule, Choice, Inv;
    assert w.used == Pids(w.ring) && t'.used == Pids(t'.ring) && t'.used == w.used by {
      assert Inv(w) && Inv(t');
    }
  }

  lemma KillKeepsZombie(t: Table, pid: int)
    requires t.ring != [] && ZombieIs(t, pid)
    ensures ZombieIs(Kill(t), pid)
  {
    if |t.ring| >= 2 {
      KillHandsOver(t);
      var r := Kill(t).ring;
      hide Kill;
      forall p | p in r && p.pid == pid ensures p.state == Zombie {
        var i :| 0 <= i < |r| && r[i] == p;
        assert t.ring[i] in t.ring;
      }
    }
  }

  lemma ForkKeepsZombie(t: Table, pid: int)
    requires Inv(t) && |t.ring| < MAX_P - 1 && ZombieIs(t, pid)
    ensures ZombieIs(Fork(t), pid)
  {
    ForkPlaces(t);
  }

  /** One step: a zombie stays a zombie until it is reaped, unless it executes. */
  lemma StepKeepsZombie(t: Table, e: Event, pid: int)
    requires Inv(t) && Enabled(t, e) && (e.DoFork? ==> |t.ring| < MAX_P - 1)
    requires ZombieIs(t, pid) && !ExecBy(t, e, pid)
    ensures pid in Apply(t, e).used ==> ZombieIs(Apply(t, e), pid)
  {
    match e
    case DoFork => ForkKeepsZombie(t, pid);
    case DoExec =>
    case DoYield => ScheduleKeepsZombie(t, pid);
    case DoExit => KillKeepsZombie(t, pid); KillKeepsInv(t); ScheduleKeepsZombie(Kill(t), pid);
    case DoKill(_) => KillKeepsZombie(t, pid);
    case DoReap(_) =>
  }

  /** At some point of the run process pid executes or its number is given up. */
  ghost predicate Released(t: Table, es: seq<Event>, pid: int)
    requires Legal(t, es)
    decreases |es|
  {
    es != [] && (ExecBy(t, es[0], pid) || pid !in Apply(t, es[0]).used || Released(Apply(t, es[0]), es[1..], pid))
  }

  /** Over every legal run: a zombie is still one at the end, unless it executed or was reaped. */
  lemma {:induction false} ZombieRun(t: Table, es: seq<Event>, pid: int)
    requires Inv(t) && Legal(t, es) && ZombieIs(t, pid)
    ensures ZombieIs(Run(t, es), pid) || Released(t, es, pid)
    decreases |es|
  {
    if es != [] && !ExecBy(t, es[0], pid) && pid in Apply(t, es[0]).used {
      StepKeepsZombie(t, es[0], pid);
      StepKeepsInv(t, es[0]);
      ZombieRun(Apply(t, es[0]), es[1..], pid);
    }
  }

  // ----- what exit frees --------------------------------------------------------------------------

  /** The events that call the scheduler. */
  predicate Schedules(e: Event) {
    e.DoYield? || e.DoExit?
  }

  /** Only the scheduler changes who is at the head of the ring. */
  lemma HeadStays(t: Table, e: Event)
    requires t.ring != [] && Enabled(t, e) && !Schedules(e)
    ensures Apply(t, e).ring != [] && Apply(t, e).ring[0].pid == t.ring[0].pid
  {
  }

  /** A zombie that is not at the head of the ring is gone after the next scheduler call. */
  lemma ScheduleFrees(t: Table, e: Event, pid: int)
    requires Inv(t) && Enabled(t, e) && Schedules(e) && ZombieIs(t, pid) && t.ring[0].pid != pid
    ensures pid !in Apply(t, e).used
  {
    if e.DoExit? {
      KillKeepsZombie(t, pid);
      KillKeepsInv(t);
      ScheduleKeepsZombie(Kill(t), pid);
    } else {
      ScheduleKeepsZombie(t, pid);
    }
  }

  /** The process itself cannot execute while it is not at the head, so in a run without scheduler
      calls it is there to be freed by the next one, unless wait reaped it before. */
  lemma {:induction false} NextScheduleFrees(t: Table, es: seq<Event>, e: Event, pid: int)
    requires Inv(t) && Legal(t, es) && ZombieIs(t, pid) && t.ring[0].pid != pid
    requires forall i :: 0 <= i < |es| ==> !Schedules(es[i])
    requires Run(t, es).ring != [] && Enabled(Run(t, es), e) && Schedules(e)
    ensures pid !in Apply(Run(t, es), e).used || Released(t, es, pid)
    decreases |es|
  {
    if es == [] {
      ScheduleFrees(t, e, pid);
    } else if pid in Apply(t, es[0]).used {
      StepKeepsZombie(t, es[0], pid);
      StepKeepsInv(t, es[0]);
      HeadStays(t, es[0]);
      NextScheduleFrees(Apply(t, es[0]), es[1..], e, pid);
    }
  }

  /** After exit, whatever happens until the scheduler is called again, that call leaves the number
      free, unless wait did so before. */
  lemma ExitFrees(t: Table, es: seq<Event>, e: Event)
    requires Inv(t) && t.ring[0].pid != IDLE && Legal(Apply(t, DoExit), es)
    requires forall i :: 0 <= i < |es| ==> !Schedules(es[i])
    requires var u := Run(Apply(t, DoExit), es); u.ring != [] && Enabled(u, e) && Schedules(e)
    ensures var t1, pid := Apply(t, DoExit), t.ring[0].pid;
      pid !in Apply(Run(t1, es), e).used || Released(t1, es, pid)
  {
    var t1, pid := Apply(t, DoExit), t.ring[0].pid;
    ExitLeavesZombie(t);
    StepKeepsInv(t, DoExit);
    hide Apply;
    PidsMember(t1.ring, |t1.ring| - 1);
    assert ZombieIs(t1, pid);
    NextScheduleFrees(t1, es, e, pid);
  }
}
