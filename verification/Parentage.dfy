/** Who is whose child, over all runs, also when process numbers are used again. */
module Parentage {
  import opened ProcessTable
  import opened ProcessInvariants

  /** If the new ring has the same members up to changes of state that kill nobody, and parents only
      changed to the idle process, everyone still has a parent. */
  lemma ParentedCarries(t: Table, t': Table)
    requires Parented(t) && LivePids(t.ring) <= LivePids(t'.ring)
    requires forall p' :: p' in t'.ring ==> exists p :: p in t.ring && p.pid == p'.pid && p.ppid == p'.ppid
    ensures Parented(t')
  {
  }

  lemma ExecParented(t: Table)
    requires Parented(t) && t.ring != []
    ensures Parented(Exec(t))
  {
    var r, r' := t.ring, Exec(t).ring;
    forall p' | p' in r' ensures exists p :: p in r && p.pid == p'.pid && p.ppid == p'.ppid {
      var i :| 0 <= i < |r'| && r'[i] == p';
      assert r[i] in r;
    }
    forall x | x in LivePids(r) ensures x in LivePids(r') {
      var p :| p in r && p.state != Zombie && p.pid == x;
      var i :| 0 <= i < |r| && r[i] == p;
      assert r'[i] in r';
    }
    ParentedCarries(t, Exec(t));
  }

  lemma RotateParented(t: Table)
    requires Parented(t) && |t.ring| >= 2
    ensures Parented(Table(Rotated(t.ring), t.used))
  {
  }

  lemma ReapParented(t: Table, k: nat)
    requires Parented(t) && 1 <= k < |t.ring| && t.ring[k].state == Zombie
    ensures Parented(Reap(t, k))
  {
  }

  lemma {:induction false} WaitAllParented(t: Table, k: nat)
    requires Parented(t) && 1 <= k <= |t.ring|
    ensures Parented(WaitAllFrom(t, k))
    decreases |t.ring| - k
  {
    if k < |t.ring| {
      if t.ring[k].state == Zombie {
        ReapParented(t, k);
        WaitAllParented(Reap(t, k), k);
      } else {
        WaitAllParented(t, k + 1);
      }
    }
  }

  lemma ScheduleParented(t: Table)
    requires Inv(t) && Parented(t)
    ensures Parented(Schedule(t))
  {
    ScheduleTurns(t);
    WaitAllParented(t, 1);
    var w := WaitAllFrom(t, 1);
    if |w.ring| > 1 {
      RotateParented(w);
    }
  }

  /** A dying process leaves its children to the idle process, so no zombie is anyone's parent. */
  lemma KillParented(t: Table)
    requires Parented(t) && t.ring != [] && t.ring[0].pid > IDLE
    ensures Parented(Kill(t))
  {
  }

  /** Fork keeps parentage in order exactly when the caller is not itself a zombie; the only way to
      be one and still run is to have killed oneself. */
  lemma ForkParentedIff(t: Table)
    requires Inv(t) && Parented(t) && |t.ring| < MAX_P - 1
    ensures Parented(Fork(t)) <==> t.ring[0].state == Running
  {
    FreePidIff(t);
    hide LeastFree;
    var r, r' := t.ring, Fork(t).ring;
    var child := r'[1];
    assert forall p :: p in r' <==> p == child || p in r;
    assert forall x :: x in LivePids(r') <==> x in LivePids(r) || x == child.pid;
    if r[0].state == Zombie {
      assert child in r';
    }
  }

  /** No zombie forks along the run. */
  ghost predicate Living(t: Table, es: seq<Event>)
    requires Legal(t, es)
    decreases |es|
  {
    es == [] || ((es[0].DoFork? ==> t.ring[0].state == Running) && Living(Apply(t, es[0]), es[1..]))
  }

  lemma StepParented(t: Table, e: Event)
    requires Inv(t) && Parented(t) && Enabled(t, e)
    requires e.DoFork? ==> |t.ring| < MAX_P - 1 && t.ring[0].state == Running
    ensures Parented(Apply(t, e))
  {
    match e
    case DoFork => ForkParentedIff(t);
    case DoExec => ExecParented(t);
    case DoYield => ScheduleParented(t);
    case DoExit => KillKeepsInv(t); KillParented(t); ScheduleParented(Kill(t));
    case DoKill(pid) => if t.ring[0].pid != IDLE { KillParented(t); }
    case DoReap(k) => ReapParented(t, k);
  }

  /** In every state reached without a zombie forking, everyone's parent is alive or the idle process. */
  lemma {:induction false} RunParented(t: Table, es: seq<Event>)
    requires Inv(t) && Parented(t) && Legal(t, es) && Living(t, es)
    ensures Parented(Run(t, es))
    decreases |es|
  {
    if es != [] {
      StepParented(t, es[0]);
      StepKeepsInv(t, es[0]);
      RunParented(Apply(t, es[0]), es[1..]);
    }
  }

  /** After its children have been handed over nobody refers to a zombie's number, so the process
      that gets the number next starts without children. */
  lemma ZombieHasNoChildren(t: Table, z: Proc, p: Proc)
    requires Inv(t) && Parented(t) && z in t.ring && z.state == Zombie && p in t.ring
    ensures p.ppid != z.pid
  {
  }

  /** A number that is given out, for the first time or again, is nobody's parent number. */
  lemma NewNumberHasNoChildren(t: Table, p: Proc)
    requires Inv(t) && Parented(t) && p in Fork(t).ring
    ensures p.ppid != LeastFree(t.used, 1)
  {
    var pid := LeastFree(t.used, 1);
    hide LeastFree, Parented, Inv;
    UsedNumbers(t);
    var r := Fork(t).ring;
    assert p == r[1] || p in t.ring;
    if p in t.ring {
      ParentNumberUsed(t, p);
    }
  }

  lemma UsedNumbers(t: Table)
    requires Inv(t)
    ensures t.ring != [] && t.ring[0].pid in t.used && IDLE in t.used && forall x :: x in t.used ==> x > 0
  {
    PidsMember(t.ring, 0);
  }

  lemma ParentNumberUsed(t: Table, p: Proc)
    requires Inv(t) && Parented(t) && p in t.ring
    ensures p.ppid == 0 || p.ppid in t.used
  {
    UsedNumbers(t);
    if p.ppid in LivePids(t.ring) {
      var q :| q in t.ring && q.pid == p.ppid;
      var i :| 0 <= i < |t.ring| && t.ring[i] == q;
      PidsMember(t.ring, i);
    }
  }

  /** kill of oneself, then fork: init of the boot table ends up as a zombie with a child. */
  lemma SelfKillThenFork()
    ensures var es := [DoYield, DoKill(2), DoFork]; Legal(BootTable(), es) && !Parented(Run(BootTable(), es))
  {
  }
}
