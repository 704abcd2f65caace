/** What every step of the process table keeps, over all runs. */
module ProcessInvariants {
  import opened ProcessTable

  // ----- numbers ---------------------------------------------------------------------------

  lemma {:induction false} PidsCard(ps: seq<Proc>)
    requires Distinct(ps)
    ensures |Pids(ps)| == |ps|
  {
    if ps == [] {
      assert Pids(ps) == {};
    } else {
      var n := |ps| - 1;
      PidsCard(ps[..n]);
      assert Pids(ps) == Pids(ps[..n]) + {ps[n].pid} by {
        forall x ensures x in Pids(ps) <==> x in Pids(ps[..n]) || x == ps[n].pid {
          if x in Pids(ps) {
            var i :| 0 <= i < |ps| && ps[i].pid == x;
            assert i < n ==> ps[..n][i].pid == x;
          }
          if x in Pids(ps[..n]) {
            var i :| 0 <= i < n && ps[..n][i].pid == x;
            assert ps[i].pid == x;
          }
        }
      }
    }
  }

  /** A set of numbers from 1 to n - 1 has n - 1 elements exactly when it is all of them. */
  lemma {:induction false} CountBelow(xs: set<int>, n: nat)
    requires n >= 1 && forall x :: x in xs ==> 1 <= x < n
    ensures |xs| <= n - 1
    ensures |xs| == n - 1 <==> forall k: int :: 1 <= k < n ==> k in xs
  {
    if n == 1 {
      assert xs == {} by {
        assert forall x :: x in xs ==> 1 <= x < 1;
      }
    } else {
      var ys := xs - {n - 1};
      CountBelow(ys, n - 1);
      if n - 1 in xs {
        assert xs == ys + {n - 1};
        assert (forall k: int :: 1 <= k < n ==> k in xs) <==> (forall k: int :: 1 <= k < n - 1 ==> k in ys);
      } else {
        assert xs == ys;
      }
    }
  }

  /** A free number exists exactly while fewer than 999 processes do. */
  lemma FreePidIff(t: Table)
    requires Agree(t)
    ensures |t.ring| <= 999
    ensures LeastFree(t.used, 1) != -1 <==> |t.ring| < 999
  {
    PidsCard(t.ring);
    CountBelow(t.used, MAX_P);
  }

  lemma PidsMember(ps: seq<Proc>, i: nat)
    requires i < |ps|
    ensures ps[i].pid in Pids(ps)
  {
  }

  // ----- fork ------------------------------------------------------------------------------

  lemma InsertPids(r: seq<Proc>, r': seq<Proc>, c: Proc)
    requires r != [] && r' == [r[0], c] + r[1..]
    ensures Pids(r') == Pids(r) + {c.pid}
  {
    forall x | x in Pids(r) ensures x in Pids(r') {
      var i :| 0 <= i < |r| && r[i].pid == x;
      PidsMember(r', if i == 0 then 0 else i + 1);
    }
    PidsMember(r', 1);
    forall x | x in Pids(r') ensures x in Pids(r) + {c.pid} {
      var i :| 0 <= i < |r'| && r'[i].pid == x;
      if i != 1 {
        PidsMember(r, if i == 0 then 0 else i - 1);
      }
    }
  }

  lemma ForkAgrees(t: Table)
    requires Agree(t) && LeastFree(t.used, 1) != -1
    ensures Agree(Fork(t))
  {
    var pid := LeastFree(t.used, 1);
    hide LeastFree, Pids;
    var r, r' := t.ring, Fork(t).ring;
    InsertPids(r, r', r'[1]);
    forall i | 0 <= i < |r| ensures r[i].pid != pid { PidsMember(r, i); }
    forall i | 0 <= i < |r'| && i != 1 ensures r'[i] == r[if i == 0 then 0 else i - 1] {}
  }

  /** Fork keeps ring and number table in agreement exactly while fewer than 999 processes exist. */
  lemma ForkAgreesIff(t: Table)
    requires Agree(t)
    ensures Agree(Fork(t)) <==> |t.ring| < 999
  {
    FreePidIff(t);
    if LeastFree(t.used, 1) != -1 {
      ForkAgrees(t);
    } else {
      assert Fork(t).ring[1].pid == -1;
    }
  }

  /** create_process keeps the agreement exactly when the ring has one process. */
  lemma CreateAgreesIff(t: Table)
    requires Agree(t)
    ensures Agree(Create(t)) <==> |t.ring| == 1
  {
    FreePidIff(t);
    var pid := LeastFree(t.used, 1);
    hide LeastFree;
    var r' := Create(t).ring;
    assert Pids(r') == {t.ring[0].pid, pid} by {
      PidsMember(r', 0);
      PidsMember(r', 1);
    }
    if |t.ring| == 1 {
      assert Pids(t.ring) == {t.ring[0].pid};
    } else {
      PidsMember(t.ring, 1);
    }
  }

  lemma ForkRunner(t: Table)
    requires OneRunner(t)
    ensures OneRunner(Fork(t))
  {
  }

  lemma ForkIdle(t: Table)
    requires IdleLives(t)
    ensures IdleLives(Fork(t))
  {
    hide LeastFree;
    var i :| 0 <= i < |t.ring| && t.ring[i].pid == IDLE && t.ring[i].state != Zombie;
    IdleAt(Fork(t), if i == 0 then 0 else i + 1);
  }

  lemma ForkKeepsInv(t: Table)
    requires Inv(t) && |t.ring| < MAX_P - 1
    ensures Inv(Fork(t))
  {
    hide Agree, OneRunner, IdleLives;
    ForkAgreesIff(t);
    ForkRunner(t);
    ForkIdle(t);
  }

  lemma IdleAt(t: Table, i: nat)
    requires i < |t.ring| && t.ring[i].pid == IDLE && t.ring[i].state != Zombie
    ensures IdleLives(t)
  {
  }

  // ----- reaping ---------------------------------------------------------------------------

  lemma ReapAgrees(t: Table, k: nat)
    requires Agree(t) && 1 <= k < |t.ring|
    ensures Agree(Reap(t, k))
  {
    var r, r' := t.ring, Reap(t, k).ring;
    assert forall i :: 0 <= i < |r'| ==> r'[i] == r[if i < k then i else i + 1];
    forall x ensures x in Pids(r') <==> x in Pids(r) && x != r[k].pid {
      if x in Pids(r) && x != r[k].pid {
        var i :| 0 <= i < |r| && r[i].pid == x;
        assert r'[if i < k then i else i - 1].pid == x;
      }
    }
  }

  lemma ReapKeepsInv(t: Table, k: nat)
    requires Inv(t) && 1 <= k < |t.ring| && t.ring[k].state == Zombie
    ensures Inv(Reap(t, k))
  {
    ReapAgrees(t, k);
    hide Agree;
    var r := t.ring;
    var i :| 0 <= i < |r| && r[i].pid == IDLE && r[i].state != Zombie;
    IdleAt(Reap(t, k), if i < k then i else i - 1);
  }

  lemma {:induction false} WaitAllKeepsInv(t: Table, k: nat)
    requires Inv(t) && 1 <= k <= |t.ring|
    ensures Inv(WaitAllFrom(t, k))
    decreases |t.ring| - k
  {
    if k < |t.ring| {
      if t.ring[k].state == Zombie {
        ReapKeepsInv(t, k);
        WaitAllKeepsInv(Reap(t, k), k);
      } else {
        WaitAllKeepsInv(t, k + 1);
      }
    }
  }

  function Alive(ps: seq<Proc>): seq<Proc> {
    if ps == [] then [] else (if ps[0].state == Zombie then [] else [ps[0]]) + Alive(ps[1..])
  }

  /** wait_all removes exactly the other zombies and keeps everyone else in order. */
  lemma {:induction false} WaitAllRing(t: Table, k: nat)
    requires 1 <= k <= |t.ring|
    ensures WaitAllFrom(t, k).ring == t.ring[..k] + Alive(t.ring[k..])
    decreases |t.ring| - k
  {
    var r := t.ring;
    if k == |r| {
      assert r[k..] == [] && r[..k] == r;
    } else if r[k].state == Zombie {
      WaitAllRing(Reap(t, k), k);
      assert Reap(t, k).ring[..k] == r[..k] && Reap(t, k).ring[k..] == r[k..][1..];
    } else {
      WaitAllRing(t, k + 1);
      assert r[..k + 1] == r[..k] + [r[k]] && r[k + 1..] == r[k..][1..];
    }
  }

  lemma {:induction false} AliveMembers(ps: seq<Proc>)
    ensures forall p :: p in Alive(ps) <==> p in ps && p.state != Zombie
  {
    if ps != [] {
      AliveMembers(ps[1..]);
      assert forall p :: p in ps <==> p == ps[0] || p in ps[1..];
    }
  }

  lemma WaitAllMembers(t: Table)
    requires t.ring != []
    ensures var w := WaitAllFrom(t, 1).ring;
      && w != [] && w[0] == t.ring[0]
      && (forall i :: 1 <= i < |w| ==> w[i] in t.ring[1..] && w[i].state != Zombie)
      && (forall p :: p in w <==> p == t.ring[0] || (p in t.ring[1..] && p.state != Zombie))
  {
    WaitAllRing(t, 1);
    AliveMembers(t.ring[1..]);
    assert t.ring[..1] == [t.ring[0]];
  }

  // ----- the scheduler ---------------------------------------------------------------------

  /** The ring after a switch to the process right behind the running one. */
  function Rotated(ps: seq<Proc>): seq<Proc>
    requires |ps| >= 2
  {
    [ps[1].(state := Running)] + ps[2..] + [Preempt(ps[0])]
  }

  /** Whenever the scheduler runs it picks the immediate successor; it never finds nobody queued,
      and it stays put only when the running process is alone and alive. */
  lemma ScheduleTurns(t: Table)
    requires Inv(t)
    ensures var w := WaitAllFrom(t, 1);
      && Choice(w) == (if |w.ring| == 1 then Alone else Switched)
      && Schedule(t) == (if |w.ring| == 1 then w else Table(Rotated(w.ring), w.used))
      && (|w.ring| == 1 ==> t.ring[0].state == Running)
      && (forall i :: 1 <= i < |w.ring| ==> w.ring[i].state == Queued)
  {
    WaitAllMembers(t);
    WaitAllKeepsInv(t, 1);
    var w := WaitAllFrom(t, 1);
    if |w.ring| > 1 {
      assert w.ring[1].state == Queued;
      assert FirstQueued(w.ring, 1) == 1;
      var r := w.ring[0 := Preempt(w.ring[0])][1 := w.ring[1].(state := Running)];
      assert r[1..] + r[..1] == Rotated(w.ring);
    } else {
      var i :| 0 <= i < |w.ring| && w.ring[i].pid == IDLE && w.ring[i].state != Zombie;
    }
  }

  /** After a switch another process runs, otherwise the same. */
  lemma ScheduleMovesOn(t: Table)
    requires Inv(t)
    ensures Schedule(t).ring != []
    ensures Choice(WaitAllFrom(t, 1)) == Switched <==> Schedule(t).ring[0].pid != t.ring[0].pid
  {
    ScheduleTurns(t);
    WaitAllKeepsInv(t, 1);
    hide Choice, FirstQueued;
  }

  lemma RotateAgrees(t: Table)
    requires Agree(t) && |t.ring| >= 2
    ensures Agree(Table(Rotated(t.ring), t.used))
  {
    var r, r' := t.ring, Rotated(t.ring);
    var n := |r|;
    assert forall i :: 0 <= i < n ==> r'[i].pid == r[if i == n - 1 then 0 else i + 1].pid;
    forall x ensures x in Pids(r') <==> x in Pids(r) {
      if x in Pids(r) {
        var i :| 0 <= i < n && r[i].pid == x;
        assert r'[if i == 0 then n - 1 else i - 1].pid == x;
      }
    }
  }

  lemma RotateKeepsInv(t: Table)
    requires Inv(t) && |t.ring| >= 2 && t.ring[1].state == Queued
    ensures Inv(Table(Rotated(t.ring), t.used))
  {
    RotateAgrees(t);
    hide Agree;
    var r := t.ring;
    var t' := Table(Rotated(r), t.used);
    var i :| 0 <= i < |r| && r[i].pid == IDLE && r[i].state != Zombie;
    IdleAt(t', if i == 0 then |r| - 1 else i - 1);
  }

  lemma ScheduleKeepsInv(t: Table)
    requires Inv(t)
    ensures Inv(Schedule(t))
  {
    ScheduleTurns(t);
    WaitAllKeepsInv(t, 1);
    var w := WaitAllFrom(t, 1);
    if |w.ring| > 1 {
      assert w.ring[1].state == Queued;
      RotateKeepsInv(w);
    }
  }

  /** Changes that leave everyone's number alone keep the agreement. */
  lemma SamePidsAgree(t: Table, t': Table)
    requires Agree(t) && |t'.ring| == |t.ring| && t'.used == t.used
    requires forall i :: 0 <= i < |t.ring| ==> t'.ring[i].pid == t.ring[i].pid
    ensures Agree(t')
  {
  }

  lemma KillPlaces(t: Table)
    requires |t.ring| >= 2
    ensures var r := Kill(t).ring;
      && |r| == |t.ring| && Kill(t).used == t.used && r[0] == t.ring[0].(state := Zombie)
      && forall i :: 1 <= i < |r| ==> r[i] == Orphan(t.ring[i], t.ring[0].pid)
  {
  }

  lemma KillKeepsInv(t: Table)
    requires Inv(t) && t.ring[0].pid != IDLE
    ensures Inv(Kill(t))
  {
    hide Agree;
    if |t.ring| == 1 {
      return;
    }
    KillPlaces(t);
    hide Kill;
    SamePidsAgree(t, Kill(t));
    var i :| 0 <= i < |t.ring| && t.ring[i].pid == IDLE && t.ring[i].state != Zombie;
    IdleAt(Kill(t), i);
  }

  lemma ExecKeepsInv(t: Table)
    requires Inv(t)
    ensures Inv(Exec(t))
  {
    SamePidsAgree(t, Exec(t));
    hide Agree;
    var i :| 0 <= i < |t.ring| && t.ring[i].pid == IDLE && t.ring[i].state != Zombie;
    IdleAt(Exec(t), i);
  }

  // ----- runs ------------------------------------------------------------------------------

  /** Every step keeps the invariant, fork as long as there are fewer than 999 processes. */
  lemma StepKeepsInv(t: Table, e: Event)
    requires Inv(t) && Enabled(t, e) && (e.DoFork? ==> |t.ring| < MAX_P - 1)
    ensures Inv(Apply(t, e))
  {
    match e
    case DoFork => ForkKeepsInv(t);
    case DoExec => ExecKeepsInv(t);
    case DoYield => ScheduleKeepsInv(t);
    case DoExit => KillKeepsInv(t); ScheduleKeepsInv(Kill(t));
    case DoKill(pid) => if t.ring[0].pid != IDLE { KillKeepsInv(t); }
    case DoReap(k) => ReapKeepsInv(t, k);
  }

  /** The events can happen one after the other without running out of process numbers. */
  ghost predicate Legal(t: Table, es: seq<Event>)
    decreases |es|
  {
    es == [] ||
    (t.ring != [] && Enabled(t, es[0]) && (es[0].DoFork? ==> |t.ring| < MAX_P - 1) && Legal(Apply(t, es[0]), es[1..]))
  }

  ghost function Run(t: Table, es: seq<Event>): Table
    requires Legal(t, es)
    decreases |es|
  {
    if es == [] then t else Run(Apply(t, es[0]), es[1..])
  }

  /** After boot: the idle process runs, init is queued. */
  function BootTable(): Table {
    Table([Proc(IDLE, 0, Running), Proc(2, 0, Queued)], {IDLE, 2})
  }

  lemma BootInv()
    ensures Inv(BootTable()) && Parented(BootTable())
  {
    var t := BootTable();
    IdleAt(t, 0);
    assert t.ring[0].pid == 1 && t.ring[1].pid == 2;
    assert Pids(t.ring) == {1, 2};
  }

  /** In every reachable state ring and number table agree, at most the head of the ring is running,
      and the idle process is alive. */
  lemma {:induction false} RunKeepsInv(t: Table, es: seq<Event>)
    requires Inv(t) && Legal(t, es)
    ensures Inv(Run(t, es))
    decreases |es|
  {
    if es != [] {
      StepKeepsInv(t, es[0]);
      RunKeepsInv(Apply(t, es[0]), es[1..]);
    }
  }
}
