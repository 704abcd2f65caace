/** How long a queued process can be kept waiting. */
module Waiting {
  import opened ProcessTable
  import opened ProcessInvariants

  /** How many switches to the next process it takes to reach process q. */
  function Place(ps: seq<Proc>, q: int): (n: nat)
    ensures n <= |ps|
    ensures n < |ps| ==> ps[n].pid == q
    ensures forall i :: 0 <= i < n ==> ps[i].pid != q
  {
    if ps == [] || ps[0].pid == q then 0 else 1 + Place(ps[1..], q)
  }

  lemma PlaceIs(ps: seq<Proc>, q: int, i: nat)
    requires i < |ps| && ps[i].pid == q && forall j :: 0 <= j < i ==> ps[j].pid != q
    ensures Place(ps, q) == i
  {
  }

  /** q waits in t: it is queued somewhere behind the running process. */
  ghost predicate Waits(t: Table, q: int) {
    1 <= Place(t.ring, q) < |t.ring| && t.ring[Place(t.ring, q)].state == Queued
  }

  ghost predicate Present(t: Table, q: int) {
    Place(t.ring, q) == 0 || Waits(t, q)
  }

  lemma {:induction false} AlivePlace(ps: seq<Proc>, q: int)
    requires Place(ps, q) < |ps| && ps[Place(ps, q)].state != Zombie
    ensures var a := Alive(ps);
      Place(a, q) < |a| && Place(a, q) <= Place(ps, q) && a[Place(a, q)] == ps[Place(ps, q)]
  {
    var a := Alive(ps);
    if ps[0].pid == q {
      assert a[0] == ps[0];
    } else {
      var rest := ps[1..];
      AlivePlace(rest, q);
      assert rest[Place(rest, q)] == ps[Place(ps, q)];
      if ps[0].state == Zombie {
        assert a == Alive(rest);
      } else {
        assert a[0] == ps[0] && a[1..] == Alive(rest);
      }
    }
  }

  /** Reaping zombies brings q nearer or leaves it where it is. */
  lemma WaitAllPlace(t: Table, q: int)
    requires t.ring != [] && Waits(t, q)
    ensures Waits(WaitAllFrom(t, 1), q) && Place(WaitAllFrom(t, 1).ring, q) <= Place(t.ring, q)
  {
    var r, w := t.ring, WaitAllFrom(t, 1).ring;
    WaitAllRing(t, 1);
    assert r[..1] == [r[0]];
    AlivePlace(r[1..], q);
    assert w[1..] == Alive(r[1..]) && w[0] == r[0];
    assert Place(w, q) == 1 + Place(w[1..], q);
  }

  lemma RotatePlace(t: Table, q: int)
    requires |t.ring| >= 2 && Waits(t, q)
    ensures Place(Rotated(t.ring), q) == Place(t.ring, q) - 1
    ensures Present(Table(Rotated(t.ring), t.used), q)
  {
    var d, r' := Place(t.ring, q), Rotated(t.ring);
    assert forall i :: 0 <= i < d ==> r'[i].pid == t.ring[i + 1].pid;
    PlaceIs(r', q, d - 1);
  }

  /** Each call of the scheduler brings every queued process at least one place nearer. */
  lemma SchedulePlace(t: Table, q: int)
    requires Inv(t) && Waits(t, q)
    ensures Place(Schedule(t).ring, q) + 1 <= Place(t.ring, q) && Present(Schedule(t), q)
  {
    ScheduleTurns(t);
    WaitAllPlace(t, q);
    RotatePlace(WaitAllFrom(t, 1), q);
  }

  lemma ForkPlace(t: Table, q: int)
    requires Agree(t) && Waits(t, q) && LeastFree(t.used, 1) != -1
    ensures Place(Fork(t).ring, q) == Place(t.ring, q) + 1 && Waits(Fork(t), q)
  {
  }

  lemma KillPlace(t: Table, q: int)
    requires |t.ring| >= 2 && Waits(t, q)
    ensures Place(Kill(t).ring, q) == Place(t.ring, q) && Waits(Kill(t), q)
  {
  }

  lemma ReapPlace(t: Table, k: nat, q: int)
    requires Waits(t, q) && 1 <= k < |t.ring| && t.ring[k].state == Zombie
    ensures Place(Reap(t, k).ring, q) <= Place(t.ring, q) && Waits(Reap(t, k), q)
  {
    var d, r, r' := Place(t.ring, q), t.ring, Reap(t, k).ring;
    forall i | 0 <= i < |r'| ensures r'[i] == r[if i < k then i else i + 1] {}
    PlaceIs(r', q, if d < k then d else d - 1);
  }

  function Turn(e: Event): nat { if e.DoYield? || e.DoExit? then 1 else 0 }
  function Growth(e: Event): nat { if e.DoFork? then 1 else 0 }

  /** A turn of the scheduler takes at least one off the waiting time, a fork adds one, and no other
      step adds anything. */
  lemma StepPlace(t: Table, e: Event, q: int)
    requires Inv(t) && Waits(t, q) && Enabled(t, e) && (e.DoFork? ==> |t.ring| < MAX_P - 1)
    ensures Place(Apply(t, e).ring, q) + Turn(e) <= Place(t.ring, q) + Growth(e)
    ensures e.DoFork? || e.DoExec? ==> Place(Apply(t, e).ring, q) == Place(t.ring, q) + Growth(e)
    ensures Present(Apply(t, e), q)
  {
    match e
    case DoFork => FreePidIff(t); ForkPlace(t, q);
    case DoExec => PlaceIs(Exec(t).ring, q, Place(t.ring, q));
    case DoYield => SchedulePlace(t, q);
    case DoExit => KillPlace(t, q); KillKeepsInv(t); SchedulePlace(Kill(t), q);
    case DoKill(pid) => KillPlace(t, q);
    case DoReap(k) => ReapPlace(t, k, q);
  }

  function Turns(es: seq<Event>): nat { if es == [] then 0 else Turn(es[0]) + Turns(es[1..]) }
  function Forks(es: seq<Event>): nat { if es == [] then 0 else Growth(es[0]) + Forks(es[1..]) }

  /** q is still waiting before and after every event of the run. */
  ghost predicate WaitsThroughout(t: Table, es: seq<Event>, q: int)
    requires Legal(t, es)
    decreases |es|
  {
    Waits(t, q) && (es == [] || WaitsThroughout(Apply(t, es[0]), es[1..], q))
  }

  /** Bounded waiting: as long as q has not been run, the scheduler has been called fewer times than
      q's place in the ring and the number of forks allow.  Without forks q runs within as many
      turns as its place. */
  lemma {:induction false} WaitingIsBounded(t: Table, es: seq<Event>, q: int)
    requires Inv(t) && Legal(t, es) && WaitsThroughout(t, es, q)
    ensures Turns(es) < Place(t.ring, q) + Forks(es)
    decreases |es|
  {
    if es != [] {
      StepPlace(t, es[0], q);
      StepKeepsInv(t, es[0]);
      WaitingIsBounded(Apply(t, es[0]), es[1..], q);
    }
  }
}
