/**
 Processes as values: the ring in `next` order, starting at the running process, and the table
 of process numbers in use.  The steps are those of fork, exec, exit, kill, wait and the
 scheduler; module Scheduler carries them out on linked structures.
 */
module ProcessTable {

  const MAX_P: nat := 1000
  const IDLE: int := 1

  datatype PState = Running | Zombie | Queued

  datatype Proc = Proc(pid: int, ppid: int, state: PState)

  datatype Table = Table(ring: seq<Proc>, used: set<int>)

  // ----- the steps ------------------------------------------------------------------------

  /** getPID: the least free number from i on, or -1. */
  function LeastFree(used: set<int>, i: nat): (pid: int)
    ensures pid == -1 || (i <= pid < MAX_P && pid !in used)
    ensures forall k: int :: i <= k < MAX_P && (pid == -1 || k < pid) ==> k in used
    decreases MAX_P - i
  {
    if i >= MAX_P then -1 else if i !in used then i else LeastFree(used, i + 1)
  }

  function Mark(used: set<int>, pid: int): set<int> {
    if pid == -1 then used else used + {pid}
  }

  /** fork: the child goes right behind its parent. */
  function Fork(t: Table): Table
    requires t.ring != []
  {
    var pid := LeastFree(t.used, 1);
    Table([t.ring[0], Proc(pid, t.ring[0].pid, Queued)] + t.ring[1..], Mark(t.used, pid))
  }

  /** create_process links the new process and the running one to each other; whoever else was in
      the ring no longer is.  It never sets the parent, which stays 0. */
  function Create(t: Table): Table
    requires t.ring != []
  {
    var pid := LeastFree(t.used, 1);
    Table([t.ring[0], Proc(pid, 0, Queued)], Mark(t.used, pid))
  }

  /** exec: a new structure takes the caller's place, number and parent. */
  function Exec(t: Table): Table
    requires t.ring != []
  {
    Table(t.ring[0 := t.ring[0].(state := Running)], t.used)
  }

  function Orphan(p: Proc, parent: int): Proc {
    if p.ppid == parent then p.(ppid := IDLE) else p
  }

  function Orphans(ps: seq<Proc>, parent: int): (r: seq<Proc>)
    ensures |r| == |ps| && forall i :: 0 <= i < |r| ==> r[i] == Orphan(ps[i], parent)
  {
    seq(|ps|, i requires 0 <= i < |ps| => Orphan(ps[i], parent))
  }

  /** kill_process on the running process: its children go to the idle process, it becomes a zombie. */
  function Kill(t: Table): Table
    requires t.ring != []
  {
    if |t.ring| == 1 then t
    else
      var cur := t.ring[0];
      Table([cur.(state := Zombie)] + Orphans(t.ring[1..], cur.pid), t.used)
  }

  /** kill_kern: of the processes that exist, only the running one can be killed, and never number 1. */
  function KillKern(t: Table, pid: int): Table
    requires t.ring != []
  {
    if 1 < pid < MAX_P && pid in t.used && pid == t.ring[0].pid then Kill(t) else t
  }

  /** reap_process on the process k places behind the running one. */
  function Reap(t: Table, k: nat): Table
    requires 1 <= k < |t.ring|
  {
    Table(t.ring[..k] + t.ring[k + 1..], t.used - {t.ring[k].pid})
  }

  /** wait_all from place k on: every zombie is reaped. */
  function WaitAllFrom(t: Table, k: nat): (r: Table)
    requires 1 <= k <= |t.ring|
    ensures |r.ring| >= k && r.ring[..k] == t.ring[..k]
    decreases |t.ring| - k
  {
    if k == |t.ring| then t
    else if t.ring[k].state == Zombie then WaitAllFrom(Reap(t, k), k)
    else WaitAllFrom(t, k + 1)
  }

  /** The first queued process from place k on, or the end of the ring. */
  function FirstQueued(ps: seq<Proc>, k: nat): (r: nat)
    requires k <= |ps|
    ensures k <= r <= |ps|
    ensures r < |ps| ==> ps[r].state == Queued
    ensures forall i :: k <= i < r ==> ps[i].state != Queued
    decreases |ps| - k
  {
    if k == |ps| || ps[k].state == Queued then k else FirstQueued(ps, k + 1)
  }

  datatype Outcome = Alone | NobodyQueued | BadState | Switched

  /** What switch_process comes to.  With nobody queued it creates a shell. */
  function Choice(t: Table): Outcome
    requires t.ring != []
  {
    if |t.ring| == 1 then Alone
    else if FirstQueued(t.ring, 1) == |t.ring| then NobodyQueued
    else if t.ring[0].state == Queued then BadState
    else Switched
  }

  function Preempt(p: Proc): Proc {
    if p.state == Running then p.(state := Queued) else p
  }

  function Switch(t: Table): Table
    requires t.ring != []
  {
    if Choice(t) == NobodyQueued then Create(t)
    else if Choice(t) != Switched then t
    else
      var k := FirstQueued(t.ring, 1);
      var ring := t.ring[0 := Preempt(t.ring[0])][k := t.ring[k].(state := Running)];
      Table(ring[k..] + ring[..k], t.used)
  }

  function Schedule(t: Table): Table
    requires t.ring != []
  {
    Switch(WaitAllFrom(t, 1))
  }

  datatype Event = DoFork | DoExec | DoYield | DoExit | DoKill(pid: int) | DoReap(place: nat)

  /** Exit is for processes other than the idle one; wait reaps zombies among the caller's children. */
  predicate Enabled(t: Table, e: Event)
    requires t.ring != []
  {
    match e
    case DoExit => t.ring[0].pid != IDLE
    case DoReap(k) => 1 <= k < |t.ring| && t.ring[k].state == Zombie && t.ring[k].ppid == t.ring[0].pid
    case _ => true
  }

  function Apply(t: Table, e: Event): Table
    requires t.ring != [] && Enabled(t, e)
  {
    match e
    case DoFork => Fork(t)
    case DoExec => Exec(t)
    case DoYield => Schedule(t)
    case DoExit => Schedule(Kill(t))
    case DoKill(pid) => KillKern(t, pid)
    case DoReap(k) => Reap(t, k)
  }

  // ----- the invariants -------------------------------------------------------------------

  ghost predicate Distinct(ps: seq<Proc>) {
    forall i, j :: 0 <= i < j < |ps| ==> ps[i].pid != ps[j].pid
  }

  ghost function Pids(ps: seq<Proc>): set<int> {
    set i | 0 <= i < |ps| :: ps[i].pid
  }

  /** The table of numbers in use says exactly who is in the ring. */
  ghost predicate Agree(t: Table) {
    && t.ring != []
    && Distinct(t.ring)
    && t.used == Pids(t.ring)
    && forall i :: 0 <= i < |t.ring| ==> 1 <= t.ring[i].pid < MAX_P
  }

  /** Only the process at the head of the ring can be running, and it is not queued. */
  ghost predicate OneRunner(t: Table) {
    && t.ring != [] && t.ring[0].state != Queued
    && forall i :: 1 <= i < |t.ring| ==> t.ring[i].state != Running
  }

  ghost predicate IdleLives(t: Table) {
    exists i :: 0 <= i < |t.ring| && t.ring[i].pid == IDLE && t.ring[i].state != Zombie
  }

  ghost predicate Inv(t: Table) {
    Agree(t) && OneRunner(t) && IdleLives(t)
  }

  /** The numbers of the ring members that are no zombies. */
  ghost function LivePids(ps: seq<Proc>): set<int> {
    set p | p in ps && p.state != Zombie :: p.pid
  }

  /** Every process descends from nobody, from the idle process or from a ring member that is no
      zombie; so zombies have no children, and a number that is used again inherits none. */
  ghost predicate Parented(t: Table) {
    forall p :: p in t.ring ==>
      && p.ppid != p.pid && (p.pid == IDLE ==> p.ppid == 0)
      && (p.ppid == 0 || p.ppid == IDLE || p.ppid in LivePids(t.ring))
  }
}
