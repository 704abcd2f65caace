/** Any number of tasks, switching in any order: each resumes with exactly what it had. */
module Interleaving {
  import opened Context

  /** What a task had when it called switch_to: registers, return address, stack pointer after the
      return, and the stack from the return address up. */
  datatype Ctx = Ctx(regs: Regs, ret: int, rsp: int, above: seq<int>)

  datatype Sys = Sys(cur: nat, regs: Regs, rsp: int, rip: int, stack: map<nat, seq<int>>, saved: map<nat, int>)

  /** Between switches the running task changes its registers and its own stack as it likes. */
  datatype Event = Work(regs: Regs, rsp: int, rip: int, stack: seq<int>) | Switch(to: nat)

  predicate Enabled(s: Sys, e: Event) {
    match e
    case Work(_, _, _, _) => true
    case Switch(to) =>
      && s.cur in s.stack && FRAME <= s.rsp < |s.stack[s.cur]|
      && to != s.cur && to in s.stack && to in s.saved
      && 0 <= s.saved[to] && s.saved[to] + FRAME < |s.stack[to]|
  }

  function Apply(s: Sys, e: Event): Sys
    requires Enabled(s, e)
  {
    match e
    case Work(regs, rsp, rip, st) => Sys(s.cur, regs, rsp, rip, s.stack[s.cur := st], s.saved)
    case Switch(to) =>
      var own := s.stack[s.cur];
      var p := s.saved[to];
      Sys(to, Popped(s.stack[to][p..p + FRAME]), p + FRAME + 1, s.stack[to][p + FRAME],
          s.stack[s.cur := own[..s.rsp - FRAME] + Reverse(Pushes(s.regs)) + own[s.rsp..]],
          s.saved[s.cur := s.rsp - FRAME])
  }

  /** The contexts of the suspended tasks, noted as they are left. */
  type Book = map<nat, Ctx>

  function Note(s: Sys, e: Event, book: Book): Book
    requires Enabled(s, e)
  {
    if e.Switch? then book[s.cur := Ctx(s.regs, s.stack[s.cur][s.rsp], s.rsp + 1, s.stack[s.cur][s.rsp..])] else book
  }

  /** Every task in the book other than the running one is suspended with what the book says. */
  ghost predicate Kept(s: Sys, book: Book) {
    forall t :: t in book && t != s.cur ==>
      && t in s.stack && t in s.saved
      && Suspended(s.stack[t], s.saved[t], book[t].regs, book[t].ret) && s.saved[t] + FRAME + 1 == book[t].rsp
      && s.stack[t][s.saved[t] + FRAME..] == book[t].above
  }

  lemma StepKeeps(s: Sys, e: Event, book: Book)
    requires Kept(s, book) && Enabled(s, e)
    ensures Kept(Apply(s, e), Note(s, e, book))
  {
    if e.Switch? {
      PopsUndoPushes(s.regs);
      var own := s.stack[s.cur];
      Saved(own, own[..s.rsp - FRAME] + Frame(s.regs) + own[s.rsp..], s.rsp, s.regs);
    }
  }

  /** A task that is in the book resumes with its registers, at its return address, on its stack. */
  lemma Resumes(s: Sys, to: nat, book: Book)
    requires Kept(s, book) && Enabled(s, Switch(to)) && to in book
    ensures var s' := Apply(s, Switch(to));
      && s'.cur == to && s'.regs == book[to].regs && s'.rip == book[to].ret && s'.rsp == book[to].rsp
      && s'.stack[to][s'.rsp - 1..] == book[to].above
  {
  }

  ghost predicate Legal(s: Sys, es: seq<Event>)
    decreases |es|
  {
    es == [] || (Enabled(s, es[0]) && Legal(Apply(s, es[0]), es[1..]))
  }

  ghost function Run(s: Sys, es: seq<Event>): Sys
    requires Legal(s, es)
    decreases |es|
  {
    if es == [] then s else Run(Apply(s, es[0]), es[1..])
  }

  ghost function Notes(s: Sys, es: seq<Event>, book: Book): Book
    requires Legal(s, es)
    decreases |es|
  {
    if es == [] then book else Notes(Apply(s, es[0]), es[1..], Note(s, es[0], book))
  }

  lemma {:induction false} RunKeeps(s: Sys, es: seq<Event>, book: Book)
    requires Kept(s, book) && Legal(s, es)
    ensures Kept(Run(s, es), Notes(s, es, book))
    decreases |es|
  {
    if es != [] {
      StepKeeps(s, es[0], book);
      RunKeeps(Apply(s, es[0]), es[1..], Note(s, es[0], book));
    }
  }

  /** Nobody switches to t along the run. */
  predicate Untouched(es: seq<Event>, t: nat) {
    forall e :: e in es ==> e != Switch(t)
  }

  lemma {:induction false} NotesStay(s: Sys, es: seq<Event>, book: Book, t: nat)
    requires Legal(s, es) && Untouched(es, t) && t in book && s.cur != t
    ensures t in Notes(s, es, book) && Notes(s, es, book)[t] == book[t] && Run(s, es).cur != t
    decreases |es|
  {
    if es != [] {
      assert es[0] in es;
      assert forall e :: e in es[1..] ==> e in es;
      NotesStay(Apply(s, es[0]), es[1..], Note(s, es[0], book), t);
    }
  }

  /** Leave task t, let the others run and switch in any order, and come back: t continues with the
      registers and the stack it had, right behind its call of switch_to. */
  lemma SwitchAwayAndBack(s: Sys, away: nat, es: seq<Event>)
    requires Enabled(s, Switch(away)) && Legal(Apply(s, Switch(away)), es) && Untouched(es, s.cur)
    requires Enabled(Run(Apply(s, Switch(away)), es), Switch(s.cur))
    ensures var s' := Apply(Run(Apply(s, Switch(away)), es), Switch(s.cur));
      && s'.cur == s.cur && s'.regs == s.regs && s'.rip == s.stack[s.cur][s.rsp] && s'.rsp == s.rsp + 1
      && s.cur in s'.stack && s'.stack[s.cur][s.rsp..] == s.stack[s.cur][s.rsp..]
  {
    var s1, book := Apply(s, Switch(away)), Note(s, Switch(away), map[]);
    StepKeeps(s, Switch(away), map[]);
    RunKeeps(s1, es, book);
    NotesStay(s1, es, book, s.cur);
    Resumes(Run(s1, es), s.cur, Notes(s1, es, book));
  }

  // ----- the machine of module Context -------------------------------------------------------------

  /** The tasks have structures and stacks of their own. */
  ghost predicate Separate(tasks: map<nat, Task>) {
    forall t, u :: t in tasks && u in tasks && t != u ==> tasks[t] != tasks[u] && tasks[t].stack != tasks[u].stack
  }

  ghost function Snapshot(cpu: Cpu, tasks: map<nat, Task>, cur: nat): Sys
    reads cpu, set t | t in tasks :: tasks[t], set t | t in tasks :: tasks[t].stack
  {
    Sys(cur, cpu.regs, cpu.rsp, cpu.rip, map t | t in tasks :: tasks[t].stack[..],
      map t | t in tasks :: tasks[t].rspVal)
  }

  /** switch_to on the machine's own stacks is the event Switch. */
  method SwitchTask(cpu: Cpu, tasks: map<nat, Task>, ghost cur: nat, to: nat)
    requires Separate(tasks) && cur in tasks && cpu.current == tasks[cur] &&
      Enabled(Snapshot(cpu, tasks, cur), Switch(to))
    modifies cpu, tasks[cur], tasks[cur].stack
    ensures cpu.current == tasks[to] && Snapshot(cpu, tasks, to) == Apply(old(Snapshot(cpu, tasks, cur)), Switch(to))
  {
    hide Popped, Pushes;
    cpu.SwitchTo(tasks[to]);
    ghost var s, s' := old(Snapshot(cpu, tasks, cur)), Snapshot(cpu, tasks, to);
    assert s'.stack[cur] == s.stack[cur][..s.rsp - FRAME] + Reverse(Pushes(s.regs)) + s.stack[cur][s.rsp..];
    assert s'.stack == Apply(s, Switch(to)).stack;
    assert s'.saved == Apply(s, Switch(to)).saved;
  }
}
