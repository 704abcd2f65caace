/**
 Context switching: switch_to saves the registers of the running task on its kernel stack and
 restores those of the next one from the frame it finds on that task's stack.
 */
module Context {

  const STACK: nat := 4096
  const FRAME: nat := 16

  datatype Regs = Regs(rax: int, rcx: int, rdx: int, rbx: int, rbp: int, rsi: int, rdi: int,
                       r8: int, r9: int, r10: int, r11: int, r12: int, r13: int, r14: int, r15: int)

  /** The words switch_to pushes, in the order of the push instructions. */
  function Pushes(r: Regs): (w: seq<int>)
    ensures |w| == FRAME
  {
    [r.rax, r.rcx, r.rdx, r.rbx, r.rbp, r.rsi, r.rdi, r.r8, r.r9, r.r10, r.r11, r.r12, r.r13, r.r14, r.r15, r.rdi]
  }

  /** The registers after the pops, given the words popped in order.  %rdi is popped twice. */
  function Popped(w: seq<int>): Regs
    requires |w| == FRAME
  {
    Regs(w[15], w[14], w[13], w[12], w[11], w[10], w[9], w[8], w[7], w[6], w[5], w[4], w[3], w[2], w[1])
  }

  /** A frame as it lies in memory, lowest address first. */
  function Frame(r: Regs): (w: seq<int>)
    ensures |w| == FRAME
  {
    [r.rdi, r.r15, r.r14, r.r13, r.r12, r.r11, r.r10, r.r9, r.r8, r.rdi, r.rsi, r.rbp, r.rbx, r.rdx, r.rcx, r.rax]
  }

  /** Pushing one word after the other leaves them in memory in reverse. */
  function Reverse(w: seq<int>): (r: seq<int>)
    ensures |r| == |w| && forall i :: 0 <= i < |w| ==> r[i] == w[|w| - 1 - i]
  {
    seq(|w|, i requires 0 <= i < |w| => w[|w| - 1 - i])
  }

  /** The pops undo the pushes. */
  lemma PopsUndoPushes(r: Regs)
    ensures Reverse(Pushes(r)) == Frame(r) && Popped(Frame(r)) == r
  {
  }

  /** A suspended task: its saved stack pointer leads to the frame of r and a return address. */
  ghost predicate Suspended(stack: seq<int>, rsp: int, r: Regs, ret: int) {
    0 <= rsp && rsp + FRAME < |stack| && stack[rsp..rsp + FRAME] == Frame(r) && stack[rsp + FRAME] == ret
  }

  lemma Saved(s: seq<int>, s': seq<int>, rsp: nat, r: Regs)
    requires FRAME <= rsp < |s| && s' == s[..rsp - FRAME] + Frame(r) + s[rsp..]
    ensures Suspended(s', rsp - FRAME, r, s[rsp])
    ensures s'[..rsp - FRAME] == s[..rsp - FRAME] && s'[rsp..] == s[rsp..]
  {
  }

  // ----- the machine ------------------------------------------------------------------------

  class Task {
    const stack: array<int>
    var rspVal: int

    constructor ()
      ensures fresh(stack) && stack.Length == STACK && forall i :: 0 <= i < STACK ==> stack[i] == 0
    {
      stack := new int[STACK](_ => 0);
      rspVal := 0;
    }

    /** The stack create_process lays out: sixteen words to pop and the address of go_to_ring3. */
    constructor ForProgram(goToRing3: int)
      ensures fresh(stack) && stack.Length == STACK
      ensures Suspended(stack[..], rspVal, Regs(0, 0, 0, 0, 0, 0, 0, 0, 0, 0, 0, 0, 0, 0, 0), goToRing3)
    {
      stack := new int[STACK](_ => 0);
      rspVal := STACK - 17;
      new;
      stack[STACK - 1] := goToRing3;
      assert stack[..][rspVal..rspVal + FRAME] == seq(FRAME, _ => 0);
    }
  }

  class Cpu {
    var regs: Regs
    var rsp: int
    var rip: int
    var current: Task

    constructor (current: Task, regs: Regs, rsp: int, rip: int)
      ensures this.current == current && this.regs == regs && this.rsp == rsp && this.rip == rip
    {
      this.current, this.regs, this.rsp, this.rip := current, regs, rsp, rip;
    }

    /** The sixteen push instructions. */
    method PushAll(words: seq<int>)
      requires |words| <= rsp <= current.stack.Length
      modifies this, current.stack
      ensures current == old(current) && regs == old(regs) && rip == old(rip) && rsp == old(rsp) - |words|
      ensures current.stack[..] == old(current.stack[..rsp - |words|]) + Reverse(words) + old(current.stack[rsp..])
    {
      var i := 0;
      ghost var s := current.stack[..];
      while i < |words|
        invariant 0 <= i <= |words| && rsp == old(rsp) - i
        invariant current == old(current) && regs == old(regs) && rip == old(rip)
        invariant forall j :: 0 <= j < |s| ==>
          current.stack[j] == if rsp <= j < old(rsp) then words[old(rsp) - 1 - j] else s[j]
      {
        rsp := rsp - 1;
        current.stack[rsp] := words[i];
        i := i + 1;
      }
    }

    /** The first half of switch_to: push everything and note the stack pointer in the structure. */
    method Save()
      requires FRAME <= rsp < current.stack.Length
      modifies this, current, current.stack
      ensures current == old(current)
      ensures current.rspVal == old(rsp) - FRAME &&
        Suspended(current.stack[..], current.rspVal, old(regs), old(current.stack[rsp]))
      ensures current.stack[..] ==
        old(current.stack[..rsp - FRAME]) + Reverse(Pushes(old(regs))) + old(current.stack[rsp..])
    {
      PopsUndoPushes(regs);
      hide Pushes, Frame;
      ghost var s := current.stack[..];
      PushAll(Pushes(regs));
      Saved(s, current.stack[..], old(rsp), regs);
      current.rspVal := rsp;
    }

    /** The second half, from the point where the stack is the next task's. */
    method Restore(next: Task)
      requires 0 <= next.rspVal && next.rspVal + FRAME < next.stack.Length
      modifies this
      ensures current == next && rsp == next.rspVal + FRAME + 1
      ensures regs == Popped(next.stack[..][next.rspVal..next.rspVal + FRAME]) && rip == next.stack[next.rspVal + FRAME]
    {
      current := next;
      rsp := next.rspVal;
      assert current.stack[rsp..rsp + FRAME] == current.stack[..][rsp..rsp + FRAME];
      regs := Popped(current.stack[rsp..rsp + FRAME]);
      rsp := rsp + FRAME;
      rip := current.stack[rsp];
      rsp := rsp + 1;
    }

    /** switch_to(&current, next), entered with the return address on top of the running task's stack:
        the running task is left suspended with the registers it had, and the machine continues with
        the registers, the stack and the return address that next was suspended with. */
    method SwitchTo(next: Task)
      requires next != current && next.stack != current.stack
      requires FRAME <= rsp < current.stack.Length && 0 <= next.rspVal && next.rspVal + FRAME < next.stack.Length
      modifies this, current, current.stack
      ensures current == next && rsp == next.rspVal + FRAME + 1
      ensures regs == Popped(next.stack[..][next.rspVal..next.rspVal + FRAME]) && rip == next.stack[next.rspVal + FRAME]
      ensures forall r: Regs, ret: int :: Suspended(next.stack[..], next.rspVal, r, ret) ==> regs == r && rip == ret
      ensures old(current).rspVal == old(rsp) - FRAME
      ensures old(current).stack[..] ==
        old(current.stack[..rsp - FRAME]) + Reverse(Pushes(old(regs))) + old(current.stack[rsp..])
      ensures Suspended(old(current).stack[..], old(current).rspVal, old(regs), old(current.stack[rsp]))
    {
      Save();
      Restore(next);
      forall r: Regs, ret: int | Suspended(next.stack[..], next.rspVal, r, ret) ensures regs == r && rip == ret {
        PopsUndoPushes(r);
      }
    }

    /** fork's search for its own return address, from where the copied stack pointer points upwards. */
    method FindReturn(child: Task, start: nat, ret: int) returns (at: nat)
      requires start < child.stack.Length && ret in child.stack[start..]
      ensures start <= at < child.stack.Length && child.stack[at] == ret && ret !in child.stack[start..at]
    {
      at := start;
      while child.stack[at] != ret
        invariant start <= at < child.stack.Length && ret in child.stack[at..] && ret !in child.stack[start..at]
        decreases child.stack.Length - at
      {
        at := at + 1;
      }
    }

    /** The stack part of fork: the caller's stack is copied, and the child is made to return from fork
        as the caller will, on a stack like the caller's, but with 0.  The copied stack pointer is at
        `start`, and ret is fork's return address. */
    method ForkStack(child: Task, start: nat, ret: int) returns (at: nat)
      requires child != current && child.stack != current.stack && child.stack.Length == current.stack.Length
      requires FRAME <= start < current.stack.Length && ret in current.stack[start..]
      modifies child, child.stack
      ensures start <= at < current.stack.Length && current.stack[at] == ret && ret !in current.stack[start..at]
      ensures Suspended(child.stack[..], child.rspVal, regs.(rax := 0), ret)
      ensures child.rspVal == at - FRAME && child.stack[at..] == current.stack[at..]
    {
      var i := 0;
      while i < child.stack.Length
        invariant 0 <= i <= child.stack.Length && child.stack[..i] == current.stack[..i]
      {
        child.stack[i] := current.stack[i];
        i := i + 1;
      }
      assert child.stack[..] == current.stack[..];
      assert child.stack[start..] == child.stack[..][start..];
      at := FindReturn(child, start, ret);
      assert child.stack[start..at] == current.stack[start..at];
      SetUpForkedStack(child, at);
      assert child.stack[at..] == current.stack[at..];
    }

    /** setup_forked_kthread_stack at the slot below the return address: the child is suspended with
        the caller's registers, except that fork returns 0 to it. */
    method SetUpForkedStack(child: Task, at: nat)
      requires FRAME <= at < child.stack.Length
      modifies child, child.stack
      ensures Suspended(child.stack[..], child.rspVal, regs.(rax := 0), old(child.stack[at]))
      ensures child.rspVal == at - FRAME
      ensures child.stack[at..] == old(child.stack[at..])
    {
      var words := Frame(regs.(rax := 0));
      hide Frame;
      ghost var s := child.stack[..];
      var i := 0;
      while i < FRAME
        invariant 0 <= i <= FRAME
        invariant forall j :: 0 <= j < |s| ==>
          child.stack[j] == if at - FRAME <= j < at - FRAME + i then words[j - (at - FRAME)] else s[j]
      {
        child.stack[at - FRAME + i] := words[i];
        i := i + 1;
      }
      child.rspVal := at - FRAME;
      assert child.stack[..] == s[..at - FRAME] + words + s[at..];
      Saved(s, child.stack[..], at, regs.(rax := 0));
    }
  }
}
