/**
 The page tables at work: whatever sequence of operations the kernel carries out on them, the
 processes see what they would see if fork copied every page.
 */
module Session {
  import opened PageTables
  import opened PhysicalMemory
  import opened Frames
  import opened Mapping
  import opened CowFork
  import opened Addresses
  import opened KernelHalf
  import opened UserMemory
  import opened Boot
  import opened Paging
  import C = Cow

  // ----- one more event -----------------------------------------------------------------------

  lemma {:induction false} RunExtended(vm: C.Vm, es: seq<C.Event>, e: C.Event)
    requires C.Legal(vm, es) && C.Ok(C.Run(vm, es)) && C.Enabled(C.Run(vm, es), e) && C.Good(C.Run(vm, es), e)
    ensures C.Legal(vm, es + [e]) && C.Run(vm, es + [e]) == C.Apply(C.Run(vm, es), e)
    decreases |es|
  {
    hide C.Apply, C.Enabled, C.Good, C.Ok;
    if es == [] {
      assert [] + [e] == [e] && [e][1..] == [];
      assert C.Legal(C.Apply(vm, e), []);
    } else {
      RunExtended(C.Apply(vm, es[0]), es[1..], e);
      assert (es + [e])[0] == es[0] && (es + [e])[1..] == es[1..] + [e];
    }
  }

  /** The frames the kernel works with, and what has happened to them since `start`. */
  class Machine {
    const k: AddressSpaces
    ghost const start: C.Vm
    ghost var trace: seq<C.Event>

    ghost predicate Valid()
      reads this, k, k.ram, k.ram.words, k.alloc, k.alloc.descs
    {
      k.Running() && C.Sharing(start) && C.Legal(start, trace) && k.Memory() == C.Run(start, trace)
    }

    constructor (k: AddressSpaces)
      requires k.Running() && C.Sharing(k.Memory())
      ensures this.k == k && Valid() && start == k.Memory() && trace == []
    {
      this.k, start, trace := k, k.Memory(), [];
    }

    /** What every process sees is what a machine that copies at fork would show it. */
    lemma Seen()
      requires Valid()
      ensures C.Ok(start) && C.Sharing(k.Memory()) && C.ViewOf(k.Memory()) == C.EagerRun(C.ViewOf(start), trace)
    {
      C.RunRefines(start, trace);
    }

    /** The tables have just carried out e. */
    ghost method Note(vm: C.Vm, e: C.Event)
      requires k.Running() && C.Sharing(start) && C.Legal(start, trace) && vm == C.Run(start, trace)
      requires C.Sharing(vm) && C.Enabled(vm, e) && C.Good(vm, e) && k.Memory() == C.Apply(vm, e)
      modifies `trace
      ensures Valid() && trace == old(trace) + [e]
    {
      hide C.Apply, C.Enabled, C.Good, C.Legal, C.Run, Abs;
      RunExtended(start, trace, e);
      trace := trace + [e];
    }

    /** A page for the running process. */
    method Map(v: VPage)
      requires Valid() && v.User() && k.CanTake(1 + Missing(k.ram.m, k.cr3, v))
      modifies `trace, k`role, k.ram, k.ram.words, k.alloc, k.alloc.descs
      ensures Valid() && exists f :: trace == old(trace) + [C.MapFresh(C.Slot(k.cr3, v), f)]
    {
      hide C.Apply, C.Legal, C.Run, C.Sharing, Abs, Mapped511, Represents, State.Ok, Live, Ram.Valid, Missing,
        C.EagerRun, C.ViewOf, C.Enabled;
      Seen();
      ghost var vm := k.Memory();
      var f := k.MapFreshPage(v);
      Note(vm, C.MapFresh(C.Slot(k.cr3, v), f));
    }

    /** No page of the running process is shared, and there are frames for the child's tables. */
    ghost predicate CanFork()
      requires Valid()
      reads this, k, k.ram, k.ram.words, k.alloc, k.alloc.descs
    {
      C.Unshared(k.Memory(), k.cr3) && k.CanTake(1 + PdptsFrom(k.ram.m, k.cr3, 0))
    }

    /** fork, where no page of the running process is shared. */
    method Fork() returns (ch: nat)
      requires Valid() && CanFork()
      modifies `trace, k`role, k`live, k.ram, k.ram.words, k.alloc, k.alloc.descs
      ensures Valid() && ch !in old(k.live) && k.live == old(k.live) + {ch} && trace == old(trace) + [C.Fork(k.cr3, ch)]
    {
      hide C.Apply, C.Legal, C.Run, C.Sharing, Abs, Mapped511, Represents, State.Ok, Live, Ram.Valid, PdptsFrom,
        C.Unshared, Forked, C.EagerRun, C.ViewOf;
      Seen();
      AbsLive(k.St(), k.live);
      ghost var vm := k.Memory();
      ch := k.ForkSpace();
      Note(vm, C.Fork(k.cr3, ch));
    }

    /** A store by the running process: it goes through, at once or after one fault that is resolved,
        or the page is not mapped. */
    method Store(v: VPage, i: nat, x: Word) returns (done: bool)
      requires Valid() && v.User() && i < ENTRIES && (k.WillCopy(v) ==> k.CanTake(1))
      modifies `trace, k`role, k.ram, k.ram.words, k.alloc, k.alloc.descs
      ensures Valid() && (done <==> Leaf(old(k.ram.m), k.cr3, v).Present())
      ensures var at := C.Slot(k.cr3, v);
        if !done then trace == old(trace) && k.Memory() == old(k.Memory())
        else trace == old(trace) + [C.Store(at, i, x)] ||
             exists f :: trace == old(trace) + [C.WriteFault(at, f), C.Store(at, i, x)]
    {
      hide C.Legal, C.Run, C.Sharing, Abs, Mapped511, Represents, State.Ok, Live, Ram.Valid, Leaf;
      done := TryStore(v, i, x);
      if !done {
        ghost var f;
        done, f := Fault(v);
        if done {
          ghost var es := trace;
          var again := TryStore(v, i, x);
          assert es + [C.Store(C.Slot(k.cr3, v), i, x)] == old(trace) + [C.WriteFault(C.Slot(k.cr3, v), f),
            C.Store(C.Slot(k.cr3, v), i, x)];
        }
      }
    }

    method TryStore(v: VPage, i: nat, x: Word) returns (done: bool)
      requires Valid() && v.User() && i < ENTRIES
      modifies `trace, k.ram, k.ram.words
      ensures Valid() &&
        (done <==> Leaf(old(k.ram.m), k.cr3, v).Present() && Leaf(old(k.ram.m), k.cr3, v).flags.writable)
      ensures done ==> trace == old(trace) + [C.Store(C.Slot(k.cr3, v), i, x)]
      ensures !done ==> trace == old(trace) && k.St() == old(k.St()) && k.Memory() == old(k.Memory())
    {
      hide C.Apply, C.Legal, C.Run, C.Sharing, Abs, Mapped511, Represents, State.Ok, Live, Ram.Valid, Leaf, C.EagerRun,
        C.ViewOf, C.Enabled;
      Seen();
      ghost var vm := k.Memory();
      done := k.StoreWord(v, i, x);
      if done {
        Note(vm, C.Store(C.Slot(k.cr3, v), i, x));
      }
    }
  
    /** A fault on a page that cannot be written: afterwards it can, if it is mapped at all. */
    method Fault(v: VPage) returns (done: bool, ghost f: nat)
      requires Valid() && v.User() && (k.WillCopy(v) ==> k.CanTake(1))
      requires !(Leaf(k.ram.m, k.cr3, v).Present() && Leaf(k.ram.m, k.cr3, v).flags.writable)
      modifies `trace, k`role, k.ram, k.ram.words, k.alloc, k.alloc.descs
      ensures Valid() && (done <==> Leaf(old(k.ram.m), k.cr3, v).Present())
      ensures done ==> trace == old(trace) + [C.WriteFault(C.Slot(k.cr3, v), f)]
      ensures done ==> Leaf(k.ram.m, k.cr3, v).Present() && Leaf(k.ram.m, k.cr3, v).flags.writable
      ensures !done ==> trace == old(trace) && k.Memory() == old(k.Memory())
    {
      hide C.Legal, C.Run, C.Exclusive, C.Apply, C.Ok, Abs, Mapped511, Represents, State.Ok, Live, Ram.Valid, Leaf,
        C.EagerRun, C.ViewOf, C.Enabled;
      Seen();
      MarkedIff(k.St(), k.live, k.cr3, v);
      ghost var vm := k.Memory();
      done, f := k.CowFault(v);
      if done {
        FaultMakesWritable(vm, C.Slot(k.cr3, v), f);
        LeafOfSlot(k.St(), k.live, k.cr3, v);
        Note(vm, C.WriteFault(C.Slot(k.cr3, v), f));
      }
    }

    /** A store by the kernel for the running process, into a page that is not shared. */
    method KernelStore(v: VPage, i: nat, x: Word) returns (done: bool)
      requires Valid() && v.User() && i < ENTRIES && C.Alone(k.Memory(), C.Slot(k.cr3, v))
      modifies `trace, k.ram, k.ram.words
      ensures Valid() && (done <==> Leaf(old(k.ram.m), k.cr3, v).Present())
      ensures trace == old(trace) + if done then [C.KernelStore(C.Slot(k.cr3, v), i, x)] else []
    {
      hide C.Apply, C.Legal, C.Run, C.Sharing, C.Alone, Abs, Mapped511, Represents, State.Ok, Live, Ram.Valid, Leaf,
        C.EagerRun, C.ViewOf, C.Enabled;
      Seen();
      ghost var vm := k.Memory();
      done := k.KernelStoreWord(v, i, x);
      if done {
        Note(vm, C.KernelStore(C.Slot(k.cr3, v), i, x));
      }
    }

    /** An empty space for a new program. */
    method NewSpace() returns (r: nat)
      requires Valid() && k.CanTake(1)
      modifies `trace, k`role, k`live, k.ram, k.ram.words, k.alloc, k.alloc.descs
      ensures Valid() && r !in old(k.live) && k.live == old(k.live) + {r} && trace == old(trace) + [C.NewSpace(r)]
    {
      hide C.Apply, C.Legal, C.Run, C.Sharing, Abs, Mapped511, Represents, State.Ok, Live, Ram.Valid, C.EagerRun,
        C.ViewOf;
      Seen();
      AbsLive(k.St(), k.live);
      ghost var vm := k.Memory();
      r := k.NewUserSpace();
      Note(vm, C.NewSpace(r));
    }

    /** Another process runs. */
    method SwitchTo(r: nat)
      requires Valid() && r in k.live
      modifies k`cr3
      ensures Valid() && k.cr3 == r
    {
      hide C.Legal, C.Run, C.Sharing, Abs, Mapped511, Represents, State.Ok, Live, Ram.Valid;
      k.SetCr3(r);
    }

    /** Another process is reaped. */
    ghost method Reap(r: nat)
      requires Valid() && r in k.live && r != k.cr3
      modifies `trace, k`live
      ensures Valid() && k.live == old(k.live) - {r} && trace == old(trace) + [C.Exit(r)]
    {
      hide C.Apply, C.Legal, C.Run, C.Sharing, Abs, Mapped511, Represents, State.Ok, Live, Ram.Valid, C.EagerRun,
        C.ViewOf, C.Enabled;
      Seen();
      var vm := k.Memory();
      k.ForgetSpace(r);
      Note(vm, C.Exit(r));
    }
  }

  lemma FaultMakesWritable(vm: C.Vm, at: C.Slot, f: nat)
    requires C.Sharing(vm) && C.Enabled(vm, C.WriteFault(at, f))
    ensures at in C.Apply(vm, C.WriteFault(at, f)).leaf && C.Apply(vm, C.WriteFault(at, f)).leaf[at].flags.writable
  {
  }

  // ----- from power-on --------------------------------------------------------------------------

  /** init_physical_memory and init_paging on zeroed memory give a machine to work with: the trace is
      empty, no user page exists, and all but a few of the free frames can be taken. */
  method PowerOn(physfree: nat, base: nat, length: nat, lo: nat) returns (machine: Machine)
    requires physfree % PAGE == 0 && Roomy(lo, physfree / PAGE, (base + length) / PAGE) && VIDEO_PAGE < lo
    ensures fresh(machine) && fresh(machine.k) && machine.Valid()
    ensures fresh(machine.k.ram) && fresh(machine.k.ram.words) && fresh(machine.k.alloc) && fresh(machine.k.alloc.descs)
    ensures machine.start == EmptyMemory(machine.k.cr3) && machine.trace == [] && machine.k.live == {machine.k.cr3}
    ensures var first, n := physfree / PAGE, (base + length) / PAGE;
      machine.k.CanTake(n - first - 15 - 2 * (n / 512))
  {
    hide Represents, InOrder, State.Ok, Abs, C.Sharing, Mapped511, Leaf, Ram.Valid, KernelPage;
    var first, n := physfree / PAGE, (base + length) / PAGE;
    var alloc := new FrameAllocator(physfree, base, length);
    var ram := new Ram(n);
    AllZero(ram.m, n);
    var k := new AddressSpaces(ram, alloc, first, n);
    k.InitPaging(lo, first, n);
    AbsLive(k.St(), k.live);
    machine := new Machine(k);
  }

  lemma AllZero(m: Mem, n: nat)
    requires |m| == n && forall p :: 0 <= p < n ==> m[p] == ZeroPage()
    ensures forall p: nat, i: nat :: p < n ==> At(m, p, i) == ZERO
  {
  }
}
