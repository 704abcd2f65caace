/**
 The regions of a process that grow: the heap by one region per request, the stack downwards
 on a fault.  Each new page is backed by a fresh frame of its own.
 */
module UserHeap {
  import opened PageTables
  import opened PhysicalMemory
  import opened Frames
  import opened Mapping
  import opened Addresses
  import opened KernelHalf
  import opened KernelHeap
  import opened UserMemory
  import opened Paging
  import C = Cow

  const HEAP_START: nat := 0x0800_0000
  const STACK_START: nat := 0xF000_0000
  const LIMIT_STACK: nat := 4096000
  const VMA_BYTES: nat := 40

  // ----- a range of fresh pages --------------------------------------------------------------

  function SlotAt(r: nat, va: nat, i: nat): C.Slot { C.Slot(r, PageOf(va + i * PAGE)) }

  ghost predicate InRange(s: C.Slot, r: nat, va: nat, n: nat) {
    exists i: nat :: i < n && s == SlotAt(r, va, i)
  }

  /** Page i of the range is backed by fs[i]; every other page is as before. */
  ghost predicate RangeLeaves(leaf: imap<C.Slot, Word>, leaf': imap<C.Slot, Word>, r: nat, va: nat, fs: seq<nat>) {
    && (forall i: nat :: i < |fs| ==> SlotAt(r, va, i) in leaf' && leaf'[SlotAt(r, va, i)] == Word(fs[i], USER_RW))
    && (forall s: C.Slot :: !InRange(s, r, va, |fs|) ==>
        (s in leaf' <==> s in leaf) && (s in leaf ==> leaf'[s] == leaf[s]))
  }

  /** The frames fs are new, distinct, zero and counted once; every other frame is as before. */
  ghost predicate FreshFrames(vm: C.Vm, vm': C.Vm, fs: seq<nat>) {
    && vm'.data.Keys == vm.data.Keys + (set f | f in fs) && vm'.count.Keys == vm'.data.Keys
    && vm.count.Keys == vm.data.Keys
    && (forall i :: 0 <= i < |fs| ==> fs[i] !in vm.data && vm'.data[fs[i]] == ZeroPage() && vm'.count[fs[i]] == 1)
    && (forall i, j :: 0 <= i < j < |fs| ==> fs[i] != fs[j])
    && (forall f :: f in vm.data ==> vm'.data[f] == vm.data[f] && vm'.count[f] == vm.count[f])
  }

  ghost predicate RangeMapped(vm: C.Vm, vm': C.Vm, r: nat, va: nat, fs: seq<nat>) {
    C.Ok(vm) && C.Ok(vm') && vm'.live == vm.live && RangeLeaves(vm.leaf, vm'.leaf, r, va, fs) &&
      FreshFrames(vm, vm', fs)
  }

  lemma SlotsDistinct(r: nat, va: nat, i: nat, j: nat)
    requires va + i * PAGE < USER_END && va + j * PAGE < USER_END && SlotAt(r, va, i) == SlotAt(r, va, j)
    ensures i == j
  {
    hide PageOf;
    PageOfInjective(va + i * PAGE, va + j * PAGE);
    PagesOn(va, i);
    PagesOn(va, j);
  }

  lemma PagesOn(va: nat, i: nat)
    ensures (va + i * PAGE) / PAGE == va / PAGE + i
  {
  }

  lemma OneMoreLeaf(leaf: imap<C.Slot, Word>, leaf1: imap<C.Slot, Word>, leaf2: imap<C.Slot, Word>, r: nat, va: nat,
      fs: seq<nat>, f: nat)
    requires RangeLeaves(leaf, leaf1, r, va, fs) && va + |fs| * PAGE < USER_END
    requires leaf2 == leaf1[SlotAt(r, va, |fs|) := Word(f, USER_RW)]
    ensures RangeLeaves(leaf, leaf2, r, va, fs + [f])
  {
    var n, gs := |fs|, fs + [f];
    forall i: nat | i < |gs| ensures SlotAt(r, va, i) in leaf2 && leaf2[SlotAt(r, va, i)] == Word(gs[i], USER_RW) {
      if i < n && SlotAt(r, va, i) == SlotAt(r, va, n) {
        SlotsDistinct(r, va, i, n);
      }
    }
    forall s: C.Slot | !InRange(s, r, va, |gs|)
      ensures (s in leaf2 <==> s in leaf) && (s in leaf ==> leaf2[s] == leaf[s])
    {
      assert s != SlotAt(r, va, n);
    }
  }

  lemma SlotAbove(r: nat, va: nat, i: nat)
    ensures SlotAt(r, va, i + 1) == SlotAt(r, va + PAGE, i)
  {
  }

  lemma RangeAbove(s: C.Slot, r: nat, va: nat, n: nat)
    requires InRange(s, r, va + PAGE, n)
    ensures InRange(s, r, va, n + 1)
  {
    var i: nat :| i < n && s == SlotAt(r, va + PAGE, i);
    SlotAbove(r, va, i);
  }

  lemma OneMoreLeafBelow(leaf: imap<C.Slot, Word>, leaf1: imap<C.Slot, Word>, leaf2: imap<C.Slot, Word>, r: nat,
      va: nat, fs: seq<nat>, f: nat)
    requires RangeLeaves(leaf, leaf1, r, va + PAGE, fs) && va + |fs| * PAGE < USER_END
    requires leaf2 == leaf1[SlotAt(r, va, 0) := Word(f, USER_RW)]
    ensures RangeLeaves(leaf, leaf2, r, va, [f] + fs)
  {
    hide SlotAt;
    var n, gs := |fs|, [f] + fs;
    forall i: nat | i < |gs| ensures SlotAt(r, va, i) in leaf2 && leaf2[SlotAt(r, va, i)] == Word(gs[i], USER_RW) {
      if i > 0 {
        SlotAbove(r, va, i - 1);
        if SlotAt(r, va, i) == SlotAt(r, va, 0) {
          SlotsDistinct(r, va, i, 0);
        }
      }
    }
    forall s: C.Slot | !InRange(s, r, va, |gs|)
      ensures (s in leaf2 <==> s in leaf) && (s in leaf ==> leaf2[s] == leaf[s])
    {
      assert s != SlotAt(r, va, 0);
      if InRange(s, r, va + PAGE, n) {
        RangeAbove(s, r, va, n);
      }
    }
  }

  lemma OneMoreFrameBelow(vm: C.Vm, vm1: C.Vm, vm2: C.Vm, fs: seq<nat>, f: nat)
    requires FreshFrames(vm, vm1, fs) && f !in vm1.data
    requires vm2.data == vm1.data[f := ZeroPage()] && vm2.count == vm1.count[f := 1]
    ensures FreshFrames(vm, vm2, [f] + fs)
  {
  }

  lemma OneMoreMappedBelow(vm: C.Vm, vm1: C.Vm, vm2: C.Vm, r: nat, va: nat, fs: seq<nat>, f: nat)
    requires RangeMapped(vm, vm1, r, va + PAGE, fs) && va + |fs| * PAGE < USER_END
    requires var e := C.MapFresh(SlotAt(r, va, 0), f); C.Enabled(vm1, e) && vm2 == C.Apply(vm1, e)
    ensures RangeMapped(vm, vm2, r, va, [f] + fs)
  {
    C.StepKeepsOk(vm1, C.MapFresh(SlotAt(r, va, 0), f));
    hide C.Ok, RangeLeaves, FreshFrames;
    OneMoreLeafBelow(vm.leaf, vm1.leaf, vm2.leaf, r, va, fs, f);
    OneMoreFrameBelow(vm, vm1, vm2, fs, f);
  }

  lemma OneMoreFrame(vm: C.Vm, vm1: C.Vm, vm2: C.Vm, fs: seq<nat>, f: nat)
    requires FreshFrames(vm, vm1, fs) && f !in vm1.data
    requires vm2.data == vm1.data[f := ZeroPage()] && vm2.count == vm1.count[f := 1]
    ensures FreshFrames(vm, vm2, fs + [f])
  {
  }

  lemma OneMoreMapped(vm: C.Vm, vm1: C.Vm, vm2: C.Vm, r: nat, va: nat, fs: seq<nat>, f: nat)
    requires RangeMapped(vm, vm1, r, va, fs) && va + |fs| * PAGE < USER_END
    requires var e := C.MapFresh(SlotAt(r, va, |fs|), f); C.Enabled(vm1, e) && vm2 == C.Apply(vm1, e)
    ensures RangeMapped(vm, vm2, r, va, fs + [f])
  {
    C.StepKeepsOk(vm1, C.MapFresh(SlotAt(r, va, |fs|), f));
    hide C.Ok, RangeLeaves, FreshFrames;
    OneMoreLeaf(vm.leaf, vm1.leaf, vm2.leaf, r, va, fs, f);
    OneMoreFrame(vm, vm1, vm2, fs, f);
  }

  // ----- what a range of pages costs ----------------------------------------------------------

  /** The tables page v can lack when the page before it is mapped. */
  function Extra(v: VPage): nat {
    if v.d != 0 then 0 else if v.c != 0 then 1 else if v.b != 0 then 2 else 3
  }

  function Least(a: nat, b: nat): nat { if a < b then a else b }

  /** The frames that mapping n pages from va on takes: the pages and the tables that are missing; of
      those, each page after the first finds all but its own new ones. */
  function RangeCost(m: Mem, r: nat, va: nat, n: nat): nat {
    if n == 0 then 0
    else
      var v := PageOf(va + (n - 1) * PAGE);
      RangeCost(m, r, va, n - 1) + 1 + if n == 1 then Missing(m, r, v) else Least(Extra(v), Missing(m, r, v))
  }

  lemma {:induction false} RangeCostGrows(m: Mem, r: nat, va: nat, i: nat, n: nat)
    requires i <= n
    ensures RangeCost(m, r, va, i) <= RangeCost(m, r, va, n)
  {
    if i < n {
      RangeCostGrows(m, r, va, i, n - 1);
    }
  }

  lemma {:induction false} RangeCostShrinks(m: Mem, m': Mem, r: nat, va: nat, n: nat)
    requires NoneLost(m, r, m')
    ensures RangeCost(m', r, va, n) <= RangeCost(m, r, va, n)
  {
    if n > 0 {
      RangeCostShrinks(m, m', r, va, n - 1);
    }
  }

  /** What page i of the range still lacks once the pages before it are mapped. */
  lemma PageCost(m: Mem, m': Mem, r: nat, va: nat, i: nat)
    requires NoneLost(m, r, m')
    requires i > 0 ==> Missing(m', r, PageOf(va + (i - 1) * PAGE)) == 0
    ensures RangeCost(m, r, va, i) + 1 + Missing(m', r, PageOf(va + i * PAGE)) <= RangeCost(m, r, va, i + 1)
  {
    hide PageOf, Missing, Extra;
    if i > 0 {
      NextMissing(m', r, va + (i - 1) * PAGE);
    }
  }

  lemma NextMissing(m: Mem, r: nat, va: nat)
    requires Missing(m, r, PageOf(va)) == 0
    ensures Missing(m, r, PageOf(va + PAGE)) <= Extra(PageOf(va + PAGE))
  {
    NextDigits(va);
  }

  lemma NextDigits(va: nat)
    ensures var v, w := PageOf(va), PageOf(va + PAGE);
      && (w.d != 0 ==> w.c == v.c && w.b == v.b && w.a == v.a)
      && (w.c != 0 ==> w.b == v.b && w.a == v.a)
      && (w.b != 0 ==> w.a == v.a)
  {
    var p := va / PAGE;
    assert (va + PAGE) / PAGE == p + 1;
    assert va / 0x20_0000 == p / 512 && (va + PAGE) / 0x20_0000 == (p + 1) / 512;
    assert va / 0x4000_0000 == p / 512 / 512 && (va + PAGE) / 0x4000_0000 == (p + 1) / 512 / 512;
    assert va / 0x80_0000_0000 == p / 512 / 512 / 512 && (va + PAGE) / 0x80_0000_0000 == (p + 1) / 512 / 512 / 512;
    Carry(p);
    Carry(p / 512);
    Carry(p / 512 / 512);
  }

  lemma Carry(p: nat)
    ensures (p + 1) / 512 == if (p + 1) % 512 == 0 then p / 512 + 1 else p / 512
  {
  }

  // ----- the regions ---------------------------------------------------------------------------

  datatype Region = Region(start: nat, end: nat) {
    predicate Aligned() { start <= end && start % PAGE == 0 && end % PAGE == 0 }
  }

  /** The regions follow one another from HEAP_START on with no gap and no overlap. */
  predicate Tiled(heap: seq<Region>) {
    && |heap| > 0 && heap[0].start == HEAP_START
    && (forall i :: 0 <= i < |heap| ==> heap[i].Aligned())
    && (forall i :: 0 <= i < |heap| - 1 ==> heap[i].end == heap[i + 1].start)
  }

  /** So an address belongs to exactly one region, or lies past the last. */
  lemma {:induction false} TilesCover(heap: seq<Region>, a: nat)
    requires Tiled(heap) && HEAP_START <= a < heap[|heap| - 1].end
    ensures exists i :: 0 <= i < |heap| && heap[i].start <= a < heap[i].end
    decreases |heap|
  {
    var n := |heap|;
    if heap[n - 1].start <= a {
    } else {
      assert n > 1 && heap[n - 2].end == heap[n - 1].start;
      TilesCover(heap[..n - 1], a);
      var i :| 0 <= i < n - 1 && heap[..n - 1][i].start <= a < heap[..n - 1][i].end;
      assert heap[i].start <= a < heap[i].end;
    }
  }

  lemma {:induction false} TilesDisjoint(heap: seq<Region>, i: nat, j: nat)
    requires Tiled(heap) && i < j < |heap|
    ensures heap[i].end <= heap[j].start
    decreases j - i
  {
    assert heap[i].end == heap[i + 1].start;
    if i + 1 < j {
      TilesDisjoint(heap, i + 1, j);
      assert heap[i + 1].Aligned();
    }
  }

  /** update_page_tables over the pages of a range, lowest first. */
  method MapRange(k: AddressSpaces, va: nat, n: nat) returns (ghost fs: seq<nat>)
    requires k.Running() && va + n * PAGE <= USER_END && k.CanTake(RangeCost(k.ram.m, k.cr3, va, n))
    modifies k`role, k.ram, k.ram.words, k.alloc, k.alloc.descs
    ensures k.Running() && |fs| == n && RangeMapped(old(k.Memory()), k.Memory(), k.cr3, va, fs)
    ensures NoneLost(old(k.ram.m), k.cr3, k.ram.m) && k.St().pool.top == old(k.St().pool.top)
    ensures k.St().Avail() >= old(k.St().Avail()) - RangeCost(old(k.ram.m), k.cr3, va, n)
    ensures C.Sharing(old(k.Memory())) ==> C.Sharing(k.Memory())
  {
    hide Represents, Forest, Mapped511, Abs, RangeMapped, C.Enabled, C.Apply, Missing, State.Ok, Live, Ram.Valid,
      PageOf, C.Ok, Leaf, C.Sharing;
    fs := [];
    ghost var before := k.Memory();
    ghost var avail, m := k.St().Avail(), k.ram.m;
    AbsOk(k.St(), k.live);
    NothingMapped(before, k.cr3, va);
    var i := 0;
    while i < n
      invariant 0 <= i <= n && |fs| == i && k.Running() && RangeMapped(before, k.Memory(), k.cr3, va, fs)
      invariant C.Sharing(before) ==> C.Sharing(k.Memory())
      invariant k.St().pool.top == old(k.St().pool.top)
      invariant NoneLost(m, k.cr3, k.ram.m) && k.St().Avail() >= avail - RangeCost(m, k.cr3, va, i)
      invariant i > 0 ==> Missing(k.ram.m, k.cr3, PageOf(va + (i - 1) * PAGE)) == 0
    {
      PageCost(m, k.ram.m, k.cr3, va, i);
      RangeCostGrows(m, k.cr3, va, i + 1, n);
      UserPage(va + i * PAGE);
      ghost var vm := k.Memory();
      var f := k.MapFreshPage(PageOf(va + i * PAGE));
      OneMoreMapped(before, vm, k.Memory(), k.cr3, va, fs, f);
      FreshPageKeepsSharing(vm, C.Slot(k.cr3, PageOf(va + i * PAGE)), f);
      PresentLeaf(k.ram.m, k.cr3, PageOf(va + i * PAGE));
      fs := fs + [f];
      i := i + 1;
    }
  }

  lemma NothingMapped(vm: C.Vm, r: nat, va: nat)
    requires C.Ok(vm)
    ensures RangeMapped(vm, vm, r, va, [])
  {
  }

  lemma FreshPageKeepsSharing(vm: C.Vm, s: C.Slot, f: nat)
    requires C.Ok(vm) && C.Enabled(vm, C.MapFresh(s, f))
    ensures C.Sharing(vm) ==> C.Sharing(C.Apply(vm, C.MapFresh(s, f)))
  {
    if C.Sharing(vm) {
      C.StepKeepsSharing(vm, C.MapFresh(s, f));
    }
  }

  lemma PresentLeaf(m: Mem, r: nat, v: VPage)
    requires Leaf(m, r, v).Present()
    ensures Missing(m, r, v) == 0
  {
  }

  /** The page below a mapped one shares the tables the upper one would otherwise lack. */
  lemma PageBelow(m: Mem, r: nat, va: nat)
    requires Missing(m, r, PageOf(va + PAGE)) == 0
    ensures Missing(m, r, PageOf(va)) <= Extra(PageOf(va + PAGE))
  {
    NextDigits(va);
  }

  function PagesBetween(lo: nat, hi: nat): (n: nat)
    requires lo <= hi
    ensures n * PAGE <= hi - lo
  {
    (hi - lo) / PAGE
  }

  lemma WholePages(lo: nat, hi: nat)
    requires lo <= hi && lo % PAGE == 0 && hi % PAGE == 0
    ensures lo + PagesBetween(lo, hi) * PAGE == hi
  {
  }

  /** The frames that growing down by n pages from end takes. */
  function GrowthCost(m: Mem, r: nat, end: nat, n: nat): nat
    requires n * PAGE <= end
  {
    if n == 0 then 0
    else
      var v, above := PageOf(end - n * PAGE), PageOf(end - (n - 1) * PAGE);
      GrowthCost(m, r, end, n - 1) + 1 + if n == 1 then Missing(m, r, v) else Least(Extra(above), Missing(m, r, v))
  }

  /** What is left to take after the first i of n pages. */
  function GrowthLeft(m: Mem, r: nat, end: nat, i: nat, n: nat): nat
    requires i <= n && n * PAGE <= end
  {
    GrowthCostGrows(m, r, end, i, n);
    GrowthCost(m, r, end, n) - GrowthCost(m, r, end, i)
  }

  lemma {:induction false} GrowthCostGrows(m: Mem, r: nat, end: nat, i: nat, n: nat)
    requires i <= n && n * PAGE <= end
    ensures GrowthCost(m, r, end, i) <= GrowthCost(m, r, end, n)
    decreases n
  {
    hide PageOf, Missing, Extra;
    if i < n {
      GrowthCostGrows(m, r, end, i, n - 1);
    }
  }

  lemma GrowthStarts(m: Mem, r: nat, end: nat, n: nat)
    requires n * PAGE <= end
    ensures GrowthLeft(m, r, end, 0, n) == GrowthCost(m, r, end, n) && NoneLost(m, r, m)
  {
    hide PageOf, Missing, Extra;
  }

  lemma PageCostBelow(m: Mem, m': Mem, r: nat, end: nat, i: nat, n: nat)
    requires NoneLost(m, r, m') && (i + n + 1) * PAGE <= end
    requires i > 0 ==> Missing(m', r, PageOf(end - i * PAGE)) == 0
    ensures GrowthLeft(m, r, end, i + 1, i + n + 1) + 1 + Missing(m', r, PageOf(end - (i + 1) * PAGE)) <= GrowthLeft(m,
      r, end, i, i + n + 1)
  {
    hide PageOf, Missing, Extra;
    if i > 0 {
      assert end - (i + 1) * PAGE + PAGE == end - i * PAGE;
      PageBelow(m', r, end - (i + 1) * PAGE);
    }
  }

  // ----- every page backed --------------------------------------------------------------------

  /** Each of the n pages from lo on is mapped, to a frame that none of the others has. */
  ghost predicate Backed(vm: C.Vm, r: nat, lo: nat, n: nat) {
    && (forall i: nat :: i < n ==> SlotAt(r, lo, i) in vm.leaf)
    && (forall i: nat, j: nat :: i < j < n ==> !C.SameFrame(vm, SlotAt(r, lo, i), SlotAt(r, lo, j)))
  }

  lemma SlotFrom(r: nat, lo: nat, k: nat, i: nat)
    ensures SlotAt(r, lo + k * PAGE, i) == SlotAt(r, lo, k + i)
  {
    assert lo + k * PAGE + i * PAGE == lo + (k + i) * PAGE;
  }

  /** A fresh range that starts k pages up leaves the page i below it alone. */
  lemma BelowRange(vm: C.Vm, vm': C.Vm, r: nat, lo: nat, k: nat, fs: seq<nat>, i: nat)
    requires RangeMapped(vm, vm', r, lo + k * PAGE, fs) && lo + (k + |fs|) * PAGE <= USER_END && i < k
    requires SlotAt(r, lo, i) in vm.leaf
    ensures SlotAt(r, lo, i) in vm'.leaf && vm'.leaf[SlotAt(r, lo, i)] == vm.leaf[SlotAt(r, lo, i)]
    ensures vm'.leaf[SlotAt(r, lo, i)].frame !in fs
  {
    hide SlotAt, C.Ok;
    if InRange(SlotAt(r, lo, i), r, lo + k * PAGE, |fs|) {
      var j: nat :| j < |fs| && SlotAt(r, lo, i) == SlotAt(r, lo + k * PAGE, j);
      SlotFrom(r, lo, k, j);
      SlotsDistinct(r, lo, i, k + j);
    }
    assert vm.leaf[SlotAt(r, lo, i)].frame in vm.data by { FrameKnown(vm, SlotAt(r, lo, i)); }
  }

  lemma FrameKnown(vm: C.Vm, s: C.Slot)
    requires C.Ok(vm) && s in vm.leaf
    ensures vm.leaf[s].frame in vm.data
  {
  }

  lemma InsideRange(vm: C.Vm, vm': C.Vm, r: nat, lo: nat, k: nat, fs: seq<nat>, i: nat)
    requires RangeMapped(vm, vm', r, lo + k * PAGE, fs) && k <= i < k + |fs|
    ensures SlotAt(r, lo, i) in vm'.leaf && vm'.leaf[SlotAt(r, lo, i)].frame == fs[i - k]
  {
    hide SlotAt, C.Ok, FreshFrames, InRange;
    SlotFrom(r, lo, k, i - k);
  }

  /** A fresh range above keeps the pages below backed; one right behind them joins them. */
  lemma BackedGrows(vm: C.Vm, vm': C.Vm, r: nat, lo: nat, n: nat, k: nat, fs: seq<nat>)
    requires Backed(vm, r, lo, n) && n <= k && RangeMapped(vm, vm', r, lo + k * PAGE, fs) &&
      lo + (k + |fs|) * PAGE <= USER_END
    ensures Backed(vm', r, lo, n)
    ensures k == n ==> Backed(vm', r, lo, n + |fs|)
  {
    hide SlotAt, C.Ok;
    forall i: nat | i < n
      ensures SlotAt(r, lo, i) in vm'.leaf && vm'.leaf[SlotAt(r, lo, i)].frame !in fs
      ensures vm'.leaf[SlotAt(r, lo, i)] == vm.leaf[SlotAt(r, lo, i)]
    {
      BelowRange(vm, vm', r, lo, k, fs, i);
    }
    forall i: nat | k <= i < k + |fs|
      ensures SlotAt(r, lo, i) in vm'.leaf && vm'.leaf[SlotAt(r, lo, i)].frame == fs[i - k]
    {
      InsideRange(vm, vm', r, lo, k, fs, i);
    }
    hide RangeMapped;
    forall i: nat, j: nat | i < j < n ensures !C.SameFrame(vm', SlotAt(r, lo, i), SlotAt(r, lo, j)) {
      assert !C.SameFrame(vm, SlotAt(r, lo, i), SlotAt(r, lo, j));
    }
  }

  /** A copy-on-write fault gives its page another frame or leaves it the one it has, so backed pages
      stay backed. */
  lemma FaultKeepsBacked(vm: C.Vm, at: C.Slot, f: nat, r: nat, lo: nat, n: nat)
    requires C.Ok(vm) && C.Enabled(vm, C.WriteFault(at, f)) && Backed(vm, r, lo, n)
    ensures Backed(C.Apply(vm, C.WriteFault(at, f)), r, lo, n)
  {
    var vm' := C.Apply(vm, C.WriteFault(at, f));
    hide SlotAt;
    forall i: nat, j: nat | i < j < n ensures !C.SameFrame(vm', SlotAt(r, lo, i), SlotAt(r, lo, j)) {
      assert !C.SameFrame(vm, SlotAt(r, lo, i), SlotAt(r, lo, j));
    }
  }

  // ----- what growing over mapped pages does ---------------------------------------------------

  /** Fresh pages leave every mapping in place exactly when no page of the range was mapped. */
  lemma FreshRangeKeepsIff(vm: C.Vm, vm': C.Vm, r: nat, va: nat, fs: seq<nat>)
    requires RangeMapped(vm, vm', r, va, fs)
    ensures (forall s :: s in vm.leaf ==> s in vm'.leaf && vm'.leaf[s] == vm.leaf[s]) <==>
      (forall i: nat :: i < |fs| ==> SlotAt(r, va, i) !in vm.leaf)
  {
    hide SlotAt;
    if i: nat :| i < |fs| && SlotAt(r, va, i) in vm.leaf {
      FrameKnown(vm, SlotAt(r, va, i));
      assert vm'.leaf[SlotAt(r, va, i)].frame != vm.leaf[SlotAt(r, va, i)].frame;
    }
  }

  /** And they leave all that was seen in place exactly when what was mapped there was zero. */
  lemma FreshRangeSeenIff(vm: C.Vm, vm': C.Vm, r: nat, va: nat, fs: seq<nat>)
    requires RangeMapped(vm, vm', r, va, fs)
    ensures var v, v' := C.ViewOf(vm), C.ViewOf(vm');
      (forall s :: s in v ==> s in v' && v'[s] == v[s]) <==>
      (forall i: nat :: i < |fs| && SlotAt(r, va, i) in v ==> v[SlotAt(r, va, i)] == ZeroPage())
  {
    hide SlotAt, InRange;
    var v, v' := C.ViewOf(vm), C.ViewOf(vm');
    forall i: nat | i < |fs| ensures SlotAt(r, va, i) in v' && v'[SlotAt(r, va, i)] == ZeroPage() {}
    forall s | s in v && !InRange(s, r, va, |fs|) ensures s in v' && v'[s] == v[s] {
      FrameKnown(vm, s);
    }
    if forall i: nat :: i < |fs| && SlotAt(r, va, i) in v ==> v[SlotAt(r, va, i)] == ZeroPage() {
      forall s | s in v ensures s in v' && v'[s] == v[s] {
        if InRange(s, r, va, |fs|) {
          InRangeAt(s, r, va, |fs|);
        }
      }
    }
  }

  lemma InRangeAt(s: C.Slot, r: nat, va: nat, n: nat)
    requires InRange(s, r, va, n)
    ensures exists i: nat :: i < n && s == SlotAt(r, va, i)
  {
  }

  function PageStart(a: nat): (s: nat)
    ensures s <= a && s % PAGE == 0
  {
    a / PAGE * PAGE
  }

  datatype Outcome = CopyOnWrite | Grown | SegmentationFault

  /** What a fault on a page that is not marked does to a stack from start down to end: a fault in the
      stack's last page or below extends it down to the fault's page if the stack, as it is, takes at
      most 4096000 bytes; any other ends the process. */
  predicate StackFault(start: nat, end: nat, fault: nat, out: Outcome, end': nat) {
    && (out.Grown? <==> fault / 4096 * 4096 <= end && start - end <= 4096000)
    && (if out.Grown? then end' == fault / 4096 * 4096 else out.SegmentationFault? && end' == end)
  }

  /** The part of mm_struct that changes while the program runs: the regions from vma_heap on, of
      which the last is vma_map_iter, and the bounds of vma_stack. */
  class Regions {
    var heap: seq<Region>
    var stackStart: nat
    var stackEnd: nat

    ghost predicate Valid()
      reads this
    {
      Tiled(heap) && stackEnd % PAGE == 0 && stackEnd <= stackStart < USER_END
    }

    /** As load_file leaves it. */
    constructor ()
      ensures Valid() && heap == [Region(HEAP_START, HEAP_START + PAGE)] && stackStart == STACK_START + PAGE - 16 &&
        stackEnd == STACK_START
    {
      heap := [Region(HEAP_START, HEAP_START + PAGE)];
      stackStart, stackEnd := STACK_START + PAGE - 16, STACK_START;
    }

    function Brk(): nat
      requires |heap| > 0
      reads this
    {
      heap[|heap| - 1].end
    }

    static lemma KeepsBacked(vm: C.Vm, vm': C.Vm, r: nat, brk: nat, fs: seq<nat>)
      requires HEAP_START <= brk && HEAP_START + PagesBetween(HEAP_START, brk) * PAGE == brk &&
        brk + |fs| * PAGE <= USER_END
      requires RangeMapped(vm, vm', r, brk, fs)
      ensures Backed(vm, r, HEAP_START, PagesBetween(HEAP_START, brk)) ==>
        Backed(vm', r, HEAP_START, PagesBetween(HEAP_START, brk + |fs| * PAGE))
    {
      var n := PagesBetween(HEAP_START, brk);
      assert PagesBetween(HEAP_START, brk + |fs| * PAGE) == n + |fs| by { PagesOn(brk - HEAP_START, |fs|); }
      if Backed(vm, r, HEAP_START, n) {
        BackedGrows(vm, vm', r, HEAP_START, n, n, fs);
      }
    }

    static lemma AboveKeepsBacked(vm: C.Vm, vm': C.Vm, r: nat, brk: nat, addr: nat, fs: seq<nat>)
      requires HEAP_START <= brk <= addr && HEAP_START + PagesBetween(HEAP_START, brk) * PAGE == brk && addr % PAGE == 0
      requires addr + |fs| * PAGE <= USER_END && RangeMapped(vm, vm', r, addr, fs)
      requires Backed(vm, r, HEAP_START, PagesBetween(HEAP_START, brk))
      ensures Backed(vm', r, HEAP_START, PagesBetween(HEAP_START, brk))
    {
      var n, j := PagesBetween(HEAP_START, brk), PagesBetween(HEAP_START, addr);
      WholePages(HEAP_START, addr);
      assert n <= j;
      BackedGrows(vm, vm', r, HEAP_START, n, j, fs);
    }

    /** Every page of the heap is mapped, to a frame of its own. */
    ghost predicate HeapBacked(k: AddressSpaces)
      requires |heap| > 0 && k.Valid()
      reads this, k, k.ram, k.ram.words, k.alloc, k.alloc.descs
    {
      HeapBackedBy(k.Memory(), k.cr3)
    }

    ghost predicate HeapBackedBy(vm: C.Vm, r: nat)
      requires |heap| > 0
      reads this
    {
      HEAP_START <= Brk() && Backed(vm, r, HEAP_START, PagesBetween(HEAP_START, Brk()))
    }

    lemma BrkAbove()
      requires Valid()
      ensures HEAP_START <= Brk() && HEAP_START + PagesBetween(HEAP_START, Brk()) * PAGE == Brk()
    {
      if |heap| > 1 {
        TilesDisjoint(heap, 0, |heap| - 1);
      }
      assert heap[|heap| - 1].Aligned() && heap[0].Aligned();
      WholePages(HEAP_START, Brk());
    }

    /** user_malloc. */
    method UserMalloc(k: AddressSpaces, bytes: nat) returns (addr: nat, ghost fs: seq<nat>)
      requires Valid() && k.Running() && Brk() + PagesFor(bytes) * PAGE <= USER_END
      requires k.CanTake(1 + RangeCost(k.ram.m, k.cr3, Brk(), PagesFor(bytes)))
      modifies this`heap, k`role, k.ram, k.ram.words, k.alloc, k.alloc.descs
      ensures Valid() && k.Running()
      ensures addr == old(Brk()) && heap == old(heap) + [Region(addr, Brk())]
      ensures addr + bytes <= Brk() < addr + bytes + PAGE && Brk() == addr + |fs| * PAGE
      ensures RangeMapped(old(k.Memory()), k.Memory(), k.cr3, addr, fs)
      ensures C.Sharing(old(k.Memory())) ==> C.Sharing(k.Memory())
      ensures old(HeapBacked(k)) ==> HeapBacked(k)
    {
      hide Represents, Forest, Mapped511, Abs, RangeMapped, Missing, State.Ok, Ram.Valid, PageOf, C.Sharing, RangeCost,
        Allotted, Backed;
      addr := heap[|heap| - 1].end;
      var end := if bytes % PAGE == 0 then addr + bytes else addr + (bytes / PAGE + 1) * PAGE;
      ghost var s, vm := k.St(), k.Memory();
      BrkAbove();
      NothingAllotted(s);
      var vma := k.Kmalloc(VMA_BYTES);
      AllottedSoFar(s, k.St(), s.pool.top - s.Avail(), 1);
      heap := heap + [Region(addr, end)];
      RangeCostShrinks(s.m, k.ram.m, k.cr3, addr, (end - addr) / PAGE);
      fs := MapRange(k, addr, (end - addr) / PAGE);
      KeepsBacked(vm, k.Memory(), k.cr3, addr, fs);
    }

    /** One more page at the low end of the stack. */
    method GrowOnePage(k: AddressSpaces, ghost before: C.Vm, ghost fs: seq<nat>) returns (ghost fs': seq<nat>)
      requires Valid() && k.Running() && PAGE <= stackEnd && stackEnd + |fs| * PAGE <= USER_END
      requires k.CanTake(1 + Missing(k.ram.m, k.cr3, PageOf(stackEnd - PAGE))) &&
        RangeMapped(before, k.Memory(), k.cr3, stackEnd, fs)
      modifies this`stackEnd, k`role, k.ram, k.ram.words, k.alloc, k.alloc.descs
      ensures Valid() && k.Running() && stackEnd == old(stackEnd) - PAGE && |fs'| == |fs| + 1
      ensures RangeMapped(before, k.Memory(), k.cr3, stackEnd, fs')
      ensures C.Sharing(old(k.Memory())) ==> C.Sharing(k.Memory())
      ensures k.St().pool.top == old(k.St().pool.top)
      ensures k.St().Avail() == old(k.St().Avail()) - 1 - Missing(old(k.ram.m), k.cr3, PageOf(stackEnd))
      ensures NoneLost(old(k.ram.m), k.cr3, k.ram.m) && Missing(k.ram.m, k.cr3, PageOf(stackEnd)) == 0
    {
      hide Represents, Forest, Mapped511, Abs, RangeMapped, C.Enabled, C.Apply, Missing, NoneLost, State.Ok, Live,
        Ram.Valid, PageOf, C.Ok, Leaf, C.Sharing;
      stackEnd := stackEnd - PAGE;
      UserPage(stackEnd);
      ghost var vm := k.Memory();
      var f := k.MapFreshPage(PageOf(stackEnd));
      OneMoreMappedBelow(before, vm, k.Memory(), k.cr3, stackEnd, fs, f);
      FreshPageKeepsSharing(vm, C.Slot(k.cr3, PageOf(stackEnd)), f);
      PresentLeaf(k.ram.m, k.cr3, PageOf(stackEnd));
      fs' := [f] + fs;
    }

    /** How far growth from end has come, with n pages to go: fs are the new pages' frames, and the
        frames the rest will take are there. */
    ghost predicate Growing(k: AddressSpaces, before: C.Vm, m: Mem, end: nat, fs: seq<nat>, n: nat)
      reads this, k, k.ram, k.ram.words, k.alloc, k.alloc.descs
    {
      && Valid() && k.Running() && (|fs| + n) * PAGE <= end < USER_END && stackEnd == end - |fs| * PAGE
      && RangeMapped(before, k.Memory(), k.cr3, stackEnd, fs) && (C.Sharing(before) ==> C.Sharing(k.Memory()))
      && NoneLost(m, k.cr3, k.ram.m) && (fs != [] ==> Missing(k.ram.m, k.cr3, PageOf(stackEnd)) == 0)
      && k.CanTake(GrowthLeft(m, k.cr3, end, |fs|, |fs| + n))
    }

    /** One turn of the loop. */
    method GrowTurn(k: AddressSpaces, ghost before: C.Vm, ghost m: Mem, ghost end: nat, ghost fs: seq<nat>,
        ghost n: nat) returns (ghost fs': seq<nat>)
      requires Growing(k, before, m, end, fs, n + 1)
      modifies this`stackEnd, k`role, k.ram, k.ram.words, k.alloc, k.alloc.descs
      ensures Growing(k, before, m, end, fs', n) && |fs'| == |fs| + 1
    {
      hide Represents, Mapped511, Abs, RangeMapped, Missing, NoneLost, State.Ok, Live, Ram.Valid, PageOf, C.Sharing,
        GrowthCost, GrowthLeft;
      PageCostBelow(m, k.ram.m, k.cr3, end, |fs|, n);
      ghost var m1 := k.ram.m;
      fs' := GrowOnePage(k, before, fs);
      NoneLostTrans(m, k.cr3, m1, k.ram.m);
    }

    lemma GrowthBegins(k: AddressSpaces, addr: nat)
      requires Valid() && k.Running() && addr % PAGE == 0 && addr <= stackEnd
      requires k.CanTake(GrowthCost(k.ram.m, k.cr3, stackEnd, PagesBetween(addr, stackEnd)))
      ensures Growing(k, k.Memory(), k.ram.m, stackEnd, [], PagesBetween(addr, stackEnd))
      ensures addr + PagesBetween(addr, stackEnd) * PAGE == stackEnd
    {
      GrowthStarts(k.ram.m, k.cr3, stackEnd, PagesBetween(addr, stackEnd));
      WholePages(addr, stackEnd);
      AbsOk(k.St(), k.live);
      NothingMapped(k.Memory(), k.cr3, stackEnd);
      hide Represents, Mapped511, Abs, RangeMapped, Missing, NoneLost, State.Ok, Live, Ram.Valid, PageOf, C.Sharing,
        GrowthCost, GrowthLeft, PagesBetween;
    }

    /** The loop of page_fault_handler that extends the stack down to addr. */
    method GrowStack(k: AddressSpaces, addr: nat) returns (ghost fs: seq<nat>)
      requires Valid() && k.Running() && addr % PAGE == 0 && addr <= stackEnd
      requires k.CanTake(GrowthCost(k.ram.m, k.cr3, stackEnd, PagesBetween(addr, stackEnd)))
      modifies this`stackEnd, k`role, k.ram, k.ram.words, k.alloc, k.alloc.descs
      ensures Valid() && k.Running() && stackEnd == addr && addr + |fs| * PAGE == old(stackEnd)
      ensures RangeMapped(old(k.Memory()), k.Memory(), k.cr3, addr, fs)
      ensures C.Sharing(old(k.Memory())) ==> C.Sharing(k.Memory())
    {
      hide Represents, Mapped511, Abs, RangeMapped, Missing, NoneLost, State.Ok, Live, Ram.Valid, PageOf, C.Ok,
        C.Sharing, GrowthCost, GrowthLeft, PagesBetween;
      ghost var before, m, end := k.Memory(), k.ram.m, stackEnd;
      GrowthBegins(k, addr);
      var pages := PagesBetween(addr, stackEnd);
      fs := [];
      var i := 0;
      while i < pages
        invariant 0 <= i <= pages && |fs| == i && Growing(k, before, m, end, fs, pages - i)
      {
        fs := GrowTurn(k, before, m, end, fs, pages - i - 1);
        i := i + 1;
      }
    }

    predicate MayGrow(addr: nat)
      requires stackEnd <= stackStart
      reads this
    {
      addr <= stackEnd && stackStart - stackEnd <= LIMIT_STACK
    }

    /** page_fault_handler: a copy-on-write fault is resolved by copying or reclaiming the page; a
        fault below the stack extends it; anything else ends the process. */
    method PageFault(k: AddressSpaces, fault: nat) returns (out: Outcome, ghost f: nat, ghost fs: seq<nat>)
      requires Valid() && k.Running() && C.Sharing(k.Memory()) && fault < USER_END
      requires k.WillCopy(PageOf(fault)) ==> k.CanTake(1)
      requires !Leaf(k.ram.m, k.cr3, PageOf(fault)).flags.cow && MayGrow(PageStart(fault)) ==>
        k.CanTake(GrowthCost(k.ram.m, k.cr3, stackEnd, PagesBetween(PageStart(fault), stackEnd)))
      modifies this`stackEnd, k`role, k.ram, k.ram.words, k.alloc, k.alloc.descs
      ensures Valid() && k.Running() && C.Sharing(k.Memory())
      ensures out.CopyOnWrite? <==> Leaf(old(k.ram.m), k.cr3, PageOf(fault)).flags.cow
      ensures out.CopyOnWrite? ==> stackEnd == old(stackEnd) && C.Ok(old(k.Memory()))
      ensures out.CopyOnWrite? ==>
        var e := C.WriteFault(C.Slot(k.cr3, PageOf(fault)), f);
        C.Enabled(old(k.Memory()), e) && k.Memory() == C.Apply(old(k.Memory()), e)
      ensures !out.CopyOnWrite? ==>
        (out.Grown? <==> fault / 4096 * 4096 <= old(stackEnd) && old(stackStart) - old(stackEnd) <= 4096000)
      ensures !out.CopyOnWrite? ==> StackFault(old(stackStart), old(stackEnd), fault, out, stackEnd)
      ensures out.Grown? ==>
        stackEnd == PageStart(fault) && RangeMapped(old(k.Memory()), k.Memory(), k.cr3, stackEnd, fs)
      ensures out.Grown? ==> stackEnd + |fs| * PAGE == old(stackEnd)
      ensures out.SegmentationFault? ==> stackEnd == old(stackEnd) && k.Memory() == old(k.Memory())
      ensures old(HeapBacked(k)) && (out.Grown? ==> Brk() <= stackEnd) ==> HeapBacked(k)
    {
      hide Represents, Forest, Mapped511, Abs, RangeMapped, C.Enabled, C.Apply, Missing, State.Ok, Live, Ram.Valid,
        C.Ok, Leaf, C.Sharing, PageOf, GrowthCost, Backed;
      fs := [];
      BrkAbove();
      ghost var vm := k.Memory();
      var addr := PageStart(fault);
      SamePage(fault);
      UserPage(addr);
      AbsOk(k.St(), k.live);
      var cow;
      cow, f := k.CowFault(PageOf(addr));
      if cow {
        if HeapBackedBy(vm, k.cr3) {
          FaultKeepsBacked(vm, C.Slot(k.cr3, PageOf(addr)), f, k.cr3, HEAP_START, PagesBetween(HEAP_START, Brk()));
        }
        out := CopyOnWrite;
      } else if addr <= stackEnd && stackStart - stackEnd <= LIMIT_STACK {
        fs := GrowStack(k, addr);
        if HeapBackedBy(vm, k.cr3) && Brk() <= addr {
          AboveKeepsBacked(vm, k.Memory(), k.cr3, Brk(), addr, fs);
        }
        out := Grown;
      } else {
        out := SegmentationFault;
      }
    }
  }

  lemma SamePage(va: nat)
    ensures PageOf(PageStart(va)) == PageOf(va)
  {
    var p := va / PAGE * PAGE;
    assert p / PAGE == va / PAGE;
    assert p / 0x20_0000 == p / PAGE / 512 && va / 0x20_0000 == va / PAGE / 512;
    assert p / 0x4000_0000 == p / 0x20_0000 / 512 && va / 0x4000_0000 == va / 0x20_0000 / 512;
    assert p / 0x80_0000_0000 == p / 0x4000_0000 / 512 && va / 0x80_0000_0000 == va / 0x4000_0000 / 512;
  }
}
