/**
 load_file: the pages of each loadable segment are mapped afresh, one more than the segment
 covers, and the file's bytes are copied in; then come a heap page and a stack page.
 */
module ElfLoader {
  import opened PageTables
  import opened PhysicalMemory
  import opened Frames
  import opened Mapping
  import opened Addresses
  import opened KernelHalf
  import opened KernelHeap
  import opened UserMemory
  import opened Paging
  import opened UserBytes
  import opened UserHeap
  import opened ElfImage
  import C = Cow
  import Tar

  // ----- fresh pages, byte by byte --------------------------------------------------------------

  lemma SlotInRange(r: nat, lo: nat, i: nat)
    ensures SlotAt(r, lo * PAGE, i) == SlotOf(r, lo + i)
  {
    assert lo * PAGE + i * PAGE == (lo + i) * PAGE;
  }

  /** The pages lo up to hi can be written. */
  ghost predicate Writable(leaf: imap<C.Slot, Word>, r: nat, lo: nat, hi: nat) {
    forall p: nat :: lo <= p < hi ==> SlotOf(r, p) in leaf && leaf[SlotOf(r, p)].flags.writable
  }

  /** The views before and after agree on s. */
  ghost predicate SameAt(v: C.View, v': C.View, s: C.Slot) {
    (s in v' <==> s in v) && (s in v ==> v'[s] == v[s])
  }

  lemma OutsideSeen(vm: C.Vm, vm': C.Vm, r: nat, va: nat, fs: seq<nat>, s: C.Slot)
    requires RangeMapped(vm, vm', r, va, fs) && !InRange(s, r, va, |fs|)
    ensures SameAt(C.ViewOf(vm), C.ViewOf(vm'), s)
  {
    hide InRange;
    if s in vm.leaf {
      FrameKnown(vm, s);
    }
    hide C.Ok;
  }

  lemma InsideSeen(vm: C.Vm, vm': C.Vm, r: nat, va: nat, fs: seq<nat>, i: nat)
    requires RangeMapped(vm, vm', r, va, fs) && i < |fs|
    ensures var s := SlotAt(r, va, i);
      s in vm'.leaf && vm'.leaf[s].flags.writable && s in C.ViewOf(vm') && C.ViewOf(vm')[s] == ZeroPage()
  {
    hide SlotAt, InRange;
  }

  lemma NotInRange(r: nat, lo: nat, n: nat, p: nat)
    requires (lo + n) * PAGE <= USER_END && !(lo <= p < lo + n) && p * PAGE < USER_END
    ensures !InRange(SlotOf(r, p), r, lo * PAGE, n)
  {
    hide SlotAt, SlotOf;
    if InRange(SlotOf(r, p), r, lo * PAGE, n) {
      var i: nat :| i < n && SlotOf(r, p) == SlotAt(r, lo * PAGE, i);
      SlotInRange(r, lo, i);
      SlotOfInjective(r, p, lo + i);
    }
  }

  lemma PageInside(vm: C.Vm, vm': C.Vm, r: nat, lo: nat, fs: seq<nat>, p: nat)
    requires RangeMapped(vm, vm', r, lo * PAGE, fs) && (lo + |fs|) * PAGE <= USER_END && lo <= p < lo + |fs|
    requires WholePaged(C.ViewOf(vm'))
    ensures SlotOf(r, p) in vm'.leaf && vm'.leaf[SlotOf(r, p)].flags.writable
    ensures p in BytesOf(C.ViewOf(vm'), r) && BytesOf(C.ViewOf(vm'), r)[p] == ZeroBytes()
  {
    hide RangeMapped, SlotOf, SlotAt, C.ViewOf, C.Ok, PageBytes;
    SlotInRange(r, lo, p - lo);
    InsideSeen(vm, vm', r, lo * PAGE, fs, p - lo);
    ZeroPageBytes();
    assert p * PAGE < USER_END;
  }

  lemma PageOutside(vm: C.Vm, vm': C.Vm, r: nat, lo: nat, fs: seq<nat>, p: nat)
    requires RangeMapped(vm, vm', r, lo * PAGE, fs) && (lo + |fs|) * PAGE <= USER_END && !(lo <= p < lo + |fs|)
    requires WholePaged(C.ViewOf(vm)) && WholePaged(C.ViewOf(vm'))
    ensures var b, b' := BytesOf(C.ViewOf(vm), r), BytesOf(C.ViewOf(vm'), r);
      (p in b' <==> p in b) && (p in b ==> b'[p] == b[p])
  {
    hide RangeMapped, SlotOf, SlotAt, C.ViewOf, C.Ok, PageBytes, InRange;
    if p * PAGE < USER_END {
      NotInRange(r, lo, |fs|, p);
      OutsideSeen(vm, vm', r, lo * PAGE, fs, SlotOf(r, p));
    }
  }

  lemma RangeSized(vm: C.Vm, vm': C.Vm, r: nat, va: nat, fs: seq<nat>)
    requires RangeMapped(vm, vm', r, va, fs)
    ensures C.Ok(vm) && C.Ok(vm') && WholePaged(C.ViewOf(vm)) && WholePaged(C.ViewOf(vm'))
  {
    ViewSized(vm);
    ViewSized(vm');
  }

  lemma RangeBytes(vm: C.Vm, vm': C.Vm, r: nat, lo: nat, fs: seq<nat>)
    requires RangeMapped(vm, vm', r, lo * PAGE, fs) && (lo + |fs|) * PAGE <= USER_END
    ensures WholePaged(C.ViewOf(vm)) && WholePaged(C.ViewOf(vm')) && Writable(vm'.leaf, r, lo, lo + |fs|)
    ensures Cleared(BytesOf(C.ViewOf(vm'), r), lo, lo + |fs|)
    ensures SameOutside(BytesOf(C.ViewOf(vm), r), BytesOf(C.ViewOf(vm'), r), lo, lo + |fs|)
  {
    hide RangeMapped, SlotOf, C.ViewOf, C.Ok, BytesOf, WholePaged;
    RangeSized(vm, vm', r, lo * PAGE, fs);
    var b, b', hi := BytesOf(C.ViewOf(vm), r), BytesOf(C.ViewOf(vm'), r), lo + |fs|;
    forall p: nat | lo <= p < hi
      ensures SlotOf(r, p) in vm'.leaf && vm'.leaf[SlotOf(r, p)].flags.writable && p in b' && b'[p] == ZeroBytes()
    {
      PageInside(vm, vm', r, lo, fs, p);
    }
    forall p: nat | !(lo <= p < hi) ensures (p in b' <==> p in b) && (p in b ==> b'[p] == b[p]) {
      PageOutside(vm, vm', r, lo, fs, p);
    }
  }

  lemma OneClearedPage(mem: Bytes, mem': Bytes, p: nat)
    requires Cleared(mem', p, p + 1) && SameOutside(mem, mem', p, p + 1)
    ensures mem' == mem[p := ZeroBytes()]
  {
    forall q: nat
      ensures (q in mem' <==> q in mem[p := ZeroBytes()]) && (q in mem' ==> mem'[q] == mem[p := ZeroBytes()][q])
    {}
  }

  // ----- one byte ---------------------------------------------------------------------------------

  /** What the kernel stores to put byte b at address a. */
  ghost function ByteStore(vm: C.Vm, r: nat, a: nat, b: Byte): C.Event
    requires C.Ok(vm) && SlotOf(r, a / PAGE) in vm.leaf
  {
    var s, o := SlotOf(r, a / PAGE), a % PAGE;
    C.KernelStore(s, o / 8, WithByte(C.ViewOf(vm)[s][o / 8], o % 8, b))
  }

  /** A byte stored into a page that can be written goes where it should, and nowhere else. */
  lemma ByteStored(vm: C.Vm, r: nat, a: nat, b: Byte)
    requires C.Sharing(vm) && a < USER_END && SlotOf(r, a / PAGE) in vm.leaf &&
      vm.leaf[SlotOf(r, a / PAGE)].flags.writable
    ensures var vm', e, p := C.Apply(vm, ByteStore(vm, r, a, b)), ByteStore(vm, r, a, b), a / PAGE;
      && C.Enabled(vm, e) && C.Sharing(vm') && vm'.leaf == vm.leaf
      && WholePaged(C.ViewOf(vm)) && WholePaged(C.ViewOf(vm')) && p in BytesOf(C.ViewOf(vm), r) &&
        |BytesOf(C.ViewOf(vm), r)[p]| == PAGE
      && BytesOf(C.ViewOf(vm'), r) == PutByte(BytesOf(C.ViewOf(vm), r), a, b)
  {
    var s, e, p, o := SlotOf(r, a / PAGE), ByteStore(vm, r, a, b), a / PAGE, a % PAGE;
    C.WritableIsAlone(vm, s);
    C.StepKeepsSharing(vm, e);
    C.StepRefines(vm, e);
    ViewSized(vm);
    hide C.Sharing, C.Ok, PageBytes, SlotOf, WithByte;
    var page := C.ViewOf(vm)[s];
    PageByteReplaced(page, o, b);
    BytesChanged(C.ViewOf(vm), r, p, page[o / 8 := WithByte(page[o / 8], o % 8, b)]);
  }

  /** What space r sees, byte by byte. */
  ghost function MemOf(vm: C.Vm, r: nat): Bytes
    requires C.Ok(vm)
  {
    ViewSized(vm);
    BytesOf(C.ViewOf(vm), r)
  }

  lemma SharingOk(vm: C.Vm)
    requires C.Sharing(vm)
    ensures C.Ok(vm)
  {
  }

  lemma SlotOfAddress(r: nat, a: nat)
    ensures SlotOf(r, a / PAGE) == C.Slot(r, PageOf(a))
  {
    SamePage(a);
  }

  // ----- what loading costs ------------------------------------------------------------------------

  /** The frames that loading one segment takes: one for the region structure, and its pages. */
  function SegmentCost(m: Mem, r: nat, s: Segment): nat {
    if s.Load() && s.First() <= s.Past() then 1 + RangeCost(m, r, s.First() * PAGE, s.Past() - s.First()) else 0
  }

  function SegmentsCost(m: Mem, r: nat, ss: seq<Segment>): nat {
    if ss == [] then 0 else SegmentsCost(m, r, ss[..|ss| - 1]) + SegmentCost(m, r, ss[|ss| - 1])
  }

  function LoadCost(m: Mem, r: nat, ss: seq<Segment>): nat {
    SegmentsCost(m, r, ss) + 2 + RangeCost(m, r, HEAP_START, 1) + RangeCost(m, r, STACK_START, 1)
  }

  lemma {:induction false} SegmentsCostGrows(m: Mem, r: nat, ss: seq<Segment>, i: nat)
    requires i <= |ss|
    ensures SegmentsCost(m, r, ss[..i]) <= SegmentsCost(m, r, ss)
  {
    if i < |ss| {
      SegmentsCostGrows(m, r, ss[..|ss| - 1], i);
      assert ss[..|ss| - 1][..i] == ss[..i];
    } else {
      assert ss[..i] == ss;
    }
  }

  lemma SegmentsCostNext(m: Mem, r: nat, ss: seq<Segment>, i: nat)
    requires i < |ss|
    ensures SegmentsCost(m, r, ss[..i + 1]) == SegmentsCost(m, r, ss[..i]) + SegmentCost(m, r, ss[i])
    ensures SegmentsCost(m, r, ss[..i + 1]) <= SegmentsCost(m, r, ss)
  {
    assert ss[..i + 1][..i] == ss[..i];
    SegmentsCostGrows(m, r, ss, i + 1);
  }

  // ----- the loader --------------------------------------------------------------------------------

  class Loader {
    const k: AddressSpaces
    var regions: seq<LoadedRegion>
    var rip: nat
    var rsp: nat

    constructor (k: AddressSpaces)
      ensures this.k == k && regions == []
    {
      this.k, regions, rip, rsp := k, [], 0, 0;
    }

    ghost predicate Ready()
      reads this, k, k.ram, k.ram.words, k.alloc, k.alloc.descs
    {
      k.Running() && C.Sharing(k.Memory())
    }

    /** The memory of the space being loaded into. */
    ghost function Mem(): Bytes
      requires Ready()
      reads this, k, k.ram, k.ram.words, k.alloc, k.alloc.descs
    {
      MemOf(k.Memory(), k.cr3)
    }

    /** Since s at most cost frames were taken, and no table was lost. */
    ghost predicate Spent(s: State, cost: nat)
      reads this, k, k.ram, k.alloc
    {
      k.St().pool.top == s.pool.top && k.St().Avail() >= s.Avail() - cost && NoneLost(s.m, k.cr3, k.ram.m)
    }

    /** One byte of memcpy, through the page tables. */
    method StoreByte(a: nat, b: Byte)
      requires Ready() && a < USER_END && SlotOf(k.cr3, a / PAGE) in k.Memory().leaf
      requires k.Memory().leaf[SlotOf(k.cr3, a / PAGE)].flags.writable
      modifies k.ram, k.ram.words
      ensures Ready() && k.Memory().leaf == old(k.Memory().leaf) && NoneLost(old(k.ram.m), k.cr3, k.ram.m)
      ensures a / PAGE in old(Mem()) && |old(Mem())[a / PAGE]| == PAGE && Mem() == PutByte(old(Mem()), a, b)
    {
      hide Represents, Mapped511, State.Ok, Ram.Valid, Live, PageOf, C.Sharing, C.Ok, BytesOf, NoneLost, Abs, Leaf,
        C.Apply, C.Enabled, C.ViewOf, WithByte;
      ghost var vm := k.Memory();
      SharingOk(vm);
      ByteStored(vm, k.cr3, a, b);
      SlotOfAddress(k.cr3, a);
      LeafOfSlot(k.St(), k.live, k.cr3, PageOf(a));
      var v, o := PageOf(a), a % PAGE;
      var w := k.ReadWord(v, o / 8);
      var done := k.KernelStoreWord(v, o / 8, WithByte(w, o % 8, b));
    }
  
    method MapSegment(s: Segment)
      requires Ready() && s.Past() * PAGE <= USER_END &&
        k.CanTake(RangeCost(k.ram.m, k.cr3, s.First() * PAGE, s.Past() - s.First()))
      modifies k`role, k.ram, k.ram.words, k.alloc, k.alloc.descs
      ensures Ready() && Writable(k.Memory().leaf, k.cr3, s.First(), s.Past())
      ensures Cleared(Mem(), s.First(), s.Past()) && SameOutside(old(Mem()), Mem(), s.First(), s.Past())
      ensures Spent(old(k.St()), RangeCost(old(k.ram.m), k.cr3, s.First() * PAGE, s.Past() - s.First()))
    {
      hide Represents, Mapped511, State.Ok, Ram.Valid, Live, C.Sharing, NoneLost, Abs, RangeMapped, RangeCost, BytesOf,
        Writable, Cleared, SameOutside;
      ghost var vm := k.Memory();
      var pages := PageCount(s);
      ghost var fs := MapRange(k, s.vaddr / PAGE * PAGE, pages);
      SharingOk(vm);
      SharingOk(k.Memory());
      RangeBytes(vm, k.Memory(), k.cr3, s.First(), fs);
    }

    /** n bytes have been copied since memory was mem and m. */
    ghost predicate Copying(mem: Bytes, m: Mem, s: Segment, file: seq<Byte>, n: nat)
      reads this, k, k.ram, k.ram.words, k.alloc, k.alloc.descs
    {
      && Ready() && Writable(k.Memory().leaf, k.cr3, s.First(), s.Past()) && NoneLost(m, k.cr3, k.ram.m)
      && Spread(Mem(), s, file, n, s.First() * PAGE, s.Past() * PAGE) && SameOutside(mem, Mem(), s.First(), s.Past())
    }

    /** One byte of memcpy. */
    method CopyByte(s: Segment, file: seq<Byte>, n: nat, ghost mem: Bytes, ghost m: Mem)
      requires s.Sound(file) && n < s.filesz && Copying(mem, m, s, file, n)
      modifies k.ram, k.ram.words
      ensures Copying(mem, m, s, file, n + 1)
    {
      hide Represents, Mapped511, State.Ok, Ram.Valid, Live, C.Sharing, NoneLost, Abs, MemOf, Spread, SlotOf;
      ghost var m1, mem1 := k.ram.m, Mem();
      InSegment(s, n);
      StoreByte(s.vaddr + n, file[s.offset + n]);
      SpreadOne(mem1, Mem(), s, file, n, s.First() * PAGE, s.Past() * PAGE);
      NoneLostTrans(m, k.cr3, m1, k.ram.m);
      StillOutside(mem, mem1, s.First(), s.Past(), s.vaddr + n, file[s.offset + n]);
    }

    /** memcpy of the segment's part of the file. */
    method CopySegment(s: Segment, file: seq<Byte>)
      requires Ready() && s.Sound(file)
      requires Cleared(Mem(), s.First(), s.Past()) && Writable(k.Memory().leaf, k.cr3, s.First(), s.Past())
      modifies k.ram, k.ram.words
      ensures Ready() && NoneLost(old(k.ram.m), k.cr3, k.ram.m)
      ensures Placed(Mem(), s, file) && SameOutside(old(Mem()), Mem(), s.First(), s.Past())
    {
      hide Represents, Mapped511, State.Ok, Ram.Valid, Live, C.Sharing, NoneLost, Abs, MemOf, Spread, Writable, Cleared;
      ClearedIsSpread(Mem(), s, file);
      NoneLostRefl(k.ram.m, k.cr3);
      ghost var mem, m := Mem(), k.ram.m;
      var n := 0;
      while n < s.filesz
        invariant 0 <= n <= s.filesz && Copying(mem, m, s, file, n)
      {
        CopyByte(s, file, n, mem, m);
        n := n + 1;
      }
    }

    method LoadSegment(s: Segment, file: seq<Byte>)
      requires Ready() && s.Load() && s.Sound(file) && k.CanTake(SegmentCost(k.ram.m, k.cr3, s))
      modifies `regions, k`role, k.ram, k.ram.words, k.alloc, k.alloc.descs
      ensures Ready() && Spent(old(k.St()), SegmentCost(old(k.ram.m), k.cr3, s))
      ensures |regions| == |old(regions)| + 1 && regions == old(regions) + [regions[|old(regions)|]]
      ensures Describes(regions[|old(regions)|], s)
      ensures Placed(Mem(), s, file) && SameOutside(old(Mem()), Mem(), s.First(), s.Past())
    {
      hide Represents, Mapped511, State.Ok, Ram.Valid, C.Sharing, Abs, BytesOf, MemOf, Spread, Cleared, Writable,
        SameOutside, RangeCost, Missing, Allotted;
      ghost var s0 := k.St();
      NothingAllotted(s0);
      var vma := k.Kmalloc(VMA_BYTES);
      AllottedSoFar(s0, k.St(), s0.pool.top - s0.Avail(), 1);
      RangeCostShrinks(s0.m, k.ram.m, k.cr3, s.First() * PAGE, s.Past() - s.First());
      MapSegment(s);
      ghost var mem := Mem();
      CopySegment(s, file);
      OutsideTrans(old(Mem()), mem, Mem(), s.First(), s.Past());
      var kind := if s.flags == READ + EXECUTE then RegionType.Text
        else if s.flags == READ + WRITE then RegionType.Data else RegionType.Undefined;
      regions := regions + [LoadedRegion(Region(s.vaddr, s.End()), s.flags, kind)];
    }

    /** The first i segments have been loaded since memory was mem and the state s0. */
    ghost predicate Loading(mem: Bytes, s0: State, e: Elf, i: nat)
      requires i <= |e.segments|
      reads this, k, k.ram, k.ram.words, k.alloc, k.alloc.descs
    {
      && Ready() && Image(mem, Mem(), e.segments[..i], e.file) && Lists(regions, e.segments[..i])
      && Spent(s0, SegmentsCost(s0.m, k.cr3, e.segments[..i]))
    }

    /** One turn of the loop over the program headers. */
    method LoadTurn(e: Elf, i: nat, ghost mem: Bytes, ghost s0: State)
      requires e.Sound() && i < |e.segments| && Loading(mem, s0, e, i)
      requires s0.Avail() - LoadCost(s0.m, k.cr3, e.segments) >= MIN_PAGES - 1
      requires s0.pool.top - (s0.Avail() - LoadCost(s0.m, k.cr3, e.segments)) <= k.half.hi
      modifies `regions, k`role, k.ram, k.ram.words, k.alloc, k.alloc.descs
      ensures Loading(mem, s0, e, i + 1)
    {
      hide Represents, Mapped511, State.Ok, Ram.Valid, Live, C.Sharing, Abs, MemOf, Image, Placed, SameOutside,
        RangeCost, Missing, NoneLost, SegmentsCost, SegmentCost, Loads, Lists, Describes;
      var s := e.segments[i];
      ghost var mem1, m1 := Mem(), k.ram.m;
      SegmentsCostNext(s0.m, k.cr3, e.segments, i);
      SegmentCostShrinks(s0.m, m1, k.cr3, s);
      ghost var rs := regions;
      assert e.segments[..i + 1] == e.segments[..i] + [s];
      if s.Load() {
        LoadSegment(s, e.file);
        NoneLostTrans(s0.m, k.cr3, m1, k.ram.m);
        ListsNext(rs, regions[|rs|], e.segments, i);
      } else {
        ListsNext(rs, LoadedRegion(Region(0, 0), 0, Undefined), e.segments, i);
      }
      ImageStep(mem, mem1, Mem(), e.segments[..i], s, e.file);
    }

    method LoadSegments(e: Elf)
      requires Ready() && regions == [] && e.Sound() && k.CanTake(LoadCost(k.ram.m, k.cr3, e.segments))
      modifies `regions, k`role, k.ram, k.ram.words, k.alloc, k.alloc.descs
      ensures Ready() && Image(old(Mem()), Mem(), e.segments, e.file) && Lists(regions, e.segments)
      ensures Spent(old(k.St()), SegmentsCost(old(k.ram.m), k.cr3, e.segments))
    {
      hide Represents, Mapped511, State.Ok, Ram.Valid, Live, C.Sharing, Abs, MemOf, Image, RangeCost, Missing, NoneLost;
      ghost var mem, s0 := Mem(), k.St();
      NothingLoaded(mem, e.file);
      NoneLostRefl(k.ram.m, k.cr3);
      assert e.segments[..0] == [];
      var i := 0;
      while i < |e.segments|
        invariant 0 <= i <= |e.segments| && Loading(mem, s0, e, i)
      {
        LoadTurn(e, i, mem, s0);
        i := i + 1;
      }
      assert e.segments[..i] == e.segments;
    }

    /** load_file, given what get_file_binary found. */
    method LoadFile(binary: Tar.Option<Elf>) returns (status: int, mm: Regions?)
      requires Ready() && regions == []
      requires binary.Some? ==> binary.value.Sound() && k.CanTake(LoadCost(k.ram.m, k.cr3, binary.value.segments))
      modifies this, k`role, k.ram, k.ram.words, k.alloc, k.alloc.descs
      ensures Ready() && status == if binary.Some? then 0 else -1
      ensures binary.None? ==> Mem() == old(Mem()) && regions == [] && rip == old(rip) && rsp == old(rsp) && mm == null
      ensures binary.Some? ==> rip == binary.value.entry && rsp == STACK_START + PAGE - 16
      ensures binary.Some? ==> LoadedImage(old(Mem()), Mem(), binary.value)
      ensures binary.Some? ==>
        ((forall s :: s in binary.value.segments && s.Load() ==> Loaded(Mem(), s, binary.value.file)) <==>
         Consistent(binary.value))
      ensures binary.Some? ==> |regions| > 0 && Lists(regions[..|regions| - 1], binary.value.segments)
      ensures binary.Some? ==>
        regions[|regions| - 1] == LoadedRegion(Region(0x0800_0000, 0x0800_1000), 6, RegionType.Heap)
      ensures binary.Some? && Consistent(binary.value) ==>
        RegionsHold(Mem(), regions[..|regions| - 1], binary.value)
      ensures binary.Some? ==>
        mm != null && fresh(mm) && mm.Valid() && mm.heap == [Region(HEAP_START, HEAP_START + PAGE)] && mm.HeapBacked(k)
    {
      hide Represents, Mapped511, State.Ok, Ram.Valid, Live, C.Sharing, Abs, MemOf, Image, RangeCost, Missing,
        NoneLost, LoadedImage, SegmentsCost, Consistent, Loaded, Backed, Lists, RegionsHold;
      if binary.None? { return -1, null; }
      var e := binary.value;
      rip := e.entry;
      ghost var m := k.ram.m;
      LoadSegments(e);
      ghost var mem := Mem();
      RangeCostShrinks(m, k.ram.m, k.cr3, HEAP_START, 1);
      RangeCostShrinks(m, k.ram.m, k.cr3, STACK_START, 1);
      MapHeapAndStack();
      ghost var rs := regions;
      regions := regions + [LoadedRegion(Region(HEAP_START, HEAP_START + PAGE), READ + WRITE, RegionType.Heap)];
      assert regions[..|regions| - 1] == rs;
      rsp := STACK_START + PAGE - 16;
      HeapAndStackLast(old(Mem()), mem, Mem(), e);
      AllLoadedIff(old(Mem()), Mem(), e);
      if Consistent(e) {
        LoadedRegionsHold(Mem(), rs, e);
      }
      mm := new Regions();
      status := 0;
    }

    method MapHeapAndStack()
      requires Ready() &&
        k.CanTake(2 + RangeCost(k.ram.m, k.cr3, HEAP_START, 1) + RangeCost(k.ram.m, k.cr3, STACK_START, 1))
      modifies k`role, k.ram, k.ram.words, k.alloc, k.alloc.descs
      ensures Ready() && Mem() == old(Mem())[HEAP_PAGE := ZeroBytes()][STACK_PAGE := ZeroBytes()]
      ensures Backed(k.Memory(), k.cr3, HEAP_START, 1)
    {
      hide Represents, Mapped511, State.Ok, Ram.Valid, Live, C.Sharing, Abs, MemOf, RangeCost, Missing, NoneLost,
        SlotOf, Backed;
      ghost var m := k.ram.m;
      MapSingle(HEAP_START);
      RangeCostShrinks(m, k.ram.m, k.cr3, STACK_START, 1);
      MapSingle(STACK_START);
      SharingOk(k.Memory());
      HeapPageBacked(k.Memory(), k.cr3);
    }

    /** The heap's first page, or the stack's. */
    method MapSingle(va: nat)
      requires Ready() && va % PAGE == 0 && va < USER_END && k.CanTake(1 + RangeCost(k.ram.m, k.cr3, va, 1))
      modifies k`role, k.ram, k.ram.words, k.alloc, k.alloc.descs
      ensures Ready() && Spent(old(k.St()), 1 + RangeCost(old(k.ram.m), k.cr3, va, 1))
      ensures Mem() == old(Mem())[va / PAGE := ZeroBytes()]
    {
      hide Represents, Mapped511, State.Ok, Ram.Valid, C.Sharing, Abs, MemOf, RangeCost, Missing, Allotted, SlotOf,
        RangeMapped;
      ghost var s0 := k.St();
      NothingAllotted(s0);
      var vma := k.Kmalloc(VMA_BYTES);
      AllottedSoFar(s0, k.St(), s0.pool.top - s0.Avail(), 1);
      RangeCostShrinks(s0.m, k.ram.m, k.cr3, va, 1);
      ghost var vm := k.Memory();
      ghost var fs := MapRange(k, va, 1);
      SinglePage(vm, k.Memory(), k.cr3, va, fs);
    }
  }

  lemma SegmentCostShrinks(m: Mem, m': Mem, r: nat, s: Segment)
    requires NoneLost(m, r, m')
    ensures SegmentCost(m', r, s) <= SegmentCost(m, r, s)
  {
    if s.First() <= s.Past() {
      RangeCostShrinks(m, m', r, s.First() * PAGE, s.Past() - s.First());
    }
  }

  lemma HeapPageBacked(vm: C.Vm, r: nat)
    requires C.Ok(vm) && HEAP_PAGE in MemOf(vm, r)
    ensures Backed(vm, r, HEAP_START, 1)
  {
    assert SlotOf(r, HEAP_PAGE) == SlotAt(r, HEAP_START, 0);
  }

  lemma SinglePage(vm: C.Vm, vm': C.Vm, r: nat, va: nat, fs: seq<nat>)
    requires va % PAGE == 0 && va < USER_END && |fs| == 1 && RangeMapped(vm, vm', r, va, fs)
    ensures C.Ok(vm) && C.Ok(vm')
    ensures MemOf(vm', r) == MemOf(vm, r)[va / PAGE := ZeroBytes()]
  {
    hide RangeMapped, BytesOf, C.Ok, C.ViewOf;
    RangeSized(vm, vm', r, va, fs);
    assert va == va / PAGE * PAGE;
    RangeBytes(vm, vm', r, va / PAGE, fs);
    OneClearedPage(MemOf(vm, r), MemOf(vm', r), va / PAGE);
  }

  lemma OutsideTrans(mem: Bytes, mem1: Bytes, mem2: Bytes, lo: nat, hi: nat)
    requires SameOutside(mem, mem1, lo, hi) && SameOutside(mem1, mem2, lo, hi)
    ensures SameOutside(mem, mem2, lo, hi)
  {
  }

  lemma StillOutside(mem: Bytes, mem1: Bytes, lo: nat, hi: nat, a: nat, b: Byte)
    requires SameOutside(mem, mem1, lo, hi) && lo <= a / PAGE < hi && a / PAGE in mem1 && |mem1[a / PAGE]| == PAGE
    ensures SameOutside(mem, PutByte(mem1, a, b), lo, hi)
  {
  }

  lemma NoneLostRefl(m: Mem, r: nat)
    ensures NoneLost(m, r, m)
  {
  }

  lemma InSegment(s: Segment, n: nat)
    requires n < s.memsz && s.Past() * PAGE <= USER_END
    ensures s.vaddr + n < USER_END && s.First() <= (s.vaddr + n) / PAGE < s.Past()
  {
  }

  /** The loader's page count, spare page included. */
  function PageCount(s: Segment): (n: nat)
    ensures s.First() + n == s.Past()
  {
    ((s.End() / PAGE + 1) * PAGE - s.vaddr / PAGE * PAGE) / PAGE + 1
  }
}
