/** Building and walking page tables in physical memory. */
module Paging {
  import opened PageTables
  import opened PhysicalMemory
  import opened Frames
  import opened Mapping
  import opened CowFork
  import opened Addresses
  import opened KernelHalf
  import opened KernelHeap
  import opened UserMemory
  import opened OpenPaths
  import opened Boot
  import C = Cow

  class AddressSpaces {
    const ram: Ram
    const alloc: FrameAllocator
    var cr3: nat
    ghost var role: Roles
    ghost var half: Half
    ghost var live: set<nat>  // the roots of the spaces in use

    ghost function St(): State
      reads this, ram, alloc
    {
      State(ram.m, role, alloc.pool, alloc.count)
    }

    ghost predicate Valid()
      reads this, ram, ram.words, alloc, alloc.descs
    {
      ram.Valid() && alloc.Valid() && St().Ok()
    }

    /** Paging is on: CR3 names a root, the kernel half of every root is in place, and the way to every
        user page is open to ring 3. */
    ghost predicate Running()
      reads this, ram, ram.words, alloc, alloc.descs
    {
      Valid() && Mapped511(St(), half) && Live(St(), live) && cr3 in live && Open(ram.m, role)
    }

    /** What the processes can see of memory. */
    ghost function Memory(): C.Vm
      requires Valid()
      reads this, ram, ram.words, alloc, alloc.descs
    {
      Abs(St(), live)
    }

    /** Taking n more frames neither runs into the reserve nor leaves the direct map. */
    ghost predicate CanTake(n: nat)
      reads this, ram, alloc
    {
      n > 0 ==> St().Avail() - n >= MIN_PAGES - 1 && St().pool.top - (St().Avail() - n) <= half.hi
    }

    /** Before init_paging: memory and the free list are set up, no table exists. */
    constructor (ram: Ram, alloc: FrameAllocator, ghost first: nat, ghost n: nat)
      requires ram.Valid() && alloc.Valid() && |ram.m| == n <= |alloc.count| && first <= n
      requires forall f :: 0 <= f < n ==> alloc.count[f] == 0
      requires alloc.pool == BootPool(first, n)
      requires forall p: nat, i: nat :: first <= p < n ==> At(ram.m, p, i) == ZERO
      ensures this.ram == ram && this.alloc == alloc && Valid() && role == BootRoles(first, n)
    {
      this.ram, this.alloc := ram, alloc;
      cr3, live := 0, {};
      role := BootRoles(first, n);
      half := Half(0, 0, 0);
      new;
      hide Represents;
      BootState(St(), first, n);
    }

    /** Allocate a table and hang it below the absent entry i of page p. */
    method NewTable(p: nat, i: nat, fl: Flags, ghost t: Role) returns (child: nat)
      requires Valid() && p < |role| && i < ENTRIES && fl.present
      requires Branch(RoleOf(role, p)) && Leads(RoleOf(role, p), i, t)
      requires !At(ram.m, p, i).Present() && alloc.pool.Count() >= MIN_PAGES
      modifies this`role, ram, ram.words, alloc, alloc.descs
      ensures Valid() && Ensured(old(St()), St(), p, i, child, fl, t)
    {
      ghost var s := St();
      child := alloc.GetFreePage();
      LinkEnsures(s, p, i, child, fl, t, alloc.pool);
      role := role[child := t];
      ram.Write(p, i, Word(child, fl));
    }

    /** One level of the descent in update_page_tables: take the table below entry i of page p,
        allocating it when the entry is absent, and store the entry back with the new flags. */
    method EnsureTable(p: nat, i: nat, fl: Flags, ghost t: Role) returns (child: nat)
      requires Valid() && p < |role| && i < ENTRIES && fl.present
      requires Branch(RoleOf(role, p)) && Leads(RoleOf(role, p), i, t)
      requires At(ram.m, p, i).Present() || alloc.pool.Count() >= MIN_PAGES
      modifies this`role, ram, ram.words, alloc, alloc.descs
      ensures Valid() && Ensured(old(St()), St(), p, i, child, fl, t)
    {
      var e := ram.Read(p, i);
      if !e.Present() {
        child := NewTable(p, i, fl, t);
      } else {
        child := e.frame;
        ReflagEnsures(St(), p, i, fl, t);
        ram.Write(p, i, Word(child, fl));
      }
    }

    /** The three levels of the descent: afterwards the page table of v exists. */
    method Descend(root: nat, v: VPage, fl: Flags) returns (pt: nat)
      requires Valid() && IsRoot(role, root) && v.Ok() && fl.present && Affords(St(), root, v)
      modifies this`role, ram, ram.words, alloc, alloc.descs
      ensures Valid() && Descended(old(St()), St(), root, v, pt) && Wired(old(ram.m), ram.m, root, v, fl)
    {
      ghost var s0 := St();
      var pdpt := EnsureTable(root, v.a, fl, L3(Owner(root, v.a), v.a));
      ghost var s1 := St();
      FirstLevel(s0, s1, root, v, fl, pdpt);
      var pd := EnsureTable(pdpt, v.b, fl, L2(Owner(root, v.a), v.a, v.b));
      ghost var s2 := St();
      SecondLevel(s1, s2, root, v, fl, pdpt, pd);
      pt := EnsureTable(pd, v.c, fl, L1(Owner(root, v.a), v.a, v.b, v.c));
      ThirdLevel(s0, s1, s2, St(), root, v, fl, pd, pt);
      DescentWires(s0, s1, s2, St(), root, v, fl, pdpt, pd, pt);
    }

    /** setup_page_tables and update_page_tables, which differ only in the root they start from. */
    method MapPage(root: nat, v: VPage, pa: nat, fl: Flags)
      requires Valid() && IsRoot(role, root) && v.Ok() && fl.present && Affords(St(), root, v)
      requires v.User() ==> RoleOf(role, pa) == Data
      modifies this`role, ram, ram.words, alloc, alloc.descs
      ensures Valid() && Mapped(old(St()), St(), root, v, Word(pa, fl))
      ensures Written(old(ram.m), ram.m, root, v, Word(pa, fl))
    {
      hide Represents, Wired, Written;
      ghost var s := St();
      var pt := Descend(root, v, fl);
      LeafWrites(s, ram.m, role, root, v, Word(pa, fl));
      WriteMaps(s, St(), root, v, pt, Word(pa, fl));
      ram.Write(pt, v.d, Word(pa, fl));
    }
  
    // ----- init_paging --------------------------------------------------------------------

    /** The loop of init_paging.  Its bound shrinks as the tables eat into the free frames, so the
        direct map ends before memory does. */
    method MapDirectly(root: nat, lo: nat, first: nat, ghost n: nat) returns (p: nat)
      requires Valid() && Roomy(lo, first, n) && MappedUpTo(St(), root, lo, lo)
      requires St().Avail() == n - first - 1 && Open(ram.m, role)
      modifies this`role, ram, ram.words, alloc, alloc.descs
      ensures Valid() && lo < p < n && MappedUpTo(St(), root, lo, p)
      ensures p >= first + St().Avail() >= first + n - first - TablesFor(lo, p)
      ensures St().pool.top == old(St().pool.top) && Open(ram.m, role)
    {
      hide Represents, Ram.Valid, State.Ok, MappedUpTo, Mapped, TablesFor, KernelPage, Open, Written;
      FewTables(lo, lo);
      p := lo;
      while p < first + alloc.FreePagesCount()
        invariant lo <= p < n && Valid() && MappedUpTo(St(), root, lo, p)
        invariant n - first - TablesFor(lo, p) <= St().Avail() < n - first
        invariant St().pool.top == old(St().pool.top) && Open(ram.m, role)
        decreases n - p
      {
        ghost var s := St();
        BootAffords(s, root, lo, first, n, p);
        MapPage(root, PageOf(KERNEL_BASE + p * PAGE), p, KERNEL_RW);
        MapKeepsOpen(s, St(), root, KernelPage(p), Word(p, KERNEL_RW));
        BootStep(s, St(), root, lo, p);
        p := p + 1;
      }
    }

    /** init_paging.  Pages are numbers here: `lo` is where the kernel image starts in physical
        memory, `first` the first free frame, n the end of memory. */
    method InitPaging(lo: nat, first: nat, ghost n: nat)
      requires Roomy(lo, first, n) && VIDEO_PAGE < lo
      requires Valid() && |ram.m| == n && role == BootRoles(first, n) && alloc.pool == BootPool(first, n)
      modifies this, ram, ram.words, alloc, alloc.descs
      ensures Running() && half.lo == lo && first + St().Avail() <= half.hi < n == St().pool.top
      ensures forall q: nat :: lo <= q < KERNEL_PAGES ==> (Leaf(ram.m, cr3, KernelPage(q)).Present() <==> q < half.hi)
      ensures St().Avail() >= n - first - 6 - n / 512
      ensures Memory() == EmptyMemory(cr3) && C.Sharing(Memory())
      ensures Leaf(ram.m, cr3, KernelPage(VIDEO_PAGE)) == Word(VIDEO_PAGE, KERNEL_RW)
    {
      hide Represents, Forest, Ram.Valid, MappedUpTo, Mapped, TablesFor, KernelPage, Abs, C.Sharing, Leaf, Next,
        Missing, Open, Written;
      BootRoot(St(), first, n, lo);
      BootRootOpen(St(), first, n);
      var root := alloc.GetFreePage();
      role := role[root := L4(root)];
      var p := MapDirectly(root, lo, first, n);
      ghost var s := St();
      VideoAffords(s, root, lo, first, n, p);
      MapPage(root, PageOf(KERNEL_BASE + VIDEO_PAGE * PAGE), VIDEO_PAGE, KERNEL_RW);
      MapKeepsOpen(s, St(), root, KernelPage(VIDEO_PAGE), Word(VIDEO_PAGE, KERNEL_RW));
      BootVideo(s, St(), root, lo, p);
      cr3, live := root, {root};
      half := Half(Next(ram.m, root, KERNEL_SLOT), lo, p);
      BootDone(St(), root, lo, p);
    }

    /** setup_user_page_tables: an empty user half below the common kernel half. */
    method SetupUserPageTables() returns (page: nat)
      requires Valid() && IsRoot(role, cr3) && St().Avail() >= MIN_PAGES
      modifies this`role, ram, ram.words, alloc, alloc.descs
      ensures Valid() && NewSpace(old(St()), St(), cr3, page)
      ensures Open(old(ram.m), old(role)) ==> Open(ram.m, role)
    {
      hide Represents, Linked, FreeIsZero, Open;
      ghost var s0 := St();
      page := alloc.GetFreePage();
      var e := ram.Read(cr3, KERNEL_SLOT);
      role := role[page := L4(page)];
      ram.Write(page, KERNEL_SLOT, e);
      NewSpaceMade(s0, St(), cr3, page);
      if Open(s0.m, s0.role) {
        NewSpaceKeepsOpen(s0, St(), cr3, page);
      }
    }

    // ----- cow_page_tables ------------------------------------------------------------

    /** Share the word at index l of a page table, if it is present. */
    method ShareWord(ppt: nat, cpt: nat, l: nat)
      requires ram.Valid() && alloc.Valid()
      requires ppt < |ram.m| && cpt < |ram.m| && ppt != cpt && l < ENTRIES
      requires ram.m[ppt][l].Present() ==> ram.m[ppt][l].frame < |alloc.count|
      modifies ram, ram.words, alloc`count, alloc`ds, alloc.descs
      ensures ram.Valid() && alloc.Valid()
      ensures ram.m == WordShared(old(ram.m), ppt, cpt, l)
      ensures alloc.count == CountBumped(old(alloc.count), old(ram.m)[ppt][l])
    {
      var w := ram.Read(ppt, l);
      if w.Present() {
        ram.Write(ppt, l, CowWord(w));
        ram.Write(cpt, l, CowWord(w));
        if alloc.RefCount(w.frame) == 1 {
          alloc.SetRefCount(w.frame, 2);
        }
      }
    }

    /** The innermost loop of cow_page_tables: share every present leaf of one page table. */
    method CopyPageTable(ppt: nat, cpt: nat)
      requires ram.Valid() && alloc.Valid()
      requires ppt < |ram.m| && cpt < |ram.m| && ppt != cpt
      requires forall l :: 0 <= l < ENTRIES ==> ram.m[cpt][l] == ZERO
      requires forall l :: 0 <= l < ENTRIES && ram.m[ppt][l].Present() ==> ram.m[ppt][l].frame < |alloc.count|
      modifies ram, ram.words, alloc`count, alloc`ds, alloc.descs
      ensures ram.Valid() && alloc.Valid()
      ensures ram.m == old(ram.m)[ppt := CowPage(old(ram.m)[ppt])][cpt := ChildPage(old(ram.m)[ppt])]
      ensures alloc.count == Bump(old(alloc.count), old(ram.m)[ppt], ENTRIES)
    {
      ghost var m0 := ram.m;
      TablesStart(m0, ppt, cpt);
      var l := 0;
      while l < ENTRIES
        invariant 0 <= l <= ENTRIES && ram.Valid() && alloc.Valid()
        invariant ram.m == TablesAt(m0, ppt, cpt, l)
        invariant alloc.count == Bump(old(alloc.count), m0[ppt], l)
      {
        TablesStep(m0, ppt, cpt, l);
        ShareWord(ppt, cpt, l);
        l := l + 1;
      }
      TablesEnd(m0, ppt, cpt);
    }
  
    /** One turn of the third loop: the page table in slot k of a page directory. */
    method CopyTableSlot(ghost s0: State, ghost p: nat, ghost ch: nat, ghost a: nat, ghost b: nat, k: nat, ppd: nat,
        cpd: nat)
      requires Valid() && AtTable(s0, St(), p, ch, a, b, k, ppd, cpd) && k < ENTRIES
      requires At(s0.m, ppd, k).Present() ==> St().Avail() >= MIN_PAGES
      modifies this`role, ram, ram.words, alloc, alloc.descs
      ensures Valid() && AtTable(s0, St(), p, ch, a, b, k + 1, ppd, cpd) && OnlyBelow(old(St()), St(), cpd)
      ensures St().Avail() == old(St()).Avail() - if At(s0.m, ppd, k).Present() then 1 else 0
      ensures Open(old(ram.m), old(role)) ==> Open(ram.m, role)
    {
      hide AtTable, OnlyBelow, Represents, Forest, Open;
      ghost var s := St();
      TableRoles(s0, s, p, ch, a, b, k, ppd, cpd);
      var e := ram.Read(ppd, k);
      if e.Present() {
        var cpt := NewTable(cpd, k, e.flags, L1(ch, a, b, k));
        TableCopyable(s0, s, St(), p, ch, a, b, k, ppd, cpd, cpt);
        TableDone(s0, s, St(), p, ch, a, b, k, ppd, cpd, cpt);
        TableSlotKeepsOpen(s0, s, St(), p, ch, a, b, k, ppd, cpd, cpt);
        CopyPageTable(e.frame, cpt);
      } else {
        SkipTable(s0, s, p, ch, a, b, k, ppd, cpd);
        OnlyBelowRefl(s, cpd);
      }
    }

    /** The third loop of cow_page_tables. */
    method CopyDirectory(ghost s0: State, ghost p: nat, ghost ch: nat, ghost a: nat, ghost b: nat, ppd: nat, cpd: nat)
      requires Valid() && AtTable(s0, St(), p, ch, a, b, 0, ppd, cpd)
      requires St().Avail() >= MIN_PAGES - 1 + PtsFrom(s0.m, ppd, 0)
      modifies this`role, ram, ram.words, alloc, alloc.descs
      ensures Valid() && AtTable(s0, St(), p, ch, a, b, ENTRIES, ppd, cpd) && OnlyBelow(old(St()), St(), cpd)
      ensures St().Avail() == old(St()).Avail() - PtsFrom(s0.m, ppd, 0)
      ensures Open(old(ram.m), old(role)) ==> Open(ram.m, role)
    {
      hide AtTable, OnlyBelow, Represents, State.Ok, Ram.Valid, Open;
      OnlyBelowRefl(St(), cpd);
      var k := 0;
      while k < ENTRIES
        invariant 0 <= k <= ENTRIES && Valid() && AtTable(s0, St(), p, ch, a, b, k, ppd, cpd)
        invariant OnlyBelow(old(St()), St(), cpd)
        invariant St().Avail() - PtsFrom(s0.m, ppd, k) == old(St()).Avail() - PtsFrom(s0.m, ppd, 0)
        invariant Open(old(ram.m), old(role)) ==> Open(ram.m, role)
      {
        ghost var s := St();
        CopyTableSlot(s0, p, ch, a, b, k, ppd, cpd);
        OnlyBelowTrans(old(St()), s, St(), cpd);
        k := k + 1;
      }
    }
  
    /** One turn of the second loop: the page directory in slot j of a directory-pointer table. */
    method CopyDirectorySlot(ghost s0: State, ghost p: nat, ghost ch: nat, ghost a: nat, j: nat, ppdpt: nat, cpdpt: nat)
      requires Valid() && AtDirectory(s0, St(), p, ch, a, j, ppdpt, cpdpt) && j < ENTRIES
      requires At(s0.m, ppdpt, j).Present() ==> St().Avail() >= MIN_PAGES + PtsFrom(s0.m, At(s0.m, ppdpt, j).frame, 0)
      modifies this`role, ram, ram.words, alloc, alloc.descs
      ensures Valid() && AtDirectory(s0, St(), p, ch, a, j + 1, ppdpt, cpdpt) && OnlyBelow(old(St()), St(), cpdpt)
      ensures At(s0.m, ppdpt, j).Present() ==>
        St().Avail() == old(St()).Avail() - 1 - PtsFrom(s0.m, At(s0.m, ppdpt, j).frame, 0)
      ensures !At(s0.m, ppdpt, j).Present() ==> St().Avail() == old(St()).Avail()
      ensures Open(old(ram.m), old(role)) ==> Open(ram.m, role)
    {
      hide AtTable, AtDirectory, OnlyBelow, Represents, Forest, Open;
      ghost var s := St();
      DirectoryRoles(s0, s, p, ch, a, j, ppdpt, cpdpt);
      var e := ram.Read(ppdpt, j);
      if e.Present() {
        var cpd := NewTable(cpdpt, j, e.flags, L2(ch, a, j));
        ghost var s1 := St();
        DirectoryReady(s0, s, s1, p, ch, a, j, ppdpt, cpdpt, cpd);
        CopiedLinkKeepsOpen(s, s1, ppdpt, cpdpt, j, cpd, L2(ch, a, j));
        CopyDirectory(s0, p, ch, a, j, e.frame, cpd);
        DirectoryDone(s0, s, s1, St(), p, ch, a, j, ppdpt, cpdpt, e.frame, cpd);
      } else {
        SkipDirectory(s0, s, p, ch, a, j, ppdpt, cpdpt);
        OnlyBelowRefl(s, cpdpt);
      }
    }

    /** The second loop of cow_page_tables. */
    method CopyDirectories(ghost s0: State, ghost p: nat, ghost ch: nat, ghost a: nat, ppdpt: nat, cpdpt: nat)
      requires Valid() && AtDirectory(s0, St(), p, ch, a, 0, ppdpt, cpdpt)
      requires St().Avail() >= MIN_PAGES - 1 + PdsFrom(s0.m, ppdpt, 0)
      modifies this`role, ram, ram.words, alloc, alloc.descs
      ensures Valid() && AtDirectory(s0, St(), p, ch, a, ENTRIES, ppdpt, cpdpt) && OnlyBelow(old(St()), St(), cpdpt)
      ensures St().Avail() == old(St()).Avail() - PdsFrom(s0.m, ppdpt, 0)
      ensures Open(old(ram.m), old(role)) ==> Open(ram.m, role)
    {
      hide AtDirectory, OnlyBelow, Represents, State.Ok, Ram.Valid, Open;
      OnlyBelowRefl(St(), cpdpt);
      var j := 0;
      while j < ENTRIES
        invariant 0 <= j <= ENTRIES && Valid() && AtDirectory(s0, St(), p, ch, a, j, ppdpt, cpdpt)
        invariant OnlyBelow(old(St()), St(), cpdpt)
        invariant St().Avail() - PdsFrom(s0.m, ppdpt, j) == old(St()).Avail() - PdsFrom(s0.m, ppdpt, 0)
        invariant Open(old(ram.m), old(role)) ==> Open(ram.m, role)
      {
        ghost var s := St();
        CopyDirectorySlot(s0, p, ch, a, j, ppdpt, cpdpt);
        OnlyBelowTrans(old(St()), s, St(), cpdpt);
        j := j + 1;
      }
    }

    /** One turn of the first loop: slot i of the root. */
    method CopySlot(ghost s0: State, p: nat, ch: nat, i: nat)
      requires Valid() && AtSlot(s0, St(), p, ch, i) && i < KERNEL_SLOT
      requires At(s0.m, p, i).Present() ==> St().Avail() >= MIN_PAGES + PdsFrom(s0.m, At(s0.m, p, i).frame, 0)
      modifies this`role, ram, ram.words, alloc, alloc.descs
      ensures Valid() && AtSlot(s0, St(), p, ch, i + 1)
      ensures At(s0.m, p, i).Present() ==>
        St().Avail() == old(St()).Avail() - 1 - PdsFrom(s0.m, At(s0.m, p, i).frame, 0)
      ensures !At(s0.m, p, i).Present() ==> St().Avail() == old(St()).Avail()
      ensures Open(old(ram.m), old(role)) ==> Open(ram.m, role)
    {
      hide AtDirectory, AtSlot, OnlyBelow, Represents, Forest, Open;
      ghost var s := St();
      SlotRoles(s0, s, p, ch, i);
      var e := ram.Read(p, i);
      if e.Present() {
        var cpdpt := NewTable(ch, i, e.flags, L3(ch, i));
        ghost var s1 := St();
        SlotReady(s0, s, s1, p, ch, i, cpdpt);
        CopiedLinkKeepsOpen(s, s1, p, ch, i, cpdpt, L3(ch, i));
        CopyDirectories(s0, p, ch, i, e.frame, cpdpt);
        SlotDone(s0, s, s1, St(), p, ch, i, e.frame, cpdpt);
      } else {
        SkipSlot(s0, s, p, ch, i);
      }
    }
  
    /** The first loop of cow_page_tables. */
    method CopySlots(ghost s0: State, p: nat, ch: nat)
      requires Valid() && AtSlot(s0, St(), p, ch, 0)
      requires St().Avail() >= MIN_PAGES - 1 + PdptsFrom(s0.m, p, 0)
      modifies this`role, ram, ram.words, alloc, alloc.descs
      ensures Valid() && AtSlot(s0, St(), p, ch, KERNEL_SLOT)
      ensures St().Avail() == old(St()).Avail() - PdptsFrom(s0.m, p, 0)
      ensures Open(old(ram.m), old(role)) ==> Open(ram.m, role)
    {
      hide AtSlot, Represents, State.Ok, Ram.Valid, Open;
      var i := 0;
      while i < KERNEL_SLOT
        invariant 0 <= i <= KERNEL_SLOT && Valid() && AtSlot(s0, St(), p, ch, i)
        invariant St().Avail() - PdptsFrom(s0.m, p, i) == old(St()).Avail() - PdptsFrom(s0.m, p, 0)
        invariant Open(old(ram.m), old(role)) ==> Open(ram.m, role)
      {
        CopySlot(s0, p, ch, i);
        i := i + 1;
      }
    }

    /** cow_page_tables: the current address space is copied for a child. */
    method CowPageTables() returns (ch: nat)
      requires Valid() && IsRoot(role, cr3)
      requires St().Avail() >= MIN_PAGES + PdptsFrom(ram.m, cr3, 0)
      modifies this`role, ram, ram.words, alloc, alloc.descs
      ensures Valid() && Forked(old(St()), St(), cr3, ch)
      ensures Open(old(ram.m), old(role)) ==> Open(ram.m, role)
    {
      hide AtSlot, NewSpace, Forked, Represents, State.Ok, Ram.Valid, Open;
      ghost var s0 := St();
      ch := SetupUserPageTables();
      CopyStarts(s0, St(), cr3, ch);
      CopySlots(s0, cr3, ch);
      CopyEnds(s0, St(), cr3, ch);
    }
  
    // ----- kmalloc --------------------------------------------------------------------

    method TakeFrame(ghost t: Role) returns (f: nat)
      requires Valid() && St().Avail() >= MIN_PAGES && (t.Data? || t.Heap?)
      modifies this`role, ram, ram.words, alloc, alloc.descs
      ensures Valid() && Taken(old(St()), St(), f, t)
    {
      hide Represents, Forest, Ram.Valid;
      ghost var s := St();
      f := alloc.GetFreePage();
      TakeTakes(s, f, t);
      role := role[f := t];
    }

    /** One turn of kmalloc's loop: page i of the block that starts at frame base. */
    method KmallocPage(i: nat, base0: nat, ghost s0: State, ghost first: nat) returns (base: nat)
      requires Valid() && IsRoot(role, cr3) && Mapped511(St(), half) && Open(ram.m, role)
      requires CanTake(1) && Allotted(s0, St(), first, i) && (i > 0 ==> base0 == first)
      modifies this`role, ram, ram.words, alloc, alloc.descs
      ensures Valid() && IsRoot(role, cr3) && Mapped511(St(), half) && Open(ram.m, role)
      ensures Allotted(s0, St(), first, i + 1) && base == first
    {
      hide Represents, Forest, Ram.Valid, Taken, Mapped, Allotted, Mapped511, Open, Written;
      ghost var s := St();
      AllottedSoFar(s0, s, first, i);
      var f := TakeFrame(Heap);
      base := if i == 0 then f else base0;
      ghost var s1 := St();
      PageReady(s0, s, s1, half, cr3, first, i, f);
      TakenKeepsOpen(s, s1, f, Heap);
      MapPage(cr3, PageOf(KERNEL_BASE + base * PAGE + i * PAGE), f, KERNEL_RW);
      MapKeepsOpen(s1, St(), cr3, KernelPage(f), Word(f, KERNEL_RW));
      AllotOne(s0, s, s1, St(), half, cr3, first, i, f);
    }
  
    /** kmalloc: the pages of the block are consecutive frames, seen at their place in the direct map. */
    method Kmalloc(bytes: nat) returns (addr: nat)
      requires Running() && CanTake(PagesFor(bytes))
      modifies this`role, ram, ram.words, alloc, alloc.descs
      ensures Running() && Allotted(old(St()), St(), old(St().pool.top - St().Avail()), PagesFor(bytes))
      ensures Memory() == old(Memory())
      ensures addr == KERNEL_BASE + if bytes == 0 then 0 else old(St().pool.top - St().Avail()) * PAGE
    {
      hide Represents, State.Ok, Ram.Valid, Mapped511, Allotted, Abs, Open;
      var pages := if bytes % PAGE != 0 then bytes / PAGE + 1 else bytes / PAGE;
      ghost var s0 := St();
      ghost var first := s0.pool.top - s0.Avail();
      NothingAllotted(s0);
      var base := 0;
      var i := 0;
      while i < pages
        invariant 0 <= i <= pages && Valid() && IsRoot(role, cr3) && Mapped511(St(), half) && Open(ram.m, role)
        invariant Allotted(s0, St(), first, i)
        invariant i == 0 ==> base == 0
        invariant i > 0 ==> base == first
      {
        AllottedSoFar(s0, St(), first, i);
        base := KmallocPage(i, base, s0, first);
        i := i + 1;
      }
      AllottedInvisible(s0, St(), live, first, pages);
      return KERNEL_BASE + base * PAGE;
    }
  
    // ----- walk_page_table, get_flags, remove_page_table_mapping ------------------------

    /** The three reads the three functions have in common; -1 when a table is absent. */
    method FindTable(v: VPage) returns (pt: int)
      requires Valid() && IsRoot(role, cr3) && v.Ok()
      ensures pt == Pt(ram.m, cr3, v)
      ensures pt >= 0 ==> pt < |ram.m| && RoleOf(role, pt).L1?
    {
      WalkRoles(ram.m, role, cr3, v);
      var e := ram.Read(cr3, v.a);
      if !e.Present() { return -1; }
      e := ram.Read(e.frame, v.b);
      if !e.Present() { return -1; }
      e := ram.Read(e.frame, v.c);
      if !e.Present() { return -1; }
      return e.frame;
    }

    method WalkPageTable(v: VPage) returns (frame: nat)
      requires Valid() && IsRoot(role, cr3) && v.Ok()
      ensures frame == Leaf(ram.m, cr3, v).frame
    {
      var pt := FindTable(v);
      if pt < 0 { return 0; }
      var e := ram.Read(pt, v.d);
      return e.frame;
    }

    method GetFlags(v: VPage) returns (fl: Flags)
      requires Valid() && IsRoot(role, cr3) && v.Ok()
      ensures fl == Leaf(ram.m, cr3, v).flags
    {
      var pt := FindTable(v);
      if pt < 0 { return NO_FLAGS; }
      var e := ram.Read(pt, v.d);
      return e.flags;
    }

    method RemovePageTableMapping(v: VPage)
      requires Valid() && IsRoot(role, cr3) && v.Ok()
      modifies ram, ram.words
      ensures Valid() && Erased(old(St()), St(), cr3, v)
    {
      var pt := FindTable(v);
      ghost var s := St();
      EraseErases(s, cr3, v);
      if pt < 0 { return; }
      ram.Write(pt, v.d, ZERO);
    }
  
    // ----- user memory ------------------------------------------------------------------

    /** update_page_tables(va, get_free_page(), PAGING_USER_R_W_FLAGS). */
    method MapFreshPage(v: VPage) returns (f: nat)
      requires Running() && v.User() && CanTake(1 + Missing(ram.m, cr3, v))
      modifies this`role, ram, ram.words, alloc, alloc.descs
      ensures Running()
      ensures f == old(St().pool.top - St().Avail()) && St().pool.top == old(St().pool.top)
      ensures St().Avail() == old(St().Avail()) - 1 - Missing(old(ram.m), cr3, v)
      ensures Leaf(ram.m, cr3, v) == Word(f, USER_RW) && NoneLost(old(ram.m), cr3, ram.m)
      ensures var e := C.MapFresh(C.Slot(cr3, v), f);
        C.Ok(old(Memory())) && C.Enabled(old(Memory()), e) && Memory() == C.Apply(old(Memory()), e)
    {
      hide Represents, Forest, Ram.Valid, Mapped511, Abs, Open, Written;
      ghost var s := St();
      f := TakeFrame(Data);
      ghost var s1 := St();
      TakenKeepsOpen(s, s1, f, Data);
      MapPage(cr3, v, f, USER_RW);
      MapKeepsOpen(s1, St(), cr3, v, Word(f, USER_RW));
      MapFreshKeepsHalf(s, s1, St(), half, cr3, v, f);
      MapFreshLosesNone(s, s1, St(), cr3, v, f);
      MapFreshRefines(s, s1, St(), live, cr3, v, f);
    }
  
    /** kmalloc a page and copy the faulting page's frame g into it. */
    method CopyToNewFrame(v: VPage, g: nat) returns (f: nat, ghost s1: State)
      requires Running() && v.User() && CanTake(1)
      requires Leaf(ram.m, cr3, v).Present() && Leaf(ram.m, cr3, v).frame == g
      modifies this`role, ram, ram.words, alloc, alloc.descs
      ensures Valid() && IsRoot(role, cr3) && Mapped511(St(), half) && g < |alloc.count| && Open(ram.m, role)
      ensures f == old(St().pool.top - St().Avail()) && Missing(ram.m, cr3, v) == 0 && RoleOf(role, f) == Data
      ensures Allotted(old(St()), s1, f, 1) && CopiedInto(s1, St(), f, g)
    {
      hide Represents, Forest, Mapped511, Abs, CopiedInto, Allotted, Leaf, Missing, KernelHeap.PagesFor, Open;
      ghost var s0 := St();
      OnePage();
      var page := Kmalloc(PAGE);
      s1 := St();
      FrameForCopy(s0, s1, half, live, cr3, v, s0.pool.top - s0.Avail(), g);
      f := WalkPageTable(PageOf(page));
      CopyInto(s1, f, g);
      ram.CopyPage(f, g);
      role := role[f := Data];
      CopiedKeepsOpen(s1, St(), f, g);
      FrameCopied(s1, St(), cr3, v, f, g);
      CopyIntoKeepsHalf(s1, St(), half, f, g);
    }

    /** The count-2 branch of the copy-on-write fault. */
    method CopyFaultingPage(v: VPage, g: nat) returns (f: nat)
      requires Running() && v.User() && CanTake(1)
      requires Leaf(ram.m, cr3, v).Present() && Leaf(ram.m, cr3, v).flags.cow && Leaf(ram.m, cr3, v).frame == g
      requires g < |alloc.count| && alloc.count[g] == 2
      modifies this`role, ram, ram.words, alloc, alloc.descs
      ensures Running()
      ensures f == old(St().pool.top - St().Avail())
      ensures var e := C.WriteFault(C.Slot(cr3, v), f);
        C.Ok(old(Memory())) && C.Enabled(old(Memory()), e) && Memory() == C.Apply(old(Memory()), e)
    {
      hide Represents, Forest, Mapped511, Abs, CopiedInto, Mapped, Allotted, Leaf, Missing, Open, Written;
      ghost var s0 := St();
      ghost var s1;
      f, s1 := CopyToNewFrame(v, g);
      ghost var s2 := St();
      MapPage(cr3, v, f, USER_RW);
      ghost var s3 := St();
      MapKeepsOpen(s2, s3, cr3, v, Word(f, USER_RW));
      FaultCopyRefines(s0, s1, s2, s3, live, cr3, v, f, g);
      FaultCopyKeepsHalf(s2, s3, half, cr3, v, f, g);
      alloc.SetRefCount(g, 1);
    }
  
    /** The count-1 branch: nobody else uses the frame any more. */
    method ReclaimFaultingPage(v: VPage, g: nat, ghost f: nat)
      requires Running() && v.User() && RoleOf(role, f) != Data
      requires Leaf(ram.m, cr3, v).Present() && Leaf(ram.m, cr3, v).flags.cow && Leaf(ram.m, cr3, v).frame == g
      requires g < |alloc.count| && alloc.count[g] == 1 && RoleOf(role, g) == Data
      modifies this`role, ram, ram.words, alloc, alloc.descs
      ensures Running()
      ensures var e := C.WriteFault(C.Slot(cr3, v), f);
        C.Ok(old(Memory())) && C.Enabled(old(Memory()), e) && Memory() == C.Apply(old(Memory()), e)
    {
      hide Represents, Forest, Mapped511, Abs, Mapped, Open, Written;
      ghost var s := St();
      MapPage(cr3, v, g, USER_RW);
      MapKeepsOpen(s, St(), cr3, v, Word(g, USER_RW));
      FaultOwnRefines(s, St(), live, cr3, v, f);
      OwnFaultKeepsHalf(s, St(), half, cr3, v, Word(g, USER_RW));
    }

    /** A copy-on-write fault on v takes a frame: the page is marked and counted twice. */
    ghost predicate WillCopy(v: VPage)
      reads this, ram, alloc
    {
      var w := Leaf(ram.m, cr3, v);
      w.flags.cow && w.frame < |alloc.count| && alloc.count[w.frame] == 2
    }

    /** page_fault_handler, as far as copy-on-write goes: a fault on a page whose leaf does not carry
        the mark is left to the stack-growth part. */
    method CowFault(v: VPage) returns (cow: bool, ghost f: nat)
      requires Running() && v.User() && C.Sharing(Memory()) && (WillCopy(v) ==> CanTake(1))
      modifies this`role, ram, ram.words, alloc, alloc.descs
      ensures Running() && C.Sharing(Memory())
      ensures cow <==> Leaf(old(ram.m), cr3, v).flags.cow
      ensures cow ==>
        var e := C.WriteFault(C.Slot(cr3, v), f);
        C.Enabled(old(Memory()), e) && Memory() == C.Apply(old(Memory()), e)
      ensures !cow ==> St() == old(St()) && Memory() == old(Memory())
    {
      hide Represents, Forest, Mapped511, Abs, C.Exclusive, C.Ok, C.Apply, Leaf, Open;
      f := |role|;  // any number that is not a user page's
      var fl := GetFlags(v);
      if !fl.cow {
        return false, f;
      }
      CowLeafCounted(St(), live, cr3, v);
      ghost var before := Memory();
      var g := WalkPageTable(v);
      if alloc.RefCount(g) == 2 {
        f := CopyFaultingPage(v, g);
      } else if alloc.RefCount(g) == 1 {
        ReclaimFaultingPage(v, g, f);
      }
      C.StepKeepsSharing(before, C.WriteFault(C.Slot(cr3, v), f));
      return true, f;
    }
  
    /** The hardware's walk for a write from ring 3, which asks every level. */
    method MayWrite(v: VPage) returns (may: bool)
      requires Valid() && IsRoot(role, cr3) && v.Ok()
      ensures may <==> Permitted(ram.m, cr3, v)
    {
      hide Represents;
      WalkRoles(ram.m, role, cr3, v);
      var e := ram.Read(cr3, v.a);
      if !RingThree(e) { return false; }
      e := ram.Read(e.frame, v.b);
      if !RingThree(e) { return false; }
      e := ram.Read(e.frame, v.c);
      if !RingThree(e) { return false; }
      e := ram.Read(e.frame, v.d);
      return RingThree(e);
    }

    /** A store by the running process, which the hardware lets through only where all four entries on
        the way to the page and at it are present, writable and user; here the leaf decides. */
    method StoreWord(v: VPage, i: nat, x: Word) returns (done: bool)
      requires Running() && v.User() && i < ENTRIES
      modifies ram, ram.words
      ensures Running() && (done <==> Permitted(old(ram.m), cr3, v))
      ensures done <==> Leaf(old(ram.m), cr3, v).Present() && Leaf(old(ram.m), cr3, v).flags.writable
      ensures done ==>
        var e := C.Store(C.Slot(cr3, v), i, x);
        C.Ok(old(Memory())) && C.Enabled(old(Memory()), e) && Memory() == C.Apply(old(Memory()), e)
      ensures !done ==> St() == old(St()) && Memory() == old(Memory())
    {
      hide Represents, Mapped511, Abs, Leaf, Open, Permitted;
      LeafDecides(ram.m, role, cr3, v);
      done := MayWrite(v);
      if !done {
        return;
      }
      var g := WalkPageTable(v);
      StoreRefines(St(), live, cr3, v, i, x);
      StoreKeepsHalf(St(), half, g, i, x);
      StoreKeepsOpen(St(), g, i, x);
      hide Forest, C.Apply, C.Ok, C.Enabled;
      ram.Write(g, i, x);
    }

    /** A word of a mapped user page, as the running process sees it. */
    method ReadWord(v: VPage, i: nat) returns (w: Word)
      requires Running() && v.User() && i < ENTRIES && Leaf(ram.m, cr3, v).Present()
      ensures var s := C.Slot(cr3, v);
        C.Ok(Memory()) && s in Memory().leaf && Memory().leaf[s] == Leaf(ram.m, cr3, v) && w == C.ViewOf(Memory())[s][i]
    {
      hide Represents, Mapped511, Forest, Leaf, Open;
      var g := WalkPageTable(v);
      AbsOk(St(), live);
      UserLeafData(St(), live, cr3, v);
      w := ram.Read(g, i);
    }

    /** A store by the kernel on behalf of the running process, such as read() filling its buffer.
        In ring 0 the hardware asks only whether the page is present. */
    method KernelStoreWord(v: VPage, i: nat, x: Word) returns (done: bool)
      requires Running() && v.User() && i < ENTRIES
      modifies ram, ram.words
      ensures Running() && C.Ok(old(Memory()))
      ensures done <==> Leaf(old(ram.m), cr3, v).Present()
      ensures done ==>
        var e := C.KernelStore(C.Slot(cr3, v), i, x);
        C.Enabled(old(Memory()), e) && Memory() == C.Apply(old(Memory()), e)
      ensures !done ==> Memory() == old(Memory())
      ensures NoneLost(old(ram.m), cr3, ram.m)
    {
      hide Represents, Mapped511, Abs, Leaf, Missing, Open;
      AbsOk(St(), live);
      var fl := GetFlags(v);
      if !fl.present {
        return false;
      }
      var g := WalkPageTable(v);
      KernelStoreRefines(St(), live, cr3, v, i, x);
      StoreLosesNone(St(), cr3, g, i, x);
      StoreKeepsHalf(St(), half, g, i, x);
      StoreKeepsOpen(St(), g, i, x);
      hide Forest, C.Apply, C.Ok, C.Enabled;
      ram.Write(g, i, x);
      return true;
    }

    /** The memory part of fork. */
    method ForkSpace() returns (ch: nat)
      requires Running() && CanTake(1 + PdptsFrom(ram.m, cr3, 0))
      modifies this`role, this`live, ram, ram.words, alloc, alloc.descs
      ensures Running() && live == old(live) + {ch}
      ensures Forked(old(St()), St(), cr3, ch)
      ensures C.Ok(old(Memory())) && C.Enabled(old(Memory()), C.Fork(cr3, ch))
      ensures Memory() == C.Apply(old(Memory()), C.Fork(cr3, ch))
    {
      hide Represents, Forest, Ram.Valid, Mapped511, Abs, Forked, PdptsFrom, C.Ok, C.Apply, Open;
      ghost var s := St();
      ch := CowPageTables();
      ForkRefines(s, St(), live, cr3, ch);
      ForkSpent(s, St(), half, cr3, ch);
      ForkKeepsHalf(s, St(), half, cr3, ch);
      live := live + {ch};
    }

    /** The memory part of create_process and exec: a space with an empty user half. */
    method NewUserSpace() returns (page: nat)
      requires Running() && CanTake(1)
      modifies this`role, this`live, ram, ram.words, alloc, alloc.descs
      ensures Running() && live == old(live) + {page}
      ensures C.Ok(old(Memory())) && C.Enabled(old(Memory()), C.NewSpace(page))
      ensures Memory() == C.Apply(old(Memory()), C.NewSpace(page))
    {
      hide Represents, Forest, Mapped511, Abs, CowFork.NewSpace, Open;
      ghost var s := St();
      page := SetupUserPageTables();
      NewSpaceRefines(s, St(), live, cr3, page);
      NewSpaceSpent(s, St(), half, cr3, page);
      NewSpaceKeepsHalf(s, St(), half, cr3, page);
      live := live + {page};
    }

    method SetCr3(root: nat)
      requires Running() && root in live
      modifies `cr3
      ensures Running() && cr3 == root && Memory() == old(Memory())
    {
      cr3 := root;
    }

    /** A process other than the running one is reaped. */
    ghost method ForgetSpace(root: nat)
      requires Running() && root in live && root != cr3
      modifies `live
      ensures Running() && live == old(live) - {root}
      ensures C.Ok(old(Memory())) && C.Enabled(old(Memory()), C.Exit(root))
      ensures Memory() == C.Apply(old(Memory()), C.Exit(root))
    {
      ExitRefines(St(), live, root);
      live := live - {root};
    }

    /** kfree behind its guard: clear the page, put its frame on the list, count it twice, unmap. */
    method ReleasePage(v: VPage, g: nat)
      requires Valid() && IsRoot(role, cr3) && v.Ok() && Leaf(ram.m, cr3, v).frame == g < |ram.m| &&
        Pt(ram.m, cr3, v) >= 0
      requires RoleOf(role, g).Free? || RoleOf(role, g).Reserved?
      modifies ram, ram.words, alloc, alloc.descs
      ensures Freed(old(St()), ram.m, cr3, v) && alloc.freeList == g
      ensures !alloc.InOrderFor(old(alloc.pool).managed)
      ensures RoleOf(role, g).Free? ==> forall s: seq<nat> :: !Threaded(alloc.ds, g, s)
      ensures RoleOf(role, g).Reserved? ==> Threaded(alloc.ds, g, [g] + old(alloc.pool).free)
    {
      ghost var s := St();
      FreeOrReserved(s, alloc.ds, alloc.freeList, alloc.maxFree, alloc.pagesUsed, g);
      ClearKeeps(s, cr3, v, g);
      hide Represents, InOrder, Threaded, State.Ok, Leaf, Pt, Freed, Put, Pushed;
      ram.Clear(g);
      var pt := FindTable(v);
      alloc.Release(g);
      ram.Write(pt, v.d, ZERO);
    }

    /** kfree.  Its guard lets pass exactly the frames counted zero times, which are those nobody has
        been given; putting one of them on the free list breaks the books. */
    method Kfree(v: VPage) returns (released: bool)
      requires Running() && v.Ok() && Leaf(ram.m, cr3, v).frame < |ram.m|
      modifies ram, ram.words, alloc, alloc.descs
      ensures var g := Leaf(old(ram.m), cr3, v).frame;
        released <==> g != 0 && g < |old(alloc.count)| && old(alloc.count)[g] == 0
      ensures alloc.InOrderFor(old(alloc.pool).managed) <==> !released
      ensures !released ==> Running() && St() == old(St()) && Memory() == old(Memory())
      ensures released ==> !v.User() && Freed(old(St()), ram.m, cr3, v)
      ensures released ==>
        var g := Leaf(old(ram.m), cr3, v).frame;
        && alloc.freeList == g && (RoleOf(role, g).Free? || RoleOf(role, g).Reserved?)
        && (RoleOf(role, g).Free? ==> forall s: seq<nat> :: !Threaded(alloc.ds, g, s))
        && (RoleOf(role, g).Reserved? ==> Threaded(alloc.ds, g, [g] + old(alloc.pool).free))
    {
      hide Represents, InOrder, Threaded, Mapped511, Abs, Leaf, Freed;
      var g := WalkPageTable(v);
      GuardedFrame(St(), cr3, v);
      alloc.BooksInOrder();
      if g == 0 || alloc.RefCount(g) > 0 {
        return false;
      }
      ReleasePage(v, g);
      return true;
    }
  }
}
