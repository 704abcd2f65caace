/**
 The kernel half of every address space: slot 511 of all roots names one shared tree, and
 that tree maps KERNEL_BASE + p * 4096 to physical page p.
 */
module KernelHalf {
  import opened PageTables
  import opened Mapping
  import opened Addresses
  import opened CowFork

  /** The frame named by slot 511 and the range of pages in the direct map. */
  datatype Half = Half(slot: nat, lo: nat, hi: nat)

  ghost predicate SharedSlot(s: State, k: Half) {
    forall r: nat :: s.Root(r) ==> Next(s.m, r, KERNEL_SLOT) == k.slot
  }

  ghost predicate DirectMapped(s: State, k: Half) {
    forall r: nat, p: nat :: s.Root(r) && k.lo <= p < k.hi ==> Leaf(s.m, r, KernelPage(p)) == Word(p, KERNEL_RW)
  }

  /** In every address space the direct map is in place, and it reaches every frame handed out. */
  ghost predicate Mapped511(s: State, k: Half) {
    && k.hi <= KERNEL_PAGES
    && SharedSlot(s, k) && DirectMapped(s, k)
    && k.lo <= s.pool.top - s.Avail() <= k.hi
  }

  /** Roots with the same slot 511 have the same kernel half. */
  lemma SameHalf(m: Mem, r: nat, r': nat, v: VPage)
    requires v.a == KERNEL_SLOT && Next(m, r, KERNEL_SLOT) == Next(m, r', KERNEL_SLOT)
    ensures Pt(m, r, v) == Pt(m, r', v) && Leaf(m, r, v) == Leaf(m, r', v)
  {
  }

  lemma KernelPagesAreNotUser(p: nat)
    requires p < KERNEL_PAGES
    ensures KernelPage(p).Ok() && KernelPage(p).a == KERNEL_SLOT && !KernelPage(p).User()
  {
    KernelPageAt(p);
  }

  lemma SameTablesKeepHalf(s: State, s': State, k: Half)
    requires Mapped511(s, k) && s'.pool == s.pool
    requires forall r: nat :: s'.Root(r) ==> s.Root(r) && Next(s'.m, r, KERNEL_SLOT) == Next(s.m, r, KERNEL_SLOT)
    requires forall r: nat, v: VPage :: s'.Root(r) ==> Leaf(s'.m, r, v) == Leaf(s.m, r, v)
    ensures Mapped511(s', k)
  {
  }

  /** Mapping a user page, or mapping a kernel page to its own frame, keeps the kernel half. */
  lemma MappingKeepsHalf(s: State, s': State, k: Half, root: nat, v: VPage, w: Word)
    requires s.Ok() && Mapped511(s, k) && s.Root(root) && Mapped(s, s', root, v, w)
    requires v.User() || exists f: nat :: f < KERNEL_PAGES && v == KernelPage(f) && w == Word(f, KERNEL_RW)
    requires s'.pool.top - s'.Avail() <= k.hi
    ensures Mapped511(s', k)
  {
    forall r: nat | s'.Root(r) ensures s.Root(r) {}
    forall r: nat, p: nat | s'.Root(r) && k.lo <= p < k.hi ensures Leaf(s'.m, r, KernelPage(p)) == Word(p, KERNEL_RW) {
      KernelPagesAreNotUser(p);
      assert s.Root(r);
      if f: nat :| f < KERNEL_PAGES && v == KernelPage(f) && w == Word(f, KERNEL_RW) && KernelPage(p) == v {
        KernelPageInjective(p, f);
      }
    }
  }

  /** The kernel half of a new root is the common one. */
  lemma NewRootHalf(s0: State, s: State, k: Half, p: nat, ch: nat)
    requires Mapped511(s0, k) && s0.Root(p)
    requires Next(s.m, ch, KERNEL_SLOT) == Next(s0.m, p, KERNEL_SLOT)
    requires forall r: nat :: s.Root(r) && r != ch ==>
      s0.Root(r) && Next(s.m, r, KERNEL_SLOT) == Next(s0.m, r, KERNEL_SLOT)
    requires forall r: nat, v: VPage :: s0.Root(r) && v.Ok() && !v.User() ==> Leaf(s.m, r, v) == Leaf(s0.m, r, v)
    requires k.lo <= s.pool.top - s.Avail() <= k.hi && s.Root(p) && p != ch
    ensures Mapped511(s, k)
  {
    forall r: nat, x: nat | s.Root(r) && k.lo <= x < k.hi ensures Leaf(s.m, r, KernelPage(x)) == Word(x, KERNEL_RW) {
      KernelPagesAreNotUser(x);
      if r == ch {
        SameHalf(s.m, ch, p, KernelPage(x));
      }
    }
  }

  lemma ForkKeepsHalf(s0: State, s: State, k: Half, p: nat, ch: nat)
    requires s0.Ok() && s0.Root(p) && Mapped511(s0, k) && Forked(s0, s, p, ch)
    requires s.pool.top - s.Avail() <= k.hi
    ensures Mapped511(s, k)
  {
    forall r: nat | s.Root(r) && r != ch ensures s0.Root(r) && At(s.m, r, KERNEL_SLOT) == At(s0.m, r, KERNEL_SLOT) {}
    NewRootHalf(s0, s, k, p, ch);
  }

  lemma NewSpaceKeepsHalf(s0: State, s: State, k: Half, p: nat, ch: nat)
    requires s0.Ok() && Mapped511(s0, k) && NewSpace(s0, s, p, ch)
    requires s.pool.top - s.Avail() <= k.hi
    ensures Mapped511(s, k)
  {
    PutAt(s0.m, ch, KERNEL_SLOT, At(s0.m, p, KERNEL_SLOT));
    RolePut(s0.role, ch, L4(ch));
    NewRootLeaves(s0.m, s0.role, ch, At(s0.m, p, KERNEL_SLOT));
    NewRootHalf(s0, s, k, p, ch);
  }

  /** Inside the direct map no table is missing. */
  lemma DirectMapHasTables(s: State, k: Half, r: nat, p: nat)
    requires Mapped511(s, k) && s.Root(r) && k.lo <= p < k.hi
    ensures Missing(s.m, r, KernelPage(p)) == 0 && KernelPage(p).Ok()
  {
  }

  lemma DirectLeaf(s: State, k: Half, r: nat, p: nat)
    requires Mapped511(s, k) && s.Root(r) && k.lo <= p < k.hi
    ensures PageOf(KERNEL_BASE + p * PAGE).Ok() && Leaf(s.m, r, PageOf(KERNEL_BASE + p * PAGE)) == Word(p, KERNEL_RW)
  {
  }

  lemma ForkSpent(s0: State, s: State, k: Half, p: nat, ch: nat)
    requires Forked(s0, s, p, ch) && s0.pool.top - (s0.Avail() - (1 + PdptsFrom(s0.m, p, 0))) <= k.hi
    ensures s.pool.top - s.Avail() <= k.hi
  {
  }

  lemma NewSpaceSpent(s0: State, s: State, k: Half, p: nat, ch: nat)
    requires NewSpace(s0, s, p, ch) && s0.pool.top - (s0.Avail() - 1) <= k.hi
    ensures s.pool.top - s.Avail() <= k.hi
  {
  }

  /** The page of the direct map that shows a free frame passes kfree's guard, in every space. */
  lemma FreeFramePassesGuard(s: State, k: Half, r: nat, f: nat)
    requires s.Ok() && s.Root(r) && Mapped511(s, k) && k.lo <= f < k.hi && f != 0 && RoleOf(s.role, f).Free?
    ensures KernelPage(f).Ok() && f < |s.m| && Leaf(s.m, r, KernelPage(f)).frame == f && s.count[f] == 0
  {
    KernelPagesAreNotUser(f);
  }
}
