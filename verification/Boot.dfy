/** init_paging: the first root and the direct map. */
module Boot {
  import opened PageTables
  import opened Frames
  import opened Mapping
  import opened Addresses
  import opened KernelHalf
  import opened UserMemory
  import C = Cow

  const VIDEO_PAGE: nat := 0xb8

  /** Frames below `first` hold the kernel, the others are free. */
  function BootRoles(first: nat, n: nat): (r: Roles)
    ensures |r| == n
    ensures forall f: nat :: RoleOf(r, f) == (if first <= f < n then Free else Reserved)
  {
    seq(n, f requires 0 <= f < n => if f < first then Reserved else Free)
  }

  /** Frames enough for the tables of a direct map of n - lo pages, twice over. */
  predicate Roomy(lo: nat, first: nat, n: nat) {
    lo < first < n <= MAX_PAGES && n - first >= 2 * (n / 512) + 32
  }

  /** The direct map reaches from lo up to p, and no further, below the only root there is. */
  ghost predicate MappedUpTo(s: State, root: nat, lo: nat, p: nat) {
    && s.Ok() && s.Root(root) && (forall r: nat :: s.Root(r) ==> r == root)
    && (forall q: nat :: lo <= q < p ==> Leaf(s.m, root, KernelPage(q)) == Word(q, KERNEL_RW))
    && (forall q: nat :: lo <= q < KERNEL_PAGES && p <= q ==> Leaf(s.m, root, KernelPage(q)) == ZERO)
    && (forall v: VPage :: v.User() ==> Leaf(s.m, root, v) == ZERO)
    && (forall f: nat :: RoleOf(s.role, f) != Data)
  }

  /** How many frames the tables for pages lo .. p take at most. */
  function TablesFor(lo: nat, p: nat): nat {
    if p <= lo then 1 else 5 + (p - 1) / 512
  }

  lemma FewTables(lo: nat, p: nat)
    requires p <= lo
    ensures TablesFor(lo, p) == 1
  {
  }

  /** Neighbouring pages share their tables except at the borders. */
  lemma Neighbours(m: Mem, root: nat, q: nat, p: nat)
    requires q < MAX_PAGES && p < MAX_PAGES && Leaf(m, root, KernelPage(q)).Present()
    ensures Missing(m, root, KernelPage(p)) <= 1
    ensures q / 512 == p / 512 ==> Missing(m, root, KernelPage(p)) == 0
  {
    KernelPageAt(q);
    KernelPageAt(p);
  }

  lemma BootMissing(s: State, root: nat, lo: nat, p: nat)
    requires MappedUpTo(s, root, lo, p) && lo <= p < MAX_PAGES
    ensures TablesFor(lo, p) + Missing(s.m, root, KernelPage(p)) <= TablesFor(lo, p + 1)
  {
    if p > lo {
      assert Leaf(s.m, root, KernelPage(p - 1)) == Word(p - 1, KERNEL_RW);
      Neighbours(s.m, root, p - 1, p);
      hide MappedUpTo, Missing;
      assert (p - 1) / 512 == p / 512 || p / 512 == (p - 1) / 512 + 1;
    }
  }

  /** One more page of the direct map. */
  lemma BootStep(s: State, s': State, root: nat, lo: nat, p: nat)
    requires MappedUpTo(s, root, lo, p) && lo <= p < MAX_PAGES
    requires Mapped(s, s', root, KernelPage(p), Word(p, KERNEL_RW))
    ensures MappedUpTo(s', root, lo, p + 1) && s'.pool.top == s.pool.top
    ensures s'.Avail() == s.Avail() - Missing(s.m, root, KernelPage(p))
  {
    KernelPagesAreNotUser(p);
    forall r: nat | s'.Root(r) ensures s.Root(r) {}
    forall q: nat | lo <= q < KERNEL_PAGES
      ensures Leaf(s'.m, root, KernelPage(q)) == if q == p then Word(p, KERNEL_RW) else Leaf(s.m, root, KernelPage(q))
    {
      if KernelPage(q) == KernelPage(p) {
        KernelPageInjective(q, p);
      }
    }
  }

  lemma BootVideo(s: State, s': State, root: nat, lo: nat, p: nat)
    requires MappedUpTo(s, root, lo, p) && VIDEO_PAGE < lo <= p <= MAX_PAGES
    requires Mapped(s, s', root, KernelPage(VIDEO_PAGE), Word(VIDEO_PAGE, KERNEL_RW))
    ensures MappedUpTo(s', root, lo, p) && Leaf(s'.m, root, KernelPage(VIDEO_PAGE)) == Word(VIDEO_PAGE, KERNEL_RW)
    ensures Next(s'.m, root, KERNEL_SLOT) >= 0 && s'.pool.top == s.pool.top && s'.Ok()
    ensures s'.Avail() == s.Avail() - Missing(s.m, root, KernelPage(VIDEO_PAGE))
  {
    KernelPagesAreNotUser(VIDEO_PAGE);
    forall r: nat | s'.Root(r) ensures s.Root(r) {}
    forall q: nat | lo <= q < KERNEL_PAGES ensures Leaf(s'.m, root, KernelPage(q)) == Leaf(s.m, root, KernelPage(q)) {
      if KernelPage(q) == KernelPage(VIDEO_PAGE) {
        KernelPageInjective(q, VIDEO_PAGE);
      }
    }
  }

  lemma BootState(s: State, first: nat, n: nat)
    requires first <= n && |s.m| == n && Sized(s.m) && |s.count| >= n && forall f :: 0 <= f < n ==> s.count[f] == 0
    requires s.role == BootRoles(first, n) && s.pool == BootPool(first, n)
    requires forall p: nat, i: nat :: first <= p < n ==> At(s.m, p, i) == ZERO
    ensures s.Ok()
  {
  }

  lemma BootRoot(s: State, first: nat, n: nat, lo: nat)
    requires first < n && s.Ok() && s.role == BootRoles(first, n) && s.pool == BootPool(first, n) &&
      s.Avail() >= MIN_PAGES
    ensures var s' := State(s.m, s.role[first := L4(first)], s.pool.Take(), s.count[first := 1]);
      && MappedUpTo(s', first, lo, lo) && s'.Ok() && s'.Avail() == s.Avail() - 1
      && s.pool.free != [] && s.pool.free[0] == first && s'.pool.top == n
  {
    RolePut(s.role, first, L4(first));
    RootedPut(s.role, first, L4(first), s.role[first := L4(first)]);
    TakeKeepsAscending(s.pool);
    forall v: VPage ensures Leaf(s.m, first, v) == ZERO {
      assert At(s.m, first, v.a) == ZERO;
    }
  }

  /** The machine as boot leaves it: one live space, no user page. */
  ghost function EmptyMemory(root: nat): C.Vm {
    C.Vm({root}, imap[], map[], map[])
  }

  lemma BootDone(s: State, root: nat, lo: nat, p: nat)
    requires MappedUpTo(s, root, lo, p) && Next(s.m, root, KERNEL_SLOT) >= 0
    requires lo <= s.pool.top - s.Avail() <= p <= KERNEL_PAGES
    ensures Mapped511(s, Half(Next(s.m, root, KERNEL_SLOT), lo, p)) && Live(s, {root})
    ensures Abs(s, {root}) == EmptyMemory(root) && C.Sharing(EmptyMemory(root))
    ensures forall q: nat :: lo <= q < KERNEL_PAGES ==> (Leaf(s.m, root, KernelPage(q)).Present() <==> q < p)
  {
  }

  lemma BootAffords(s: State, root: nat, lo: nat, first: nat, n: nat, p: nat)
    requires Roomy(lo, first, n) && lo <= p < n && MappedUpTo(s, root, lo, p) &&
      s.Avail() >= n - first - TablesFor(lo, p)
    ensures s.Root(root) && Affords(s, root, KernelPage(p)) && KernelPage(p).Ok() && !KernelPage(p).User()
    ensures KernelPage(p) == PageOf(KERNEL_BASE + p * PAGE)
    ensures s.Avail() - Missing(s.m, root, KernelPage(p)) >= n - first - TablesFor(lo, p + 1)
  {
    BootMissing(s, root, lo, p);
    KernelPagesAreNotUser(p);
    hide MappedUpTo, Missing;
    assert p / 512 <= n / 512;
  }

  lemma VideoAffords(s: State, root: nat, lo: nat, first: nat, n: nat, p: nat)
    requires Roomy(lo, first, n) && lo < p <= n && MappedUpTo(s, root, lo, p) &&
      s.Avail() >= n - first - TablesFor(lo, p)
    ensures s.Root(root) && Affords(s, root, KernelPage(VIDEO_PAGE)) && KernelPage(VIDEO_PAGE).Ok() &&
      !KernelPage(VIDEO_PAGE).User()
    ensures Missing(s.m, root, KernelPage(VIDEO_PAGE)) <= 1 &&
      KernelPage(VIDEO_PAGE) == PageOf(KERNEL_BASE + VIDEO_PAGE * PAGE)
    ensures s.Avail() >= n - first - 5 - n / 512
  {
    assert Leaf(s.m, root, KernelPage(p - 1)) == Word(p - 1, KERNEL_RW);
    Neighbours(s.m, root, p - 1, VIDEO_PAGE);
    KernelPagesAreNotUser(VIDEO_PAGE);
    hide MappedUpTo, Missing;
    assert (p - 1) / 512 <= n / 512;
  }
}
