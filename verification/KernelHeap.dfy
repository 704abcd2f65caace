/** kmalloc: consecutive frames at consecutive addresses of the direct map. */
module KernelHeap {
  import opened PageTables
  import opened Mapping
  import opened Addresses
  import opened KernelHalf

  /** The frames base .. base + n have become heap pages; nothing else has changed that a walk
      or a reader of a page in use could notice. */
  ghost predicate Allotted(s: State, s': State, base: nat, n: nat) {
    && s'.Ok() && |s'.role| == |s.role| && |s'.count| == |s.count|
    && base == s.pool.top - s.Avail() && s'.Avail() == s.Avail() - n && s'.pool.top == s.pool.top
    && (forall f: nat :: base <= f < base + n ==>
          RoleOf(s.role, f) == Free && RoleOf(s'.role, f) == Heap && f < |s'.count| && s'.count[f] == 1)
    && (forall f: nat :: !(base <= f < base + n) ==> RoleOf(s'.role, f) == RoleOf(s.role, f))
    && (forall f: nat :: f < |s.count| && !(base <= f < base + n) ==> s'.count[f] == s.count[f])
    && SameLeaves(s.m, s.role, s'.m) && (forall r: nat :: s.Root(r) ==> NoneLost(s.m, r, s'.m))
    && (forall f: nat, i: nat :: Inert(RoleOf(s.role, f)) || RoleOf(s.role, f) == Free ==>
          At(s'.m, f, i) == At(s.m, f, i))
  }

  lemma NothingAllotted(s: State)
    requires s.Ok()
    ensures s.pool.top >= s.Avail() && Allotted(s, s, s.pool.top - s.Avail(), 0)
  {
  }

  /** Whole pages that hold the requested number of bytes. */
  function PagesFor(bytes: nat): (n: nat)
    ensures bytes <= n * PAGE < bytes + PAGE
  {
    (bytes + PAGE - 1) / PAGE
  }

  lemma OnePage()
    ensures PagesFor(PAGE) == 1
  {
  }

  lemma AllottedSoFar(s: State, s': State, base: nat, n: nat)
    requires Allotted(s, s', base, n)
    ensures s'.Avail() == s.Avail() - n && s'.pool.top == s.pool.top
    ensures forall r: nat :: s.Root(r) ==> NoneLost(s.m, r, s'.m)
  {
  }

  /** Mapping a page of the direct map to itself once more is invisible. */
  lemma RemapIsInvisible(s: State, s': State, k: Half, r: nat, f: nat)
    requires s.Ok() && Mapped511(s, k) && s.Root(r) && k.lo <= f < k.hi
    requires Mapped(s, s', r, KernelPage(f), Word(f, KERNEL_RW))
    ensures SameFrames(s, s') && Mapped511(s', k) && SameLeaves(s.m, s.role, s'.m)
    ensures forall x: nat :: s.Root(x) ==> NoneLost(s.m, x, s'.m)
    ensures forall q: nat, i: nat :: Inert(RoleOf(s.role, q)) || RoleOf(s.role, q) == Free ==>
      At(s'.m, q, i) == At(s.m, q, i)
  {
    DirectMapHasTables(s, k, r, f);
    forall x: nat | s.Root(x) ensures NoneLost(s.m, x, s'.m) {
      GrownLosesNone(s.m, s.role, s'.m, s'.role, x);
    }
    MappingKeepsHalf(s, s', k, r, KernelPage(f), Word(f, KERNEL_RW));
    forall x: nat, v: VPage | s.Root(x) ensures Leaf(s'.m, x, v) == Leaf(s.m, x, v) {
      if v == KernelPage(f) {
        assert Leaf(s.m, x, v) == Word(f, KERNEL_RW);
      }
    }
  }

  lemma TakenKeepsHalf(s: State, s': State, k: Half, f: nat, t: Role)
    requires Mapped511(s, k) && Taken(s, s', f, t) && f < k.hi && !t.L4?
    ensures Mapped511(s', k)
  {
    RolePut(s.role, f, t);
    forall x: nat | s'.Root(x) ensures s.Root(x) {}
  }

  lemma AllotMore(s0: State, s: State, s1: State, s2: State, base: nat, n: nat, f: nat)
    requires Allotted(s0, s, base, n) && Taken(s, s1, f, Heap) && s2.Ok() && SameFrames(s1, s2)
    requires SameLeaves(s.m, s.role, s2.m) && forall r: nat :: s.Root(r) ==> NoneLost(s.m, r, s2.m)
    requires forall q: nat, i: nat :: Inert(RoleOf(s1.role, q)) || RoleOf(s1.role, q) == Free ==>
      At(s2.m, q, i) == At(s1.m, q, i)
    ensures f == base + n && Allotted(s0, s2, base, n + 1)
  {
    hide Forest, NoneLost, Leaf;
    forall r: nat | s0.Root(r) ensures NoneLost(s0.m, r, s2.m) {
      assert RoleOf(s.role, r) == RoleOf(s0.role, r);
      NoneLostTrans(s0.m, r, s.m, s2.m);
    }
  }

  /** The frame just taken continues the block, and its page of the direct map needs no new table. */
  lemma PageReady(s0: State, s: State, s1: State, k: Half, r: nat, base: nat, n: nat, f: nat)
    requires s.Ok() && Mapped511(s, k) && s.Root(r) && Allotted(s0, s, base, n)
    requires Taken(s, s1, f, Heap) && s.pool.top - s.Avail() < k.hi
    ensures f == base + n && k.lo <= f < k.hi && s1.Root(r)
    ensures PageOf(KERNEL_BASE + base * PAGE + n * PAGE) == KernelPage(f)
    ensures KernelPage(f).Ok() && !KernelPage(f).User() && Affords(s1, r, KernelPage(f))
  {
    TakenKeepsHalf(s, s1, k, f, Heap);
    RolePut(s.role, f, Heap);
    DirectMapHasTables(s1, k, r, f);
    KernelPagesAreNotUser(f);
  }

  /** One more page: take the next frame and map it, in the direct map, to itself. */
  lemma AllotOne(s0: State, s: State, s1: State, s2: State, k: Half, r: nat, base: nat, n: nat, f: nat)
    requires Mapped511(s, k) && s.Root(r) && Allotted(s0, s, base, n)
    requires Taken(s, s1, f, Heap) && k.lo <= f < k.hi
    requires Mapped(s1, s2, r, KernelPage(f), Word(f, KERNEL_RW))
    ensures Mapped511(s2, k) && s2.Root(r) && f == base + n && Allotted(s0, s2, base, n + 1)
  {
    TakenKeepsHalf(s, s1, k, f, Heap);
    RolePut(s.role, f, Heap);
    RemapIsInvisible(s1, s2, k, r, f);
    assert SameLeaves(s.m, s.role, s2.m);
    AllotMore(s0, s, s1, s2, base, n, f);
  }

  /** Each page of a block shows, in every space, the frame that its address names. */
  lemma BlockMapped(s: State, s': State, k: Half, base: nat, n: nat, r: nat, i: nat)
    requires Allotted(s, s', base, n) && Mapped511(s, k) && Mapped511(s', k) && s'.Root(r) && i < n
    ensures Leaf(s'.m, r, PageOf(KERNEL_BASE + base * PAGE + i * PAGE)) == Word(base + i, KERNEL_RW)
    ensures RoleOf(s.role, base + i).Free? && RoleOf(s'.role, base + i).Heap?
  {
    hide PageOf, Leaf, State.Ok, NoneLost;
    assert k.lo <= base && base + n <= k.hi;
    assert KERNEL_BASE + base * PAGE + i * PAGE == KERNEL_BASE + (base + i) * PAGE;
    assert Leaf(s'.m, r, KernelPage(base + i)) == Word(base + i, KERNEL_RW);
  }

  /** What a caller of kmalloc for one page finds. */
  lemma AllottedPage(s: State, s': State, f: nat, r: nat, v: VPage)
    requires Allotted(s, s', f, 1) && s.Root(r)
    ensures RoleOf(s'.role, f) == Heap && f < |s'.count| && s'.count[f] == 1 && s'.Root(r)
    ensures Leaf(s'.m, r, v) == Leaf(s.m, r, v) && f == s.pool.top - s.Avail()
    ensures forall g: nat :: RoleOf(s.role, g) == Data ==> RoleOf(s'.role, g) == Data
  {
  }
}
