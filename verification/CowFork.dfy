/**
 Copying an address space for fork: cow_page_tables walks the parent's tree and builds the
 child's beside it.
 */
module CowFork {
  import opened PageTables
  import opened Frames
  import opened Mapping

  /** A leaf after fork: still the same frame, no longer writable, marked copy-on-write. */
  function CowWord(w: Word): Word {
    if w.Present() then CowMarked(w) else w
  }

  /** The child's copy of a leaf; absent leaves are not copied. */
  function ChildWord(w: Word): Word {
    if w.Present() then CowWord(w) else ZERO
  }

  /** Pages visited by the four loops before they reach table (a, b, c). */
  predicate Before(v: VPage, a: nat, b: nat, c: nat) {
    v.a < a || (v.a == a && (v.b < b || (v.b == b && v.c < c)))
  }

  /** f is the frame of a present leaf of p among the pages visited so far. */
  ghost predicate Met(m: Mem, p: nat, f: nat, a: nat, b: nat, c: nat) {
    exists v: VPage :: v.User() && Before(v, a, b, c) && Leaf(m, p, v).Present() && Leaf(m, p, v).frame == f
  }

  /** What the copy leaves alone: roles of frames in use, every page that is not a page table,
      and the translations of all other spaces and of the kernel half. */
  ghost predicate Kept(s0: State, s: State, p: nat, ch: nat) {
    && |s.m| == |s0.m| && |s.role| == |s0.role| && |s.count| == |s0.count| && s.pool.top == s0.pool.top
    && RoleOf(s0.role, ch) == Free && RoleOf(s.role, ch) == L4(ch)
    && (forall f: nat :: RoleOf(s0.role, f) != Free ==> RoleOf(s.role, f) == RoleOf(s0.role, f))
    && (forall f: nat :: RoleOf(s0.role, f) == Free ==>
          !Inert(RoleOf(s.role, f)) && (RoleOf(s.role, f).L4? ==> f == ch))
    && (forall f: nat, i: nat :: RoleOf(s0.role, f) != Free && !RoleOf(s0.role, f).L1? ==>
          At(s.m, f, i) == At(s0.m, f, i))
    && (forall r: nat, v: VPage :: s0.Root(r) && v.Ok() && (r != p || !v.User()) ==>
          Leaf(s.m, r, v) == Leaf(s0.m, r, v))
    && Next(s.m, ch, KERNEL_SLOT) == Next(s0.m, p, KERNEL_SLOT)
  }

  /** The user pages before (a, b, c) are shared copy-on-write; the rest are still the parent's alone. */
  ghost predicate Shared(m0: Mem, m: Mem, p: nat, ch: nat, a: nat, b: nat, c: nat) {
    forall v: VPage :: v.User() ==>
      && Leaf(m, p, v) == (if Before(v, a, b, c) then CowWord(Leaf(m0, p, v)) else Leaf(m0, p, v))
      && Leaf(m, ch, v) == (if Before(v, a, b, c) then ChildWord(Leaf(m0, p, v)) else ZERO)
  }

  /** Of the frames met so far, those with count 1 now have count 2. */
  ghost predicate Bumped(s0: State, s: State, p: nat, a: nat, b: nat, c: nat) {
    forall f: nat :: f < |s.count| && f < |s0.count| && RoleOf(s0.role, f) != Free ==>
      s.count[f] == if s0.count[f] == 1 && Met(s0.m, p, f, a, b, c) then 2 else s0.count[f]
  }

  /** The copy of s0's space p into space ch has covered the pages before (a, b, c). */
  ghost predicate Copied(s0: State, s: State, p: nat, ch: nat, a: nat, b: nat, c: nat) {
    s.Ok() && s0.Root(p) && Kept(s0, s, p, ch) && Shared(s0.m, s.m, p, ch, a, b, c) && Bumped(s0, s, p, a, b, c)
  }

  // ----- the tables the copy will need --------------------------------------------------

  function PtsFrom(m: Mem, pd: nat, k: nat): nat
    decreases ENTRIES - k
  {
    if k >= ENTRIES then 0 else (if At(m, pd, k).Present() then 1 else 0) + PtsFrom(m, pd, k + 1)
  }

  function PdsFrom(m: Mem, pdpt: nat, j: nat): nat
    decreases ENTRIES - j
  {
    if j >= ENTRIES then 0
    else (if At(m, pdpt, j).Present() then 1 + PtsFrom(m, At(m, pdpt, j).frame, 0) else 0) + PdsFrom(m, pdpt, j + 1)
  }

  /** The tables below the user slots of a root. */
  function PdptsFrom(m: Mem, root: nat, i: nat): nat
    decreases KERNEL_SLOT - i
  {
    if i >= KERNEL_SLOT then 0
    else (if At(m, root, i).Present() then 1 + PdsFrom(m, At(m, root, i).frame, 0) else 0) + PdptsFrom(m, root, i + 1)
  }

  // ----- steps of the copy --------------------------------------------------------------

  /** A new root with only the kernel slot filled in. */
  lemma NewRootLeaves(m: Mem, role: Roles, ch: nat, w: Word)
    requires Forest(m, role) && RoleOf(role, ch) == Free
    ensures SameLeaves(m, role, Put(m, ch, KERNEL_SLOT, w))
    ensures forall v: VPage :: v.User() ==> Leaf(Put(m, ch, KERNEL_SLOT, w), ch, v) == ZERO
  {
    PutAt(m, ch, KERNEL_SLOT, w);
    forall r: nat, v: VPage | IsRoot(role, r)
      ensures Leaf(Put(m, ch, KERNEL_SLOT, w), r, v) == Leaf(m, r, v)
    {
      WalkRoles(m, role, r, v);
    }
  }

  /** ch is a new root whose only entry is the kernel slot of root p. */
  ghost predicate NewSpace(s0: State, s: State, p: nat, ch: nat) {
    && s.Ok() && s0.Root(p) && RoleOf(s0.role, ch) == Free && ch < |s0.m| && |s0.m[ch]| == ENTRIES && ch < |s0.count|
    && s.m == Put(s0.m, ch, KERNEL_SLOT, At(s0.m, p, KERNEL_SLOT))
    && s.role == s0.role[ch := L4(ch)]
    && s.count == s0.count[ch := 1]
    && s.Avail() == s0.Avail() - 1 && s.pool.top == s0.pool.top
  }

  lemma NewSpaceMade(s0: State, s: State, p: nat, ch: nat)
    requires s0.Ok() && s0.Root(p) && ch in s0.pool.managed && ch !in s0.pool.owned && s0.Avail() >= MIN_PAGES
    requires s0.pool.free != [] && s0.pool.free[0] == ch
    ensures ch < |s0.m| && |s0.m[ch]| == ENTRIES
    ensures s == State(Put(s0.m, ch, KERNEL_SLOT, At(s0.m, p, KERNEL_SLOT)), s0.role[ch := L4(ch)], s0.pool.Take(),
      s0.count[ch := 1])
            ==> NewSpace(s0, s, p, ch)
  {
    ClaimRootKeepsForest(s0.m, s0.role, ch, At(s0.m, p, KERNEL_SLOT));
    RolePut(s0.role, ch, L4(ch));
    TakeKeepsAscending(s0.pool);
  }

  lemma CopyStarts(s0: State, s: State, p: nat, ch: nat)
    requires s0.Ok() && NewSpace(s0, s, p, ch)
    ensures AtSlot(s0, s, p, ch, 0) && s.Avail() == s0.Avail() - 1
  {
    var w := At(s0.m, p, KERNEL_SLOT);
    ClaimRootKeepsForest(s0.m, s0.role, ch, w);
    NewRootLeaves(s0.m, s0.role, ch, w);
    PutAt(s0.m, ch, KERNEL_SLOT, w);
    RolePut(s0.role, ch, L4(ch));
  }

  lemma LinkKeepsKept(s0: State, s: State, s': State, p: nat, ch: nat, q: nat, i: nat, w: Word)
    requires Kept(s0, s, p, ch) && Extends(s, s') && SameLeaves(s.m, s.role, s'.m)
    requires q < |s.m| && i < |s.m[q]| && s'.m == Put(s.m, q, i, w)
    requires RoleOf(s0.role, q) == Free && (q == ch ==> i != KERNEL_SLOT)
    ensures Kept(s0, s', p, ch)
  {
  }

  /** Linking a new table into the child's tree does not disturb the copy. */
  lemma LinkKeepsCopied(s0: State, s: State, s': State, p: nat, ch: nat, a: nat, b: nat, c: nat,
                        q: nat, i: nat, table: nat, fl: Flags, t: Role)
    requires s0.Ok() && Copied(s0, s, p, ch, a, b, c)
    requires RoleOf(s0.role, q) == Free && Ensured(s, s', q, i, table, fl, t)
    requires q == ch ==> i != KERNEL_SLOT
    ensures Copied(s0, s', p, ch, a, b, c)
  {
    LinkKeepsKept(s0, s, s', p, ch, q, i, Word(table, fl));
    assert Shared(s0.m, s'.m, p, ch, a, b, c);
  }

  /** Pages of the parent that have no leaf need no copying. */
  lemma CopyAdvances(s0: State, s: State, p: nat, ch: nat, a: nat, b: nat, c: nat, a': nat, b': nat, c': nat)
    requires s0.Ok() && Copied(s0, s, p, ch, a, b, c)
    requires forall v: VPage :: v.User() && Before(v, a, b, c) ==> Before(v, a', b', c')
    requires forall v: VPage :: v.User() && Before(v, a', b', c') && !Before(v, a, b, c) ==> Leaf(s0.m, p, v) == ZERO
    ensures Copied(s0, s, p, ch, a', b', c')
  {
  }

  function CowPage(page: Page): (r: Page)
    ensures |r| == |page| && forall l :: 0 <= l < |r| ==> r[l] == CowWord(page[l])
  {
    seq(|page|, l requires 0 <= l < |page| => CowWord(page[l]))
  }

  function ChildPage(page: Page): (r: Page)
    ensures |r| == |page| && forall l :: 0 <= l < |r| ==> r[l] == ChildWord(page[l])
  {
    seq(|page|, l requires 0 <= l < |page| => ChildWord(page[l]))
  }

  /** Memory and counts after word l of the parent's page table has been shared. */
  function WordShared(m: Mem, ppt: nat, cpt: nat, l: nat): Mem
    requires ppt < |m| && cpt < |m| && l < |m[ppt]| == |m[cpt]|
  {
    var w := m[ppt][l];
    if w.Present() then Put(Put(m, ppt, l, CowWord(w)), cpt, l, CowWord(w)) else m
  }

  function CountBumped(count: seq<nat>, w: Word): seq<nat> {
    if w.Present() && w.frame < |count| && count[w.frame] == 1 then count[w.frame := 2] else count
  }

  /** Parent and child page table after the first l words have been shared. */
  function CowPrefix(page: Page, l: nat): (r: Page)
    ensures |r| == |page| && forall x :: 0 <= x < |r| ==> r[x] == if x < l then CowWord(page[x]) else page[x]
  {
    seq(|page|, x requires 0 <= x < |page| => if x < l then CowWord(page[x]) else page[x])
  }

  function ChildPrefix(page: Page, l: nat): (r: Page)
    ensures |r| == |page| && forall x :: 0 <= x < |r| ==> r[x] == if x < l then ChildWord(page[x]) else ZERO
  {
    seq(|page|, x requires 0 <= x < |page| => if x < l then ChildWord(page[x]) else ZERO)
  }

  function TablesAt(m: Mem, ppt: nat, cpt: nat, l: nat): Mem
    requires ppt < |m| && cpt < |m|
  {
    m[ppt := CowPrefix(m[ppt], l)][cpt := ChildPrefix(m[ppt], l)]
  }

  lemma TablesStart(m: Mem, ppt: nat, cpt: nat)
    requires ppt < |m| && cpt < |m| && ppt != cpt && |m[cpt]| == |m[ppt]|
    requires forall l :: 0 <= l < |m[cpt]| ==> m[cpt][l] == ZERO
    ensures TablesAt(m, ppt, cpt, 0) == m
  {
    assert CowPrefix(m[ppt], 0) == m[ppt] && ChildPrefix(m[ppt], 0) == m[cpt];
  }

  lemma TablesStep(m: Mem, ppt: nat, cpt: nat, l: nat)
    requires ppt < |m| && cpt < |m| && ppt != cpt && l < |m[ppt]|
    ensures var t, w := TablesAt(m, ppt, cpt, l), m[ppt][l];
      && t[ppt][l] == w && |t[ppt]| == |t[cpt]| == |m[ppt]|
      && TablesAt(m, ppt, cpt, l + 1) == WordShared(t, ppt, cpt, l)
  {
    var t, w, u := TablesAt(m, ppt, cpt, l), m[ppt][l], TablesAt(m, ppt, cpt, l + 1);
    if w.Present() {
      assert u[ppt] == t[ppt][l := CowWord(w)] && u[cpt] == t[cpt][l := CowWord(w)];
    } else {
      assert u[ppt] == t[ppt] && u[cpt] == t[cpt];
    }
  }

  lemma TablesEnd(m: Mem, ppt: nat, cpt: nat)
    requires ppt < |m| && cpt < |m|
    ensures TablesAt(m, ppt, cpt, |m[ppt]|) == m[ppt := CowPage(m[ppt])][cpt := ChildPage(m[ppt])]
  {
    assert CowPrefix(m[ppt], |m[ppt]|) == CowPage(m[ppt]) && ChildPrefix(m[ppt], |m[ppt]|) == ChildPage(m[ppt]);
  }

  /** Replacing a whole page table replaces exactly the leaves it holds. */
  lemma PageTableWrite(m: Mem, role: Roles, q: nat, page: Page)
    requires Forest(m, role) && RoleOf(role, q).L1? && |page| == ENTRIES
    requires RoleOf(role, q).space != KERNEL
    requires forall l :: 0 <= l < ENTRIES ==>
      (page[l].Present() && RoleOf(role, page[l].frame) == Data) || page[l] == ZERO
    ensures Forest(m[q := page], role)
    ensures forall r: nat, v: VPage :: IsRoot(role, r) && v.Ok() ==>
      && Pt(m[q := page], r, v) == Pt(m, r, v)
      && Leaf(m[q := page], r, v) == if Pt(m, r, v) == q then page[v.d] else Leaf(m, r, v)
  {
    var m' := m[q := page];
    PagePutAt(m, q, page, m');
    forall r: nat, v: VPage | IsRoot(role, r) && v.Ok()
      ensures Pt(m', r, v) == Pt(m, r, v) && Leaf(m', r, v) == if Pt(m, r, v) == q then page[v.d] else Leaf(m, r, v)
    {
      WalkRoles(m, role, r, v);
    }
  }

  /** The counts after the first n words of a page table have been visited. */
  function Bump(count: seq<nat>, page: Page, n: nat): (r: seq<nat>)
    requires n <= |page|
    ensures |r| == |count|
  {
    if n == 0 then count
    else CountBumped(Bump(count, page, n - 1), page[n - 1])
  }

  lemma {:induction false} BumpMeans(count: seq<nat>, page: Page, n: nat, f: nat)
    requires n <= |page| && f < |count|
    ensures Bump(count, page, n)[f] ==
      if count[f] == 1 && exists l :: 0 <= l < n && page[l].Present() && page[l].frame == f then 2 else count[f]
  {
    if n > 0 {
      BumpMeans(count, page, n - 1, f);
    }
  }

  lemma {:induction false} BumpGrows(count: seq<nat>, page: Page, n: nat)
    requires n <= |page|
    ensures forall f :: 0 <= f < |count| ==>
      Bump(count, page, n)[f] >= count[f] && (count[f] == 0 ==> Bump(count, page, n)[f] == 0)
  {
    if n > 0 {
      BumpGrows(count, page, n - 1);
    }
  }

  /** The state after the page table `ppt` has been copied to `cpt`. */
  function WithTableCopied(s: State, ppt: nat, cpt: nat): State
    requires ppt < |s.m| && cpt < |s.m|
  {
    var page := s.m[ppt];
    s.(m := s.m[ppt := CowPage(page)][cpt := ChildPage(page)], count := Bump(s.count, page, |page|))
  }

  lemma TableLeaves(m: Mem, role: Roles, r: nat, a: nat, b: nat, c: nat, q: nat)
    requires Forest(m, role) && IsRoot(role, r) && a < KERNEL_SLOT && b < ENTRIES && c < ENTRIES
    requires q == Pt(m, r, VPage(a, b, c, 0))
    ensures RoleOf(role, q) == L1(r, a, b, c) && q < |m| && |m[q]| == ENTRIES
    ensures forall l: nat :: l < ENTRIES ==> m[q][l] == Leaf(m, r, VPage(a, b, c, l))
    ensures forall r': nat, v: VPage :: IsRoot(role, r') && v.Ok() ==>
      (Pt(m, r', v) == q <==> r' == r && v.a == a && v.b == b && v.c == c)
  {
  }

  /** The leaf of v below r once table (a, b, c) of p has been copied to ch. */
  function LeafCopied(m: Mem, p: nat, ch: nat, a: nat, b: nat, c: nat, r: nat, v: VPage): Word {
    if v.a != a || v.b != b || v.c != c then Leaf(m, r, v)
    else if r == p then CowWord(Leaf(m, p, v))
    else if r == ch then ChildWord(Leaf(m, p, v))
    else Leaf(m, r, v)
  }

  lemma TableCopyLeaves(s: State, p: nat, ch: nat, a: nat, b: nat, c: nat, ppt: nat, cpt: nat)
    requires s.Ok() && s.Root(p) && s.Root(ch) && p != ch && a < KERNEL_SLOT && b < ENTRIES && c < ENTRIES
    requires ppt == Pt(s.m, p, VPage(a, b, c, 0)) && cpt == Pt(s.m, ch, VPage(a, b, c, 0))
    ensures ppt < |s.m| && cpt < |s.m|
    ensures Forest(WithTableCopied(s, ppt, cpt).m, s.role)
    ensures forall r: nat, v: VPage :: s.Root(r) && v.Ok() ==>
      Leaf(WithTableCopied(s, ppt, cpt).m, r, v) == LeafCopied(s.m, p, ch, a, b, c, r, v)
  {
    TableLeaves(s.m, s.role, p, a, b, c, ppt);
    TableLeaves(s.m, s.role, ch, a, b, c, cpt);
    var page := s.m[ppt];
    var m1 := s.m[ppt := CowPage(page)];
    forall l | 0 <= l < ENTRIES
      ensures (page[l].Present() && RoleOf(s.role, page[l].frame) == Data) || page[l] == ZERO
    {
      assert At(s.m, ppt, l) == page[l];
    }
    PageTableWrite(s.m, s.role, ppt, CowPage(page));
    PageTableWrite(m1, s.role, cpt, ChildPage(page));
    forall v: VPage | v.Ok() && v.a == a && v.b == b && v.c == c ensures page[v.d] == Leaf(s.m, p, v) {
      assert v == VPage(a, b, c, v.d);
    }
  }

  lemma TableCopyKept(s0: State, s: State, p: nat, ch: nat, a: nat, b: nat, c: nat, ppt: nat, cpt: nat)
    requires s.Ok() && s0.Root(p) && Kept(s0, s, p, ch) && a < KERNEL_SLOT && b < ENTRIES && c < ENTRIES
    requires ppt == Pt(s.m, p, VPage(a, b, c, 0)) && cpt == Pt(s.m, ch, VPage(a, b, c, 0))
    ensures ppt < |s.m| && cpt < |s.m| && Kept(s0, WithTableCopied(s, ppt, cpt), p, ch)
  {
    TableLeaves(s.m, s.role, p, a, b, c, ppt);
    TableLeaves(s.m, s.role, ch, a, b, c, cpt);
    TableCopyLeaves(s, p, ch, a, b, c, ppt, cpt);
    var s' := WithTableCopied(s, ppt, cpt);
    var m1 := s.m[ppt := CowPage(s.m[ppt])];
    PagePutAt(s.m, ppt, CowPage(s.m[ppt]), m1);
    PagePutAt(m1, cpt, ChildPage(s.m[ppt]), s'.m);
    forall f: nat, i: nat | RoleOf(s0.role, f) != Free && !RoleOf(s0.role, f).L1?
      ensures At(s'.m, f, i) == At(s0.m, f, i)
    {
      assert RoleOf(s.role, f) == RoleOf(s0.role, f);
      assert At(s'.m, f, i) == At(m1, f, i) == At(s.m, f, i);
    }
    assert Next(s'.m, ch, KERNEL_SLOT) == Next(s.m, ch, KERNEL_SLOT) by {
      assert At(s'.m, ch, KERNEL_SLOT) == At(m1, ch, KERNEL_SLOT) == At(s.m, ch, KERNEL_SLOT);
    }
    forall r: nat, v: VPage | s0.Root(r) && v.Ok() && (r != p || !v.User())
      ensures Leaf(s'.m, r, v) == Leaf(s0.m, r, v)
    {
      assert Leaf(s'.m, r, v) == LeafCopied(s.m, p, ch, a, b, c, r, v) == Leaf(s.m, r, v);
    }
  }

  lemma TableCopyMet(s0: State, s: State, p: nat, ch: nat, a: nat, b: nat, c: nat, ppt: nat, f: nat)
    requires s.Ok() && s.Root(p) && Shared(s0.m, s.m, p, ch, a, b, c) && a < KERNEL_SLOT && b < ENTRIES && c < ENTRIES
    requires ppt == Pt(s.m, p, VPage(a, b, c, 0))
    ensures ppt < |s.m| && |s.m[ppt]| == ENTRIES
    ensures Met(s0.m, p, f, a, b, c + 1) <==>
      Met(s0.m, p, f, a, b, c) || exists l :: 0 <= l < ENTRIES && s.m[ppt][l].Present() && s.m[ppt][l].frame == f
  {
    TableLeaves(s.m, s.role, p, a, b, c, ppt);
    var page := s.m[ppt];
    forall l: nat | l < ENTRIES ensures page[l] == Leaf(s0.m, p, VPage(a, b, c, l)) {
      var v := VPage(a, b, c, l);
      assert v.User() && Leaf(s.m, p, v) == Leaf(s0.m, p, v);
    }
    if Met(s0.m, p, f, a, b, c + 1) && !Met(s0.m, p, f, a, b, c) {
      var v: VPage :| v.User() && Before(v, a, b, c + 1) && Leaf(s0.m, p, v).Present() && Leaf(s0.m, p, v).frame == f;
      assert v == VPage(a, b, c, v.d);
      assert page[v.d].Present() && page[v.d].frame == f;
    }
    if l: nat :| l < ENTRIES && page[l].Present() && page[l].frame == f {
      var v := VPage(a, b, c, l);
      assert v.User() && Before(v, a, b, c + 1) && Leaf(s0.m, p, v) == page[l];
    }
  }

  lemma TableCopyBumped(s0: State, s: State, p: nat, ch: nat, a: nat, b: nat, c: nat, ppt: nat, cpt: nat)
    requires s.Ok() && s.Root(p) && Shared(s0.m, s.m, p, ch, a, b, c) && a < KERNEL_SLOT && b < ENTRIES && c < ENTRIES
    requires Bumped(s0, s, p, a, b, c) && |s.count| == |s0.count|
    requires ppt == Pt(s.m, p, VPage(a, b, c, 0)) && ppt < |s.m| && cpt < |s.m|
    ensures Bumped(s0, WithTableCopied(s, ppt, cpt), p, a, b, c + 1)
  {
    var s' := WithTableCopied(s, ppt, cpt);
    forall f: nat | f < |s.count| && RoleOf(s0.role, f) != Free
      ensures s'.count[f] == if s0.count[f] == 1 && Met(s0.m, p, f, a, b, c + 1) then 2 else s0.count[f]
    {
      TableCopyMet(s0, s, p, ch, a, b, c, ppt, f);
      BumpMeans(s.count, s.m[ppt], ENTRIES, f);
    }
  }

  lemma TableCopyShared(m0: Mem, m: Mem, m': Mem, p: nat, ch: nat, a: nat, b: nat, c: nat)
    requires Shared(m0, m, p, ch, a, b, c) && p != ch
    requires forall v: VPage :: v.User() ==> Leaf(m', p, v) == LeafCopied(m, p, ch, a, b, c, p, v)
    requires forall v: VPage :: v.User() ==> Leaf(m', ch, v) == LeafCopied(m, p, ch, a, b, c, ch, v)
    ensures Shared(m0, m', p, ch, a, b, c + 1)
  {
  }

  lemma TableCopyOk(s: State, ppt: nat, cpt: nat)
    requires s.Ok() && ppt < |s.m| && cpt < |s.m| && Forest(WithTableCopied(s, ppt, cpt).m, s.role)
    ensures WithTableCopied(s, ppt, cpt).Ok()
  {
    BumpGrows(s.count, s.m[ppt], ENTRIES);
  }

  /** Copying one page table takes the copy one table further. */
  lemma TableCopyAdvances(s0: State, s: State, p: nat, ch: nat, a: nat, b: nat, c: nat, ppt: nat, cpt: nat)
    requires s0.Ok() && Copied(s0, s, p, ch, a, b, c) && a < KERNEL_SLOT && b < ENTRIES && c < ENTRIES
    requires ppt == Pt(s.m, p, VPage(a, b, c, 0)) && cpt == Pt(s.m, ch, VPage(a, b, c, 0))
    ensures ppt < |s.m| && cpt < |s.m| && Copied(s0, WithTableCopied(s, ppt, cpt), p, ch, a, b, c + 1)
  {
    TableCopyKept(s0, s, p, ch, a, b, c, ppt, cpt);
    TableCopyLeaves(s, p, ch, a, b, c, ppt, cpt);
    TableCopyBumped(s0, s, p, ch, a, b, c, ppt, cpt);
    TableCopyOk(s, ppt, cpt);
    var s' := WithTableCopied(s, ppt, cpt);
    TableCopyShared(s0.m, s.m, s'.m, p, ch, a, b, c);
  }

  // ----- following the parent's tree and the child's ------------------------------------

  /** Besides free frames and page tables, only page q has changed. */
  ghost predicate OnlyBelow(s: State, s': State, q: nat) {
    && |s'.role| == |s.role|
    && (forall f: nat :: RoleOf(s.role, f) != Free ==> RoleOf(s'.role, f) == RoleOf(s.role, f))
    && (forall f: nat, i: nat :: RoleOf(s.role, f) != Free && !RoleOf(s.role, f).L1? && f != q ==>
          At(s'.m, f, i) == At(s.m, f, i))
  }

  lemma ParentPath(s0: State, s: State, p: nat, ch: nat, v: VPage)
    requires s0.Ok() && s0.Root(p) && Kept(s0, s, p, ch)
    ensures Pdpt(s.m, p, v) == Pdpt(s0.m, p, v)
    ensures Pd(s.m, p, v) == Pd(s0.m, p, v)
    ensures Pt(s.m, p, v) == Pt(s0.m, p, v)
  {
  }

  /** A table just linked below the child's page directory is where the child's walk ends. */
  lemma ChildTableLinked(s: State, s': State, ch: nat, a: nat, b: nat, k: nat, cpd: nat, cpt: nat, fl: Flags)
    requires s.Ok() && s.Root(ch) && a < KERNEL_SLOT && b < ENTRIES && k < ENTRIES && fl.present
    requires Pd(s.m, ch, VPage(a, b, k, 0)) == cpd && !At(s.m, cpd, k).Present()
    requires Ensured(s, s', cpd, k, cpt, fl, L1(ch, a, b, k))
    ensures Pd(s'.m, ch, VPage(a, b, k, 0)) == cpd && Pt(s'.m, ch, VPage(a, b, k, 0)) == cpt
    ensures cpt < |s'.m| && |s'.m[cpt]| == ENTRIES && forall l :: 0 <= l < ENTRIES ==> s'.m[cpt][l] == ZERO
    ensures OnlyBelow(s, s', cpd)
  {
    var v := VPage(a, b, k, 0);
    WalkRoles(s.m, s.role, ch, v);
    PutAt(s.m, cpd, k, Word(cpt, fl));
    forall l: nat | l < ENTRIES ensures s'.m[cpt][l] == ZERO {
      assert At(s'.m, cpt, l) == At(s.m, cpt, l) == ZERO;
    }
  }

  // ----- the third loop: the page tables below one page directory -----------------------

  ghost predicate AtTable(s0: State, s: State, p: nat, ch: nat, a: nat, b: nat, k: nat, ppd: nat, cpd: nat) {
    && s0.Ok() && Copied(s0, s, p, ch, a, b, k) && a < KERNEL_SLOT && b < ENTRIES
    && Pd(s0.m, p, VPage(a, b, 0, 0)) == ppd
    && Pd(s.m, ch, VPage(a, b, 0, 0)) == cpd && RoleOf(s0.role, cpd) == Free
    && (forall x: nat :: k <= x ==> !At(s.m, cpd, x).Present())
  }

  lemma TableRoles(s0: State, s: State, p: nat, ch: nat, a: nat, b: nat, k: nat, ppd: nat, cpd: nat)
    requires AtTable(s0, s, p, ch, a, b, k, ppd, cpd)
    ensures RoleOf(s0.role, ppd) == RoleOf(s.role, ppd) == L2(p, a, b) && RoleOf(s.role, cpd) == L2(ch, a, b)
    ensures ppd < |s.m| && cpd < |s.m|
    ensures At(s.m, ppd, k) == At(s0.m, ppd, k) && !At(s.m, cpd, k).Present()
  {
    WalkRoles(s0.m, s0.role, p, VPage(a, b, 0, 0));
    WalkRoles(s.m, s.role, ch, VPage(a, b, 0, 0));
  }

  lemma SkipTable(s0: State, s: State, p: nat, ch: nat, a: nat, b: nat, k: nat, ppd: nat, cpd: nat)
    requires AtTable(s0, s, p, ch, a, b, k, ppd, cpd) && k < ENTRIES && !At(s0.m, ppd, k).Present()
    ensures AtTable(s0, s, p, ch, a, b, k + 1, ppd, cpd)
  {
    forall v: VPage | v.User() && Before(v, a, b, k + 1) && !Before(v, a, b, k) ensures Leaf(s0.m, p, v) == ZERO {
      assert Pd(s0.m, p, v) == Pd(s0.m, p, VPage(a, b, 0, 0));
    }
    CopyAdvances(s0, s, p, ch, a, b, k, a, b, k + 1);
  }

  /** The child's new page table is linked; now the parent's can be copied into it. */
  lemma TableReady(s0: State, s: State, s1: State, p: nat, ch: nat, a: nat, b: nat, k: nat, ppd: nat, cpd: nat,
      cpt: nat)
    requires AtTable(s0, s, p, ch, a, b, k, ppd, cpd) && k < ENTRIES && At(s0.m, ppd, k).Present()
    requires Ensured(s, s1, cpd, k, cpt, At(s0.m, ppd, k).flags, L1(ch, a, b, k))
    ensures var ppt := At(s0.m, ppd, k).frame;
      && Copied(s0, s1, p, ch, a, b, k) && OnlyBelow(s, s1, cpd)
      && ppt == Pt(s1.m, p, VPage(a, b, k, 0)) && cpt == Pt(s1.m, ch, VPage(a, b, k, 0))
      && RoleOf(s1.role, ppt) == L1(p, a, b, k)
      && Pd(s1.m, ch, VPage(a, b, 0, 0)) == cpd
      && (forall x: nat :: k < x ==> !At(s1.m, cpd, x).Present())
      && (forall l :: 0 <= l < ENTRIES ==> At(s1.m, cpt, l) == ZERO)
  {
    TableRoles(s0, s, p, ch, a, b, k, ppd, cpd);
    LinkKeepsCopied(s0, s, s1, p, ch, a, b, k, cpd, k, cpt, At(s0.m, ppd, k).flags, L1(ch, a, b, k));
    assert Pd(s.m, ch, VPage(a, b, k, 0)) == Pd(s.m, ch, VPage(a, b, 0, 0));
    ChildTableLinked(s, s1, ch, a, b, k, cpd, cpt, At(s0.m, ppd, k).flags);
    ParentPath(s0, s1, p, ch, VPage(a, b, k, 0));
    WalkRoles(s1.m, s1.role, p, VPage(a, b, k, 0));
    assert Pd(s0.m, p, VPage(a, b, k, 0)) == Pd(s0.m, p, VPage(a, b, 0, 0));
    PutAt(s.m, cpd, k, Word(cpt, At(s0.m, ppd, k).flags));
    assert Pd(s1.m, ch, VPage(a, b, k, 0)) == Pd(s1.m, ch, VPage(a, b, 0, 0));
  }

  /** Copying a page table leaves all other pages, and so the upper levels of every walk, alone. */
  lemma TableCopyUpper(s: State, ppt: nat, cpt: nat, r: nat, v: VPage)
    requires s.Ok() && s.Root(r) && RoleOf(s.role, ppt).L1? && RoleOf(s.role, cpt).L1?
    ensures ppt < |s.m| && cpt < |s.m|
    ensures var m' := WithTableCopied(s, ppt, cpt).m;
      && (forall f: nat, i: nat :: !RoleOf(s.role, f).L1? ==> At(m', f, i) == At(s.m, f, i))
      && Pdpt(m', r, v) == Pdpt(s.m, r, v) && Pd(m', r, v) == Pd(s.m, r, v)
  {
  }

  lemma TableDone(s0: State, s: State, s1: State, p: nat, ch: nat, a: nat, b: nat, k: nat, ppd: nat, cpd: nat, cpt: nat)
    requires AtTable(s0, s, p, ch, a, b, k, ppd, cpd) && k < ENTRIES && At(s0.m, ppd, k).Present()
    requires Ensured(s, s1, cpd, k, cpt, At(s0.m, ppd, k).flags, L1(ch, a, b, k))
    ensures var ppt := At(s0.m, ppd, k).frame;
      && ppt < |s1.m| && cpt < |s1.m| && ppt != cpt
      && WithTableCopied(s1, ppt, cpt).Ok()
      && AtTable(s0, WithTableCopied(s1, ppt, cpt), p, ch, a, b, k + 1, ppd, cpd)
      && OnlyBelow(s, WithTableCopied(s1, ppt, cpt), cpd)
  {
    var ppt := At(s0.m, ppd, k).frame;
    TableReady(s0, s, s1, p, ch, a, b, k, ppd, cpd, cpt);
    TableCopyAdvances(s0, s1, p, ch, a, b, k, ppt, cpt);
    TableCopyUpper(s1, ppt, cpt, ch, VPage(a, b, 0, 0));
    assert RoleOf(s1.role, cpd) == L2(ch, a, b) by { WalkRoles(s1.m, s1.role, ch, VPage(a, b, 0, 0)); }
  }

  // ----- the second loop: the page directories below one directory-pointer table --------

  ghost predicate AtDirectory(s0: State, s: State, p: nat, ch: nat, a: nat, j: nat, ppdpt: nat, cpdpt: nat) {
    && s0.Ok() && Copied(s0, s, p, ch, a, j, 0) && a < KERNEL_SLOT
    && Pdpt(s0.m, p, VPage(a, 0, 0, 0)) == ppdpt
    && Pdpt(s.m, ch, VPage(a, 0, 0, 0)) == cpdpt && RoleOf(s0.role, cpdpt) == Free
    && (forall x: nat :: j <= x ==> !At(s.m, cpdpt, x).Present())
  }

  lemma DirectoryRoles(s0: State, s: State, p: nat, ch: nat, a: nat, j: nat, ppdpt: nat, cpdpt: nat)
    requires AtDirectory(s0, s, p, ch, a, j, ppdpt, cpdpt)
    ensures RoleOf(s0.role, ppdpt) == RoleOf(s.role, ppdpt) == L3(p, a) && RoleOf(s.role, cpdpt) == L3(ch, a)
    ensures ppdpt < |s.m| && cpdpt < |s.m|
    ensures At(s.m, ppdpt, j) == At(s0.m, ppdpt, j) && !At(s.m, cpdpt, j).Present()
  {
  }

  lemma SkipDirectory(s0: State, s: State, p: nat, ch: nat, a: nat, j: nat, ppdpt: nat, cpdpt: nat)
    requires AtDirectory(s0, s, p, ch, a, j, ppdpt, cpdpt) && j < ENTRIES && !At(s0.m, ppdpt, j).Present()
    ensures AtDirectory(s0, s, p, ch, a, j + 1, ppdpt, cpdpt)
  {
    forall v: VPage | v.User() && Before(v, a, j + 1, 0) && !Before(v, a, j, 0) ensures Leaf(s0.m, p, v) == ZERO {
      assert Pdpt(s0.m, p, v) == Pdpt(s0.m, p, VPage(a, 0, 0, 0));
    }
    CopyAdvances(s0, s, p, ch, a, j, 0, a, j + 1, 0);
  }

  lemma DirectoryReady(s0: State, s: State, s1: State, p: nat, ch: nat, a: nat, j: nat, ppdpt: nat, cpdpt: nat,
      cpd: nat)
    requires AtDirectory(s0, s, p, ch, a, j, ppdpt, cpdpt) && j < ENTRIES && At(s0.m, ppdpt, j).Present()
    requires Ensured(s, s1, cpdpt, j, cpd, At(s0.m, ppdpt, j).flags, L2(ch, a, j))
    ensures RoleOf(s.role, cpd) == Free && OnlyBelow(s, s1, cpdpt) && RoleOf(s1.role, ch) == L4(ch)
    ensures AtTable(s0, s1, p, ch, a, j, 0, At(s0.m, ppdpt, j).frame, cpd)
    ensures Pdpt(s1.m, ch, VPage(a, 0, 0, 0)) == cpdpt && forall x: nat :: j < x ==> !At(s1.m, cpdpt, x).Present()
  {
    var fl := At(s0.m, ppdpt, j).flags;
    DirectoryRoles(s0, s, p, ch, a, j, ppdpt, cpdpt);
    LinkKeepsCopied(s0, s, s1, p, ch, a, j, 0, cpdpt, j, cpd, fl, L2(ch, a, j));
    PutAt(s.m, cpdpt, j, Word(cpd, fl));
    assert Pdpt(s0.m, p, VPage(a, j, 0, 0)) == ppdpt;
    assert ch != cpdpt;
    assert Pdpt(s1.m, ch, VPage(a, j, 0, 0)) == Pdpt(s1.m, ch, VPage(a, 0, 0, 0)) == cpdpt;
    forall x: nat ensures !At(s1.m, cpd, x).Present() {
      assert At(s1.m, cpd, x) == At(s.m, cpd, x) == ZERO;
    }
  }

  lemma DirectoryDone(s0: State, s: State, s1: State, s2: State, p: nat, ch: nat, a: nat, j: nat, ppdpt: nat,
      cpdpt: nat,
                      ppd: nat, cpd: nat)
    requires AtDirectory(s0, s, p, ch, a, j, ppdpt, cpdpt) && j < ENTRIES
    requires RoleOf(s.role, cpd) == Free && OnlyBelow(s, s1, cpdpt) && OnlyBelow(s1, s2, cpd)
    requires Pdpt(s1.m, ch, VPage(a, 0, 0, 0)) == cpdpt && forall x: nat :: j < x ==> !At(s1.m, cpdpt, x).Present()
    requires RoleOf(s1.role, ch) == L4(ch) && AtTable(s0, s2, p, ch, a, j, ENTRIES, ppd, cpd)
    ensures AtDirectory(s0, s2, p, ch, a, j + 1, ppdpt, cpdpt) && OnlyBelow(s, s2, cpdpt)
  {
    DirectoryRoles(s0, s, p, ch, a, j, ppdpt, cpdpt);
    CopyAdvances(s0, s2, p, ch, a, j, ENTRIES, a, j + 1, 0);
    assert At(s2.m, ch, a) == At(s1.m, ch, a);
    forall x: nat ensures At(s2.m, cpdpt, x) == At(s1.m, cpdpt, x) {}
  }

  // ----- the first loop: the slots of the root ------------------------------------------

  ghost predicate AtSlot(s0: State, s: State, p: nat, ch: nat, i: nat) {
    s0.Ok() && Copied(s0, s, p, ch, i, 0, 0) && forall x: nat :: i <= x < KERNEL_SLOT ==> !At(s.m, ch, x).Present()
  }

  lemma SlotRoles(s0: State, s: State, p: nat, ch: nat, i: nat)
    requires AtSlot(s0, s, p, ch, i) && i < KERNEL_SLOT
    ensures RoleOf(s.role, p) == L4(p) && RoleOf(s.role, ch) == L4(ch) && p < |s.m| && ch < |s.m|
    ensures At(s.m, p, i) == At(s0.m, p, i) && !At(s.m, ch, i).Present()
  {
  }

  lemma SkipSlot(s0: State, s: State, p: nat, ch: nat, i: nat)
    requires AtSlot(s0, s, p, ch, i) && i < KERNEL_SLOT && !At(s0.m, p, i).Present()
    ensures AtSlot(s0, s, p, ch, i + 1)
  {
  }

  lemma SlotReady(s0: State, s: State, s1: State, p: nat, ch: nat, i: nat, cpdpt: nat)
    requires AtSlot(s0, s, p, ch, i) && i < KERNEL_SLOT && At(s0.m, p, i).Present()
    requires Ensured(s, s1, ch, i, cpdpt, At(s0.m, p, i).flags, L3(ch, i))
    ensures RoleOf(s.role, cpdpt) == Free && OnlyBelow(s, s1, ch) && RoleOf(s1.role, ch) == L4(ch)
    ensures AtDirectory(s0, s1, p, ch, i, 0, At(s0.m, p, i).frame, cpdpt)
    ensures forall x: nat :: i < x < KERNEL_SLOT ==> !At(s1.m, ch, x).Present()
  {
    var fl := At(s0.m, p, i).flags;
    LinkKeepsCopied(s0, s, s1, p, ch, i, 0, 0, ch, i, cpdpt, fl, L3(ch, i));
    PutAt(s.m, ch, i, Word(cpdpt, fl));
    forall x: nat ensures !At(s1.m, cpdpt, x).Present() {
      assert At(s1.m, cpdpt, x) == At(s.m, cpdpt, x) == ZERO;
    }
  }

  lemma SlotDone(s0: State, s: State, s1: State, s2: State, p: nat, ch: nat, i: nat, ppdpt: nat, cpdpt: nat)
    requires AtSlot(s0, s, p, ch, i) && i < KERNEL_SLOT
    requires RoleOf(s.role, cpdpt) == Free && OnlyBelow(s, s1, ch) && OnlyBelow(s1, s2, cpdpt)
    requires forall x: nat :: i < x < KERNEL_SLOT ==> !At(s1.m, ch, x).Present()
    requires AtDirectory(s0, s2, p, ch, i, ENTRIES, ppdpt, cpdpt) && RoleOf(s1.role, ch) == L4(ch)
    ensures AtSlot(s0, s2, p, ch, i + 1)
  {
    CopyAdvances(s0, s2, p, ch, i, ENTRIES, 0, i + 1, 0, 0);
    forall x: nat ensures At(s2.m, ch, x) == At(s1.m, ch, x) {}
  }

  lemma OnlyBelowRefl(s: State, q: nat)
    ensures OnlyBelow(s, s, q)
  {
  }

  lemma OnlyBelowTrans(s: State, s1: State, s2: State, q: nat)
    requires OnlyBelow(s, s1, q) && OnlyBelow(s1, s2, q)
    ensures OnlyBelow(s, s2, q)
  {
  }

  /** What CopyPageTable needs to know about the two page tables. */
  lemma TableCopyable(s0: State, s: State, s1: State, p: nat, ch: nat, a: nat, b: nat, k: nat, ppd: nat, cpd: nat,
      cpt: nat)
    requires AtTable(s0, s, p, ch, a, b, k, ppd, cpd) && k < ENTRIES && At(s0.m, ppd, k).Present()
    requires Ensured(s, s1, cpd, k, cpt, At(s0.m, ppd, k).flags, L1(ch, a, b, k))
    ensures var ppt := At(s0.m, ppd, k).frame;
      && ppt < |s1.m| && cpt < |s1.m| && ppt != cpt && |s1.m[ppt]| == |s1.m[cpt]| == ENTRIES
      && (forall l :: 0 <= l < ENTRIES ==> s1.m[cpt][l] == ZERO)
      && (forall l :: 0 <= l < ENTRIES && s1.m[ppt][l].Present() ==> s1.m[ppt][l].frame < |s1.count|)
  {
    var ppt := At(s0.m, ppd, k).frame;
    TableReady(s0, s, s1, p, ch, a, b, k, ppd, cpd, cpt);
    TableDone(s0, s, s1, p, ch, a, b, k, ppd, cpd, cpt);
    hide AtTable, Ensured;
    LeafFrames(s1, ppt);
    assert forall l: nat :: l < ENTRIES ==> s1.m[cpt][l] == At(s1.m, cpt, l);
  }

  lemma LeafFrames(s: State, pt: nat)
    requires s.Ok() && RoleOf(s.role, pt).L1? && RoleOf(s.role, pt).space != KERNEL
    ensures pt < |s.m| && |s.m[pt]| == ENTRIES
    ensures forall l :: 0 <= l < ENTRIES && s.m[pt][l].Present() ==> s.m[pt][l].frame < |s.count|
  {
    forall l | 0 <= l < ENTRIES && s.m[pt][l].Present() ensures s.m[pt][l].frame < |s.count| {
      assert s.m[pt][l] == At(s.m, pt, l);
      assert Leads(RoleOf(s.role, pt), l, RoleOf(s.role, s.m[pt][l].frame));
    }
  }

  /** What cow_page_tables achieves for the space p of s0: ch is a new space of s whose user pages
      are those of p, shared copy-on-write, and whose kernel half is the common one. */
  ghost predicate Forked(s0: State, s: State, p: nat, ch: nat) {
    && s.Ok() && Kept(s0, s, p, ch)
    && (forall v: VPage :: v.User() ==>
          && Leaf(s.m, p, v) == CowWord(Leaf(s0.m, p, v))
          && Leaf(s.m, ch, v) == ChildWord(Leaf(s0.m, p, v)))
    && (forall f: nat :: f < |s0.count| && RoleOf(s0.role, f) != Free ==>
          s.count[f] == if s0.count[f] == 1 && UserFrame(s0.m, p, f) then 2 else s0.count[f])
    && s.Avail() == s0.Avail() - 1 - PdptsFrom(s0.m, p, 0)
  }

  /** f backs a present user page of space r. */
  ghost predicate UserFrame(m: Mem, r: nat, f: nat) {
    exists v: VPage :: v.User() && Leaf(m, r, v).Present() && Leaf(m, r, v).frame == f
  }

  lemma CopyEnds(s0: State, s: State, p: nat, ch: nat)
    requires AtSlot(s0, s, p, ch, KERNEL_SLOT) && s.Avail() == s0.Avail() - 1 - PdptsFrom(s0.m, p, 0)
    ensures Forked(s0, s, p, ch)
  {
    assert forall v: VPage :: v.User() ==> Before(v, KERNEL_SLOT, 0, 0);
    forall f: nat ensures Met(s0.m, p, f, KERNEL_SLOT, 0, 0) <==> UserFrame(s0.m, p, f) {}
  }

  /** The page q is a table on the way to v below root r. */
  predicate OnPath(m: Mem, r: nat, v: VPage, q: nat) {
    q == Pdpt(m, r, v) || q == Pd(m, r, v) || q == Pt(m, r, v)
  }

  /** The child's tables are all new, and no other space uses any of them. */
  lemma ChildTablesFresh(s0: State, s: State, p: nat, ch: nat, v: VPage, q: nat)
    requires s0.Ok() && s0.Root(p) && Forked(s0, s, p, ch) && v.User() && OnPath(s.m, ch, v, q)
    ensures RoleOf(s0.role, q) == Free
    ensures forall r: nat, x: VPage :: s.Root(r) && r != ch && x.Ok() ==> !OnPath(s.m, r, x, q) && q != r
  {
    assert Homed(s0.role, RoleOf(s0.role, q));
    hide Forest, Pool.Ascending;
    PathRole(s, ch, v, q);
    forall r: nat, x: VPage | s.Root(r) && r != ch && x.Ok() ensures !OnPath(s.m, r, x, q) && q != r {
      if OnPath(s.m, r, x, q) {
        PathRole(s, r, x, q);
      }
    }
  }

  /** The role of a table names the root it is found from. */
  lemma PathRole(s: State, r: nat, v: VPage, q: nat)
    requires s.Ok() && s.Root(r) && OnPath(s.m, r, v, q)
    ensures var t := RoleOf(s.role, q); (t.L3? || t.L2? || t.L1?) && t.space == Owner(r, v.a)
  {
    WalkRoles(s.m, s.role, r, v);
  }
}
