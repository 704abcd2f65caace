/**
 Four-level page tables as they lie in physical memory: the words, the walk, and the
 invariant that makes the table pages of all address spaces one forest.

 A page-table entry is the 64-bit word the paging code masks apart: bits 12 and up name a
 frame, the low twelve are flags.  The four flag bits the kernel acts on are kept by name
 (`BitLayout` ties them to the bits); the other eight are carried along in `rest`.
 */
module PageTables {

  datatype Flags = Flags(present: bool, writable: bool, user: bool, cow: bool, rest: nat)

  datatype Word = Word(frame: nat, flags: Flags) {
    predicate Present() { flags.present }
  }

  const NO_FLAGS := Flags(false, false, false, false, 0)
  const KERNEL_RW := Flags(true, true, false, false, 0)  // 0x3
  const USER_RW := Flags(true, true, true, false, 0)     // 0x7
  const ZERO := Word(0, NO_FLAGS)

  /** The word after fork: same frame, no longer writable, marked copy-on-write. */
  function CowMarked(w: Word): Word { Word(w.frame, w.flags.(writable := false, cow := true)) }

  const ENTRIES: nat := 512
  const KERNEL_SLOT: nat := 511

  /** One physical page as 512 words, and physical memory as a sequence of pages. */
  type Page = seq<Word>
  type Mem = seq<Page>

  function ZeroPage(): (p: Page)
    ensures |p| == ENTRIES && forall i :: 0 <= i < ENTRIES ==> p[i] == ZERO
  {
    seq(ENTRIES, _ => ZERO)
  }

  predicate Sized(m: Mem) {
    forall p :: 0 <= p < |m| ==> |m[p]| == ENTRIES
  }

  /** The word at index i of frame p; frames beyond memory read as zero. */
  function At(m: Mem, p: nat, i: nat): Word {
    if p < |m| && i < |m[p]| then m[p][i] else ZERO
  }

  function Put(m: Mem, p: nat, i: nat, w: Word): Mem
    requires p < |m| && i < |m[p]|
  {
    m[p := m[p][i := w]]
  }

  /** A virtual page, as the four table indices its address selects. */
  datatype VPage = VPage(a: nat, b: nat, c: nat, d: nat) {
    predicate Ok() { a < ENTRIES && b < ENTRIES && c < ENTRIES && d < ENTRIES }
    predicate User() { Ok() && a < KERNEL_SLOT }
  }

  // ----- the walk ---------------------------------------------------------------------

  /** The frame an entry leads to, if it is present. */
  function Next(m: Mem, p: nat, i: nat): (r: int) {
    if At(m, p, i).Present() then At(m, p, i).frame else -1
  }

  function Pdpt(m: Mem, root: nat, v: VPage): int { Next(m, root, v.a) }

  function Pd(m: Mem, root: nat, v: VPage): int {
    if Pdpt(m, root, v) < 0 then -1 else Next(m, Pdpt(m, root, v), v.b)
  }

  function Pt(m: Mem, root: nat, v: VPage): int {
    if Pd(m, root, v) < 0 then -1 else Next(m, Pd(m, root, v), v.c)
  }

  /** The leaf word a walk ends at, zero when a table on the way is absent. */
  function Leaf(m: Mem, root: nat, v: VPage): Word {
    if Pt(m, root, v) < 0 then ZERO else At(m, Pt(m, root, v), v.d)
  }

  // ----- the forest -------------------------------------------------------------------

  /** The address space that owns the tables below slot 511, shared by every root. */
  const KERNEL: int := -1

  /** What each frame is used for.  A table's role records its place: the space it belongs to
      and the indices that lead to it. */
  datatype Role =
    | Reserved
    | Free
    | Heap
    | Data
    | L4(space: int)
    | L3(space: int, a: nat)
    | L2(space: int, a: nat, b: nat)
    | L1(space: int, a: nat, b: nat, c: nat)

  type Roles = seq<Role>

  function RoleOf(role: Roles, f: nat): Role {
    if f < |role| then role[f] else Reserved
  }

  function Owner(space: int, i: nat): int { if i == KERNEL_SLOT then KERNEL else space }

  /** The role a present entry at index i of a table with role t must lead to. */
  predicate Leads(t: Role, i: nat, child: Role) {
    match t
    case L4(s) => child == L3(Owner(s, i), i)
    case L3(s, a) => child == L2(s, a, i)
    case L2(s, a, b) => child == L1(s, a, b, i)
    case L1(s, _, _, _) => s != KERNEL ==> child == Data
    case _ => true
  }

  ghost predicate Linked(m: Mem, role: Roles) {
    forall f: nat, i: nat :: At(m, f, i).Present() ==> Leads(RoleOf(role, f), i, RoleOf(role, At(m, f, i).frame))
  }

  ghost predicate FreeIsZero(m: Mem, role: Roles) {
    forall f: nat, i: nat :: RoleOf(role, f) == Free ==> At(m, f, i) == ZERO
  }

  /** A leaf entry is either present or empty. */
  ghost predicate Clean(m: Mem, role: Roles) {
    forall f: nat, i: nat :: RoleOf(role, f).L1? && !At(m, f, i).Present() ==> At(m, f, i) == ZERO
  }

  /** A table below a root belongs to a root or to the kernel. */
  predicate Homed(role: Roles, t: Role) {
    (t.L3? || t.L2? || t.L1?) && t.space != KERNEL ==> t.space >= 0 && IsRoot(role, t.space)
  }

  /** A root knows its own number, and every other table its root. */
  ghost predicate Rooted(role: Roles) {
    && (forall f: nat :: RoleOf(role, f).L4? ==> RoleOf(role, f) == L4(f))
    && (forall f: nat {:trigger Homed(role, RoleOf(role, f))} :: Homed(role, RoleOf(role, f)))
  }

  ghost predicate Forest(m: Mem, role: Roles) {
    |m| == |role| && Sized(m) && Linked(m, role) && FreeIsZero(m, role) && Clean(m, role) && Rooted(role)
  }

  predicate IsRoot(role: Roles, r: nat) { RoleOf(role, r) == L4(r) }

  lemma WalkRoles(m: Mem, role: Roles, r: nat, v: VPage)
    requires Forest(m, role) && IsRoot(role, r)
    ensures var s := Owner(r, v.a);
      && (Pdpt(m, r, v) >= 0 ==> RoleOf(role, Pdpt(m, r, v)) == L3(s, v.a))
      && (Pd(m, r, v) >= 0 ==> RoleOf(role, Pd(m, r, v)) == L2(s, v.a, v.b))
      && (Pt(m, r, v) >= 0 ==> RoleOf(role, Pt(m, r, v)) == L1(s, v.a, v.b, v.c))
  {
  }

  /** Writing a leaf word changes the one virtual page it is the leaf of. */
  lemma LeafWrite(m: Mem, role: Roles, p: nat, i: nat, w: Word, s: int, a: nat, b: nat, c: nat, r: nat, v: VPage)
    requires Forest(m, role) && IsRoot(role, r)
    requires p < |m| && i < ENTRIES && RoleOf(role, p) == L1(s, a, b, c)
    ensures var m' := Put(m, p, i, w);
      && Pt(m', r, v) == Pt(m, r, v)
      && Leaf(m', r, v) == (if Pt(m, r, v) == p && v.d == i then w else Leaf(m, r, v))
  {
  }

  /** Hanging an all-zero page below an absent entry, or rewriting the flags of a present one,
      leaves every walk where it was. */
  lemma LinkKeepsLeaf(m: Mem, role: Roles, p: nat, i: nat, child: nat, fl: Flags, r: nat, v: VPage)
    requires Forest(m, role) && IsRoot(role, r)
    requires p < |m| && i < ENTRIES && fl.present
    requires Branch(RoleOf(role, p))
    requires if At(m, p, i).Present() then At(m, p, i).frame == child else RoleOf(role, child) == Free
    ensures Leaf(Put(m, p, i, Word(child, fl)), r, v) == Leaf(m, r, v)
  {
    var m' := Put(m, p, i, Word(child, fl));
    WalkRoles(m, role, r, v);
    if !At(m, p, i).Present() {
      forall j: nat ensures At(m', child, j) == ZERO {
        assert At(m', child, j) == At(m, child, j);
      }
    }
  }

  lemma PutAt(m: Mem, p: nat, i: nat, w: Word)
    requires p < |m| && i < |m[p]|
    ensures forall q: nat, j: nat :: At(Put(m, p, i, w), q, j) == if q == p && j == i then w else At(m, q, j)
  {
  }

  lemma PagePutAt(m: Mem, p: nat, page: Page, m': Mem)
    requires p < |m| && |page| == ENTRIES && m' == m[p := page]
    ensures forall q: nat, j: nat :: q != p ==> At(m', q, j) == At(m, q, j)
    ensures forall j: nat :: j < ENTRIES ==> At(m', p, j) == page[j]
    ensures forall j: nat :: j >= ENTRIES ==> At(m', p, j) == ZERO
  {
  }

  lemma RolePut(role: Roles, c: nat, t: Role)
    requires c < |role|
    ensures forall f: nat :: RoleOf(role[c := t], f) == if f == c then t else RoleOf(role, f)
  {
    var role' := role[c := t];
    forall f: nat ensures RoleOf(role', f) == if f == c then t else RoleOf(role, f) {}
  }

  lemma RootedPut(role: Roles, c: nat, t: Role, role': Roles)
    requires Rooted(role) && c < |role| && !RoleOf(role, c).L4? && (t.L4? ==> t == L4(c)) && role' == role[c := t]
    requires Homed(role, t)
    ensures Rooted(role')
  {
    forall f: nat ensures RoleOf(role', f) == if f == c then t else RoleOf(role, f) {}
    forall f: nat ensures Homed(role', RoleOf(role', f)) {
      assert Homed(role, RoleOf(role, f));
    }
  }

  // ----- what keeps the forest --------------------------------------------------------

  lemma LinkKeepsForest(m: Mem, role: Roles, p: nat, i: nat, child: nat, fl: Flags, t: Role)
    requires Forest(m, role) && p < |m| && i < ENTRIES && fl.present
    requires Branch(RoleOf(role, p))
    requires RoleOf(role, child) == Free && Leads(RoleOf(role, p), i, t)
    ensures Forest(Put(m, p, i, Word(child, fl)), role[child := t])
  {
    PutAt(m, p, i, Word(child, fl));
    RolePut(role, child, t);
    assert Homed(role, RoleOf(role, p));
    RootedPut(role, child, t, role[child := t]);
  }

  lemma ReflagKeepsForest(m: Mem, role: Roles, p: nat, i: nat, fl: Flags)
    requires Forest(m, role) && p < |m| && i < ENTRIES && At(m, p, i).Present() && Branch(RoleOf(role, p))
    ensures Forest(Put(m, p, i, Word(At(m, p, i).frame, fl)), role)
  {
    PutAt(m, p, i, Word(At(m, p, i).frame, fl));
  }

  lemma LeafWriteKeepsForest(m: Mem, role: Roles, p: nat, i: nat, w: Word)
    requires Forest(m, role) && p < |m| && i < ENTRIES && RoleOf(role, p).L1?
    requires w.Present() || w == ZERO
    requires w.Present() && RoleOf(role, p).space != KERNEL ==> RoleOf(role, w.frame) == Data
    ensures Forest(Put(m, p, i, w), role)
  {
    PutAt(m, p, i, w);
  }

  lemma DataWriteKeepsForest(m: Mem, role: Roles, p: nat, page: Page)
    requires Forest(m, role) && p < |m| && (RoleOf(role, p).Data? || RoleOf(role, p).Heap?) && |page| == ENTRIES
    ensures Forest(m[p := page], role)
  {
    var m' := m[p := page];
    forall f: nat, i: nat | f != p ensures At(m', f, i) == At(m, f, i) {}
  }

  /** Walks never read data pages. */
  lemma DataWriteKeepsLeaves(m: Mem, role: Roles, p: nat, page: Page, m': Mem)
    requires Forest(m, role) && p < |m| && (RoleOf(role, p).Data? || RoleOf(role, p).Heap?) && |page| == ENTRIES
    requires m' == m[p := page]
    ensures forall r: nat, v: VPage :: IsRoot(role, r) ==> Leaf(m', r, v) == Leaf(m, r, v)
    ensures forall r: nat, i: nat :: IsRoot(role, r) ==> Next(m', r, i) == Next(m, r, i)
  {
  }

  lemma ClaimKeepsForest(m: Mem, role: Roles, p: nat, t: Role)
    requires Forest(m, role) && (RoleOf(role, p).Free? || RoleOf(role, p).Heap?) && (t.Data? || t.Heap?)
    ensures Forest(m, role[p := t])
  {
    RolePut(role, p, t);
    RootedPut(role, p, t, role[p := t]);
  }

  lemma ClaimRootKeepsForest(m: Mem, role: Roles, p: nat, w: Word)
    requires Forest(m, role) && RoleOf(role, p) == Free
    requires w.Present() ==> RoleOf(role, w.frame) == L3(KERNEL, KERNEL_SLOT)
    ensures Forest(Put(m, p, KERNEL_SLOT, w), role[p := L4(p)])
  {
    PutAt(m, p, KERNEL_SLOT, w);
    RootedPut(role, p, L4(p), role[p := L4(p)]);
  }

  // ----- what growing the forest leaves alone -----------------------------------------

  predicate Inert(t: Role) { t.Data? || t.Heap? || t.Reserved? }

  /** From (m, role) to (m', role') free frames may have become tables below a root and entries
      may have changed, but no other role, no data page and no link to a table has. */
  ghost predicate Grown(m: Mem, role: Roles, m': Mem, role': Roles) {
    && |m'| == |m| && |role'| == |role|
    && (forall f: nat :: RoleOf(role, f) != Free ==> RoleOf(role', f) == RoleOf(role, f))
    && (forall f: nat :: RoleOf(role, f) == Free ==> !Inert(RoleOf(role', f)) && !RoleOf(role', f).L4?)
    && (forall f: nat, i: nat :: Inert(RoleOf(role, f)) ==> At(m', f, i) == At(m, f, i))
    && (forall f: nat, i: nat :: Branch(RoleOf(role, f)) && Next(m, f, i) >= 0 ==> Next(m', f, i) == Next(m, f, i))
  }

  ghost predicate SameLeaves(m: Mem, role: Roles, m': Mem) {
    forall r: nat, v: VPage :: IsRoot(role, r) ==> Leaf(m', r, v) == Leaf(m, r, v)
  }

  /** The number of tables on the way to v that do not exist yet. */
  function Missing(m: Mem, root: nat, v: VPage): nat {
    if Pdpt(m, root, v) < 0 then 3 else if Pd(m, root, v) < 0 then 2 else if Pt(m, root, v) < 0 then 1 else 0
  }

  /** No page of space r lacks more tables than before. */
  ghost predicate NoneLost(m: Mem, r: nat, m': Mem) {
    forall v: VPage :: Missing(m', r, v) <= Missing(m, r, v)
  }

  lemma NoneLostTrans(m: Mem, r: nat, m1: Mem, m2: Mem)
    requires NoneLost(m, r, m1) && NoneLost(m1, r, m2)
    ensures NoneLost(m, r, m2)
  {
    hide Missing;
    forall v: VPage ensures Missing(m2, r, v) <= Missing(m, r, v) {
      assert Missing(m1, r, v) <= Missing(m, r, v);
    }
  }

  lemma GrownLosesNone(m: Mem, role: Roles, m': Mem, role': Roles, r: nat)
    requires Forest(m, role) && Grown(m, role, m', role') && IsRoot(role, r)
    ensures NoneLost(m, r, m')
  {
    forall v: VPage ensures Missing(m', r, v) <= Missing(m, r, v) {
      WalkRoles(m, role, r, v);
    }
  }

  predicate Branch(t: Role) { t.L4? || t.L3? || t.L2? }

  lemma LinkGrows(m: Mem, role: Roles, p: nat, i: nat, child: nat, fl: Flags, t: Role)
    requires Forest(m, role) && p < |m| && i < ENTRIES && fl.present && Branch(RoleOf(role, p))
    requires !At(m, p, i).Present() && RoleOf(role, child) == Free && Leads(RoleOf(role, p), i, t)
    ensures var m', role' := Put(m, p, i, Word(child, fl)), role[child := t];
      Grown(m, role, m', role') && SameLeaves(m, role, m')
  {
    PutAt(m, p, i, Word(child, fl));
    RolePut(role, child, t);
    forall r: nat, v: VPage | IsRoot(role, r)
      ensures Leaf(Put(m, p, i, Word(child, fl)), r, v) == Leaf(m, r, v)
    {
      LinkKeepsLeaf(m, role, p, i, child, fl, r, v);
    }
  }

  lemma ReflagGrows(m: Mem, role: Roles, p: nat, i: nat, fl: Flags)
    requires Forest(m, role) && p < |m| && i < ENTRIES && fl.present && Branch(RoleOf(role, p)) && At(m, p, i).Present()
    ensures var m' := Put(m, p, i, Word(At(m, p, i).frame, fl)); Grown(m, role, m', role) && SameLeaves(m, role, m')
  {
    var w := Word(At(m, p, i).frame, fl);
    PutAt(m, p, i, w);
    forall r: nat, v: VPage | IsRoot(role, r)
      ensures Leaf(Put(m, p, i, w), r, v) == Leaf(m, r, v)
    {
      LinkKeepsLeaf(m, role, p, i, w.frame, fl, r, v);
    }
  }

  /** Writing the leaf of v below one root writes it below every root that shares the table. */
  lemma LeafWriteEffect(m: Mem, role: Roles, root: nat, v: VPage, w: Word)
    requires Forest(m, role) && IsRoot(role, root) && v.Ok() && Pt(m, root, v) >= 0
    ensures Pt(m, root, v) < |m|
    ensures var m' := Put(m, Pt(m, root, v), v.d, w);
      && Grown(m, role, m', role)
      && (forall r: nat, x: VPage :: IsRoot(role, r) ==>
            && Pt(m', r, x) == Pt(m, r, x)
            && Leaf(m', r, x) == if x == v && Pt(m, r, v) == Pt(m, root, v) then w else Leaf(m, r, x))
  {
    WalkRoles(m, role, root, v);
    var p := Pt(m, root, v);
    PutAt(m, p, v.d, w);
    forall r: nat, x: VPage | IsRoot(role, r)
      ensures Pt(Put(m, p, v.d, w), r, x) == Pt(m, r, x)
      ensures Leaf(Put(m, p, v.d, w), r, x) == if x == v && Pt(m, r, v) == p then w else Leaf(m, r, x)
    {
      LeafWrite(m, role, p, v.d, w, Owner(root, v.a), v.a, v.b, v.c, r, x);
      WalkRoles(m, role, r, x);
    }
  }

  lemma GrownTrans(m0: Mem, role0: Roles, m1: Mem, role1: Roles, m2: Mem, role2: Roles)
    requires Grown(m0, role0, m1, role1) && Grown(m1, role1, m2, role2)
    ensures Grown(m0, role0, m2, role2)
  {
  }

  /** An entry now leads to `child`: the one it led to before, or a free and so empty page. */
  predicate Linking(m: Mem, role: Roles, p: nat, i: nat, child: nat) {
    if At(m, p, i).Present() then At(m, p, i).frame == child else RoleOf(role, child) == Free
  }

  lemma ReachPdpt(m: Mem, role: Roles, root: nat, v: VPage, child: nat, fl: Flags)
    requires Forest(m, role) && IsRoot(role, root) && v.Ok() && fl.present
    requires Linking(m, role, root, v.a, child)
    ensures var m' := Put(m, root, v.a, Word(child, fl));
      Pdpt(m', root, v) == child && Missing(m', root, v) == if Missing(m, root, v) == 3 then 2 else Missing(m, root, v)
  {
    WalkRoles(m, role, root, v);
    PutAt(m, root, v.a, Word(child, fl));
  }

  lemma ReachPd(m: Mem, role: Roles, root: nat, v: VPage, child: nat, fl: Flags)
    requires Forest(m, role) && IsRoot(role, root) && v.Ok() && fl.present
    requires Missing(m, root, v) <= 2 && Linking(m, role, Pdpt(m, root, v), v.b, child)
    ensures Pdpt(m, root, v) < |m|
    ensures var m' := Put(m, Pdpt(m, root, v), v.b, Word(child, fl));
      Pd(m', root, v) == child && Missing(m', root, v) == if Missing(m, root, v) == 2 then 1 else Missing(m, root, v)
  {
    WalkRoles(m, role, root, v);
    PutAt(m, Pdpt(m, root, v), v.b, Word(child, fl));
  }

  lemma ReachPt(m: Mem, role: Roles, root: nat, v: VPage, child: nat, fl: Flags)
    requires Forest(m, role) && IsRoot(role, root) && v.Ok() && fl.present
    requires Missing(m, root, v) <= 1 && Linking(m, role, Pd(m, root, v), v.c, child)
    ensures Pd(m, root, v) < |m|
    ensures Pt(Put(m, Pd(m, root, v), v.c, Word(child, fl)), root, v) == child
  {
  }
}
