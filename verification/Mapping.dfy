/**
 What the paging operations do to the whole state, as relations between values: physical
 memory, the roles of the frames, the frame pool and the reference counts.
 */
module Mapping {
  import opened PageTables
  import opened Frames

  datatype State = State(m: Mem, role: Roles, pool: Pool, count: seq<nat>) {
    ghost predicate Ok() {
      && Forest(m, role)
      && |role| <= |count|
      && pool.Ascending()
      && (forall f: nat :: f < |count| && !RoleOf(role, f).Free? && !RoleOf(role, f).Reserved? ==> count[f] >= 1)
      && (forall f: nat :: f < |count| && RoleOf(role, f).Free? ==> count[f] == 0)
      && forall f: nat :: RoleOf(role, f) == Free <==> f in pool.managed && f !in pool.owned
    }

    predicate Root(r: nat) { IsRoot(role, r) }

    function Avail(): int { pool.Count() }
  }

  /** Tables may have been added and entries changed; see Grown.  Frames that were in use keep
      their reference counts. */
  ghost predicate Extends(s: State, s': State) {
    && Grown(s.m, s.role, s'.m, s'.role)
    && s'.pool.top == s.pool.top
    && |s'.count| == |s.count|
    && forall f: nat :: f < |s.count| && RoleOf(s.role, f) != Free ==> s'.count[f] == s.count[f]
  }

  /** One table level has been made sure of: entry i of page p now leads to child. */
  ghost predicate Ensured(s: State, s': State, p: nat, i: nat, child: nat, fl: Flags, t: Role) {
    && s'.Ok() && Extends(s, s')
    && p < |s.m| && i < ENTRIES && |s.m[p]| == ENTRIES
    && s'.m == Put(s.m, p, i, Word(child, fl))
    && RoleOf(s'.role, child) == t
    && Linking(s.m, s.role, p, i, child)
    && SameLeaves(s.m, s.role, s'.m)
    && s'.Avail() == s.Avail() - (if At(s.m, p, i).Present() then 0 else 1)
    && (At(s.m, p, i).Present() ==> SameFrames(s, s'))
  }

  /** No frame has changed hands. */
  predicate SameFrames(s: State, s': State) {
    s'.role == s.role && s'.pool == s.pool && s'.count == s.count
  }

  lemma LinkEnsures(s: State, p: nat, i: nat, child: nat, fl: Flags, t: Role, pool': Pool)
    requires s.Ok() && p < |s.role| && i < ENTRIES && fl.present
    requires Branch(RoleOf(s.role, p)) && Leads(RoleOf(s.role, p), i, t) && !At(s.m, p, i).Present()
    requires child in s.pool.managed && child !in s.pool.owned
    requires pool' == s.pool.Take() && s.pool.free != [] && child == s.pool.free[0] && s.pool.Count() >= MIN_PAGES
    requires !t.Free? && !Inert(t) && !t.L4?
    ensures child < |s.role| && |s.m[p]| == ENTRIES
    ensures Ensured(s, State(Put(s.m, p, i, Word(child, fl)), s.role[child := t], pool', s.count[child := 1]), p, i,
      child, fl, t)
  {
    LinkKeepsForest(s.m, s.role, p, i, child, fl, t);
    LinkGrows(s.m, s.role, p, i, child, fl, t);
    RolePut(s.role, child, t);
    TakeKeepsAscending(s.pool);
  }

  lemma ReflagEnsures(s: State, p: nat, i: nat, fl: Flags, t: Role)
    requires s.Ok() && p < |s.role| && i < ENTRIES && fl.present
    requires Branch(RoleOf(s.role, p)) && Leads(RoleOf(s.role, p), i, t) && At(s.m, p, i).Present()
    ensures |s.m[p]| == ENTRIES
    ensures var c := At(s.m, p, i).frame; Ensured(s, s.(m := Put(s.m, p, i, Word(c, fl))), p, i, c, fl, t)
  {
    ReflagKeepsForest(s.m, s.role, p, i, fl);
    ReflagGrows(s.m, s.role, p, i, fl);
  }

  lemma ExtendsTrans(s0: State, s1: State, s2: State)
    requires Extends(s0, s1) && Extends(s1, s2)
    ensures Extends(s0, s2)
  {
  }

  /** The page table of v exists and is pt; no translation has changed. */
  ghost predicate Descended(s: State, s': State, root: nat, v: VPage, pt: nat) {
    && s'.Ok() && Extends(s, s') && s'.Root(root)
    && pt == Pt(s'.m, root, v)
    && SameLeaves(s.m, s.role, s'.m)
    && s'.Avail() == s.Avail() - Missing(s.m, root, v)
    && (Missing(s.m, root, v) == 0 ==> SameFrames(s, s'))
  }

  /** Frames enough for the tables that v still lacks. */
  predicate Affords(s: State, root: nat, v: VPage) {
    Missing(s.m, root, v) == 0 || s.Avail() >= MIN_PAGES + Missing(s.m, root, v) - 1
  }

  lemma FirstLevel(s0: State, s1: State, root: nat, v: VPage, fl: Flags, pdpt: nat)
    requires s0.Ok() && s0.Root(root) && v.Ok() && fl.present && Affords(s0, root, v)
    requires Ensured(s0, s1, root, v.a, pdpt, fl, L3(Owner(root, v.a), v.a))
    ensures s1.Root(root) && Pdpt(s1.m, root, v) == pdpt && pdpt < |s1.role| && Missing(s1.m, root, v) <= 2
    ensures Affords(s1, root, v)
    ensures s1.Avail() - Missing(s1.m, root, v) == s0.Avail() - Missing(s0.m, root, v)
    ensures Missing(s0.m, root, v) == 0 ==> SameFrames(s0, s1) && Missing(s1.m, root, v) == 0
  {
    ReachPdpt(s0.m, s0.role, root, v, pdpt, fl);
  }

  lemma SecondLevel(s1: State, s2: State, root: nat, v: VPage, fl: Flags, pdpt: nat, pd: nat)
    requires s1.Ok() && s1.Root(root) && v.Ok() && fl.present && Affords(s1, root, v)
    requires Pdpt(s1.m, root, v) == pdpt && Missing(s1.m, root, v) <= 2
    requires Ensured(s1, s2, pdpt, v.b, pd, fl, L2(Owner(root, v.a), v.a, v.b))
    ensures s2.Root(root) && Pd(s2.m, root, v) == pd && pd < |s2.role| && Missing(s2.m, root, v) <= 1
    ensures Affords(s2, root, v)
    ensures s2.Avail() - Missing(s2.m, root, v) == s1.Avail() - Missing(s1.m, root, v)
    ensures Missing(s1.m, root, v) == 0 ==> SameFrames(s1, s2) && Missing(s2.m, root, v) == 0
  {
    ReachPd(s1.m, s1.role, root, v, pd, fl);
  }

  lemma ThirdLevel(s0: State, s1: State, s2: State, s3: State, root: nat, v: VPage, fl: Flags, pd: nat, pt: nat)
    requires s2.Ok() && s2.Root(root) && v.Ok() && fl.present
    requires Pd(s2.m, root, v) == pd && Missing(s2.m, root, v) <= 1
    requires s2.Avail() - Missing(s2.m, root, v) == s0.Avail() - Missing(s0.m, root, v)
    requires Missing(s0.m, root, v) == 0 ==> SameFrames(s0, s2) && Missing(s2.m, root, v) == 0
    requires Ensured(s2, s3, pd, v.c, pt, fl, L1(Owner(root, v.a), v.a, v.b, v.c))
    requires Extends(s0, s1) && SameLeaves(s0.m, s0.role, s1.m)
    requires Extends(s1, s2) && SameLeaves(s1.m, s1.role, s2.m)
    ensures Descended(s0, s3, root, v, pt)
  {
    ReachPt(s2.m, s2.role, root, v, pt, fl);
    ExtendsTrans(s0, s1, s2);
    ExtendsTrans(s0, s2, s3);
  }

  /** v below root now has leaf w, and so has v below every root that shares its page table;
      every other translation of every root is what it was. */
  ghost predicate Mapped(s: State, s': State, root: nat, v: VPage, w: Word) {
    && s'.Ok() && Extends(s, s')
    && Pt(s'.m, root, v) >= 0
    && (forall r: nat, x: VPage :: s.Root(r) ==>
          Leaf(s'.m, r, x) == if x == v && Pt(s'.m, r, v) == Pt(s'.m, root, v) then w else Leaf(s.m, r, x))
    && s'.Avail() == s.Avail() - Missing(s.m, root, v)
    && (Missing(s.m, root, v) == 0 ==> SameFrames(s, s'))
  }

  lemma WriteMaps(s: State, s1: State, root: nat, v: VPage, pt: nat, w: Word)
    requires s.Ok() && v.Ok() && Descended(s, s1, root, v, pt)
    requires w.Present() && (v.User() ==> RoleOf(s1.role, w.frame) == Data)
    ensures pt < |s1.m| && |s1.m[pt]| == ENTRIES
    ensures Mapped(s, s1.(m := Put(s1.m, pt, v.d, w)), root, v, w)
  {
    WalkRoles(s1.m, s1.role, root, v);
    LeafWriteEffect(s1.m, s1.role, root, v, w);
    LeafWriteKeepsForest(s1.m, s1.role, pt, v.d, w);
    GrownTrans(s.m, s.role, s1.m, s1.role, Put(s1.m, pt, v.d, w), s1.role);
  }

  /** Frame f, the lowest free one, has been taken into use as t. */
  ghost predicate Taken(s: State, s': State, f: nat, t: Role) {
    && s'.Ok() && f < |s.role| && f < |s.count|
    && RoleOf(s.role, f) == Free && f == s.pool.top - s.Avail()
    && s'.m == s.m && s'.role == s.role[f := t] && s'.count == s.count[f := 1]
    && s'.pool.top == s.pool.top && s'.Avail() == s.Avail() - 1
  }

  lemma TakeTakes(s: State, f: nat, t: Role)
    requires s.Ok() && s.Avail() >= MIN_PAGES && (t.Data? || t.Heap?)
    requires s.pool.free != [] && f == s.pool.free[0] && f in s.pool.managed && f !in s.pool.owned
    ensures f < |s.role|
    ensures Taken(s, State(s.m, s.role[f := t], s.pool.Take(), s.count[f := 1]), f, t)
  {
    ClaimKeepsForest(s.m, s.role, f, t);
    RolePut(s.role, f, t);
    TakeKeepsAscending(s.pool);
  }

  /** The leaf of v has been cleared, below root and below every root that shares its page table. */
  ghost predicate Erased(s: State, s': State, root: nat, v: VPage) {
    && s'.Ok() && SameFrames(s, s') && Grown(s.m, s.role, s'.m, s'.role)
    && (forall r: nat, x: VPage :: s.Root(r) ==>
          && Pt(s'.m, r, x) == Pt(s.m, r, x)
          && Leaf(s'.m, r, x) == if x == v && Pt(s.m, r, v) == Pt(s.m, root, v) then ZERO else Leaf(s.m, r, x))
  }

  lemma EraseErases(s: State, root: nat, v: VPage)
    requires s.Ok() && s.Root(root) && v.Ok()
    ensures Pt(s.m, root, v) < 0 ==> Erased(s, s, root, v)
    ensures Pt(s.m, root, v) >= 0 ==>
      && Pt(s.m, root, v) < |s.m| && |s.m[Pt(s.m, root, v)]| == ENTRIES
      && Erased(s, s.(m := Put(s.m, Pt(s.m, root, v), v.d, ZERO)), root, v)
  {
    if Pt(s.m, root, v) >= 0 {
      WalkRoles(s.m, s.role, root, v);
      LeafWriteEffect(s.m, s.role, root, v, ZERO);
      LeafWriteKeepsForest(s.m, s.role, Pt(s.m, root, v), v.d, ZERO);
    }
  }

  // ----- kfree --------------------------------------------------------------------------------

  /** A frame that is counted zero times and named by a leaf is named by a kernel leaf, and is free
      or reserved. */
  lemma GuardedFrame(s: State, root: nat, v: VPage)
    requires s.Ok() && s.Root(root) && v.Ok()
    ensures var g := Leaf(s.m, root, v).frame;
      g != 0 && g < |s.m| && s.count[g] == 0 ==>
        && (RoleOf(s.role, g).Free? || RoleOf(s.role, g).Reserved?)
        && !v.User() && Pt(s.m, root, v) >= 0
  {
    WalkRoles(s.m, s.role, root, v);
  }

  /** Of those two, the free ones are the ones on the list. */
  lemma FreeOrReserved(s: State, ds: seq<Descriptor>, head: int, max: nat, used: nat, g: nat)
    requires s.Ok() && Represents(ds, head, max, used, s.pool, s.count)
    ensures g in s.pool.free <==> RoleOf(s.role, g).Free?
  {
    ConservedMeans(s.pool);
  }

  /** What is left of memory after kfree has released the frame g behind page v: g is cleared, and v
      is unmapped in every space that reaches the same table. */
  ghost predicate Freed(s: State, m': Mem, root: nat, v: VPage) {
    var g, pt := Leaf(s.m, root, v).frame, Pt(s.m, root, v);
    g < |s.m| && 0 <= pt < |s.m| && |s.m[pt]| > v.d && g != pt && m' == Put(s.m[g := ZeroPage()], pt, v.d, ZERO)
  }

  /** Clearing a free or reserved frame leaves the walk and the invariant alone. */
  lemma ClearKeeps(s: State, root: nat, v: VPage, g: nat)
    requires s.Ok() && s.Root(root) && v.Ok() && g < |s.m| && (RoleOf(s.role, g).Free? || RoleOf(s.role, g).Reserved?)
    requires g == Leaf(s.m, root, v).frame && Pt(s.m, root, v) >= 0
    ensures var s', pt := s.(m := s.m[g := ZeroPage()]), Pt(s.m, root, v);
      g < |s.count| && s'.Ok() && Pt(s'.m, root, v) == pt < |s'.m| && v.d < |s'.m[pt]| &&
        Freed(s, Put(s'.m, pt, v.d, ZERO), root, v)
  {
    var m' := s.m[g := ZeroPage()];
    PagePutAt(s.m, g, ZeroPage(), m');
    WalkRoles(s.m, s.role, root, v);
  }

  /** Removing a mapping undoes making it, for every page of every space, if the page was unmapped
      before; the tables built on the way stay. */
  lemma RemoveUndoesMap(s: State, s1: State, s2: State, root: nat, v: VPage, w: Word)
    requires s.Ok() && s.Root(root) && Mapped(s, s1, root, v, w) && Erased(s1, s2, root, v)
    requires forall r: nat :: s.Root(r) && Pt(s1.m, r, v) == Pt(s1.m, root, v) ==> Leaf(s.m, r, v) == ZERO
    ensures SameLeaves(s.m, s.role, s2.m)
  {
    forall r: nat, x: VPage | s.Root(r) ensures Leaf(s2.m, r, x) == Leaf(s.m, r, x) {
      assert s1.Root(r);
    }
  }
}
