/**
 The entries above the leaves.  The hardware lets ring 3 through to a page only if every entry on the
 way is present, writable and user; the paging code sees to that.
 */
module OpenPaths {
  import opened PageTables
  import opened Mapping
  import opened CowFork
  import opened Boot
  import opened UserMemory

  // ----- what update_page_tables writes ---------------------------------------------------------

  /** Entry i of page f is one of the three that lead to the page table of v. */
  predicate OnWay(m: Mem, root: nat, v: VPage, f: nat, i: nat) {
    (f == root && i == v.a) || (f == Pdpt(m, root, v) && i == v.b) || (f == Pd(m, root, v) && i == v.c)
  }

  /** The three entries on the way to v carry the flags fl; no other entry of any page has changed. */
  ghost predicate Wired(m: Mem, m': Mem, root: nat, v: VPage, fl: Flags) {
    var pdpt, pd, pt := Pdpt(m', root, v), Pd(m', root, v), Pt(m', root, v);
    && pt >= 0
    && At(m', root, v.a) == Word(pdpt, fl) && At(m', pdpt, v.b) == Word(pd, fl) && At(m', pd, v.c) == Word(pt, fl)
    && forall f: nat, i: nat :: !OnWay(m', root, v, f, i) ==> At(m', f, i) == At(m, f, i)
  }

  /** Exactly four entries are written: those three with the flags of w, and the leaf with w. */
  ghost predicate Written(m: Mem, m': Mem, root: nat, v: VPage, w: Word) {
    var pdpt, pd, pt := Pdpt(m', root, v), Pd(m', root, v), Pt(m', root, v);
    && pt >= 0
    && At(m', root, v.a) == Word(pdpt, w.flags) && At(m', pdpt, v.b) == Word(pd, w.flags)
    && At(m', pd, v.c) == Word(pt, w.flags) && At(m', pt, v.d) == w
    && forall f: nat, i: nat :: !OnWay(m', root, v, f, i) && !(f == pt && i == v.d) ==> At(m', f, i) == At(m, f, i)
  }

  lemma DescentWires(s0: State, s1: State, s2: State, s3: State, root: nat, v: VPage, fl: Flags, pdpt: nat, pd: nat,
      pt: nat)
    requires s0.Ok() && s0.Root(root) && v.Ok() && fl.present
    requires Ensured(s0, s1, root, v.a, pdpt, fl, L3(Owner(root, v.a), v.a))
    requires Ensured(s1, s2, pdpt, v.b, pd, fl, L2(Owner(root, v.a), v.a, v.b))
    requires Ensured(s2, s3, pd, v.c, pt, fl, L1(Owner(root, v.a), v.a, v.b, v.c))
    ensures Wired(s0.m, s3.m, root, v, fl)
  {
    hide Forest, SameLeaves;
    PutAt(s0.m, root, v.a, Word(pdpt, fl));
    PutAt(s1.m, pdpt, v.b, Word(pd, fl));
    PutAt(s2.m, pd, v.c, Word(pt, fl));
    assert RoleOf(s2.role, root) == L4(root) && RoleOf(s2.role, pdpt) == RoleOf(s1.role, pdpt);
    assert root != pdpt && root != pd && pdpt != pd;
  }

  lemma LeafWrites(s: State, m1: Mem, role: Roles, root: nat, v: VPage, w: Word)
    requires Forest(m1, role) && IsRoot(role, root) && v.Ok() && Wired(s.m, m1, root, v, w.flags)
    ensures Pt(m1, root, v) < |m1| && Written(s.m, Put(m1, Pt(m1, root, v), v.d, w), root, v, w)
  {
    WalkRoles(m1, role, root, v);
    PutAt(m1, Pt(m1, root, v), v.d, w);
  }

  // ----- the invariant ------------------------------------------------------------------------

  /** What a present entry of a table may say: upper entries of user tables are exactly 7, leaves have
      the user bit. */
  predicate EntryOpen(t: Role, i: nat, fl: Flags) {
    match t
    case L4(_) => i != KERNEL_SLOT ==> fl == USER_RW
    case L3(s, _) => s != KERNEL ==> fl == USER_RW
    case L2(s, _, _) => s != KERNEL ==> fl == USER_RW
    case L1(s, _, _, _) => s != KERNEL ==> fl.user
    case _ => true
  }

  ghost predicate Open(m: Mem, role: Roles) {
    forall f: nat, i: nat :: At(m, f, i).Present() ==> EntryOpen(RoleOf(role, f), i, At(m, f, i).flags)
  }

  /** The way to every user page that has a page table is open, and so is the page, but for writing. */
  lemma PathOpen(m: Mem, role: Roles, r: nat, v: VPage)
    requires Forest(m, role) && Open(m, role) && IsRoot(role, r) && v.User() && Pt(m, r, v) >= 0
    ensures At(m, r, v.a).flags == At(m, Pdpt(m, r, v), v.b).flags == At(m, Pd(m, r, v), v.c).flags == USER_RW
    ensures Leaf(m, r, v).Present() ==> Leaf(m, r, v).flags.user
  {
    WalkRoles(m, role, r, v);
  }

  /** So after fork the child's entries on the way to a page carry the same flags as its parent's. */
  lemma SameWay(m: Mem, role: Roles, p: nat, ch: nat, v: VPage)
    requires Forest(m, role) && Open(m, role) && IsRoot(role, p) && IsRoot(role, ch) && v.User()
    requires Pt(m, p, v) >= 0 && Pt(m, ch, v) >= 0
    ensures At(m, ch, v.a).flags == At(m, p, v.a).flags
    ensures At(m, Pdpt(m, ch, v), v.b).flags == At(m, Pdpt(m, p, v), v.b).flags
    ensures At(m, Pd(m, ch, v), v.c).flags == At(m, Pd(m, p, v), v.c).flags
  {
    PathOpen(m, role, p, v);
    PathOpen(m, role, ch, v);
  }

  /** Mapping a user page read-write, or any kernel page, keeps all ways open. */
  lemma MapKeepsOpen(s: State, s': State, root: nat, v: VPage, w: Word)
    requires s.Ok() && s.Root(root) && v.Ok() && Mapped(s, s', root, v, w) && Written(s.m, s'.m, root, v, w)
    requires Open(s.m, s.role) && (v.User() ==> w.flags == USER_RW)
    ensures Open(s'.m, s'.role)
  {
    WalkRoles(s'.m, s'.role, root, v);
    forall f: nat, i: nat | At(s'.m, f, i).Present() ensures EntryOpen(RoleOf(s'.role, f), i, At(s'.m, f, i).flags) {
      if !OnWay(s'.m, root, v, f, i) && !(f == Pt(s'.m, root, v) && i == v.d) {
        assert At(s'.m, f, i) == At(s.m, f, i);
        assert RoleOf(s.role, f) != Free;
      }
    }
  }

  lemma TakenKeepsOpen(s: State, s': State, f: nat, t: Role)
    requires s.Ok() && Taken(s, s', f, t) && (t.Data? || t.Heap?) && Open(s.m, s.role)
    ensures Open(s'.m, s'.role)
  {
    RolePut(s.role, f, t);
  }

  /** A new table below an entry of a user table, with the flags of an open entry. */
  lemma LinkKeepsOpen(s: State, s': State, p: nat, i: nat, child: nat, fl: Flags, t: Role)
    requires s.Ok() && Ensured(s, s', p, i, child, fl, t) && Branch(RoleOf(s.role, p)) && fl == USER_RW
    requires Open(s.m, s.role)
    ensures Open(s'.m, s'.role)
  {
    PutAt(s.m, p, i, Word(child, fl));
    forall f: nat, j: nat | At(s'.m, f, j).Present() ensures EntryOpen(RoleOf(s'.role, f), j, At(s'.m, f, j).flags) {
      if f != p || j != i {
        assert At(s'.m, f, j) == At(s.m, f, j) && RoleOf(s.role, f) != Free;
      }
    }
  }

  /** Sharing a page table takes the write bit from its leaves and nothing else. */
  lemma TableCopyKeepsOpen(s: State, ppt: nat, cpt: nat, p: nat, ch: nat, a: nat, b: nat, c: nat)
    requires s.Ok() && Open(s.m, s.role)
    requires RoleOf(s.role, ppt) == L1(p, a, b, c) && RoleOf(s.role, cpt) == L1(ch, a, b, c)
    ensures ppt < |s.m| && cpt < |s.m|
    ensures Open(WithTableCopied(s, ppt, cpt).m, s.role)
  {
    var page := s.m[ppt];
    var m1 := s.m[ppt := CowPage(page)];
    var m2 := m1[cpt := ChildPage(page)];
    PagePutAt(s.m, ppt, CowPage(page), m1);
    PagePutAt(m1, cpt, ChildPage(page), m2);
    forall f: nat, i: nat | At(m2, f, i).Present() ensures EntryOpen(RoleOf(s.role, f), i, At(m2, f, i).flags) {
      if f == cpt || f == ppt {
        assert i < ENTRIES && At(s.m, ppt, i) == page[i];
      } else {
        assert At(m2, f, i) == At(m1, f, i) == At(s.m, f, i);
      }
    }
  }

  /** Fork's new table hangs below an entry with the flags of the parent's. */
  lemma CopiedLinkKeepsOpen(s: State, s': State, pp: nat, cp: nat, i: nat, child: nat, t: Role)
    requires s.Ok() && At(s.m, pp, i).Present() && Ensured(s, s', cp, i, child, At(s.m, pp, i).flags, t)
    requires Branch(RoleOf(s.role, pp)) && Branch(RoleOf(s.role, cp))
    requires RoleOf(s.role, pp).L4? ==> i != KERNEL_SLOT
    requires !RoleOf(s.role, pp).L4? ==> RoleOf(s.role, pp).space != KERNEL
    ensures Open(s.m, s.role) ==> Open(s'.m, s'.role)
  {
    if Open(s.m, s.role) {
      LinkKeepsOpen(s, s', cp, i, child, USER_RW, t);
    }
  }

  lemma TableSlotKeepsOpen(s0: State, s: State, s1: State, p: nat, ch: nat, a: nat, b: nat, k: nat, ppd: nat, cpd: nat,
      cpt: nat)
    requires s.Ok() && AtTable(s0, s, p, ch, a, b, k, ppd, cpd) && k < ENTRIES && At(s0.m, ppd, k).Present()
    requires Ensured(s, s1, cpd, k, cpt, At(s0.m, ppd, k).flags, L1(ch, a, b, k))
    ensures var ppt := At(s0.m, ppd, k).frame;
      ppt < |s1.m| && cpt < |s1.m| && (Open(s.m, s.role) ==> Open(WithTableCopied(s1, ppt, cpt).m, s1.role))
  {
    hide Open, Forest;
    TableRoles(s0, s, p, ch, a, b, k, ppd, cpd);
    TableReady(s0, s, s1, p, ch, a, b, k, ppd, cpd, cpt);
    TableDone(s0, s, s1, p, ch, a, b, k, ppd, cpd, cpt);
    CopiedLinkKeepsOpen(s, s1, ppd, cpd, k, cpt, L1(ch, a, b, k));
    if Open(s.m, s.role) {
      TableCopyKeepsOpen(s1, At(s0.m, ppd, k).frame, cpt, p, ch, a, b, k);
    }
  }

  lemma NewSpaceKeepsOpen(s0: State, s: State, p: nat, ch: nat)
    requires s0.Ok() && NewSpace(s0, s, p, ch) && Open(s0.m, s0.role)
    ensures Open(s.m, s.role)
  {
    RolePut(s0.role, ch, L4(ch));
    PutAt(s0.m, ch, KERNEL_SLOT, At(s0.m, p, KERNEL_SLOT));
    forall f: nat, i: nat | At(s.m, f, i).Present() ensures EntryOpen(RoleOf(s.role, f), i, At(s.m, f, i).flags) {
      assert f == ch ==> i == KERNEL_SLOT;
    }
  }

  lemma CopiedKeepsOpen(s: State, s': State, f: nat, g: nat)
    requires s.Ok() && CopiedInto(s, s', f, g) && Open(s.m, s.role)
    ensures Open(s'.m, s'.role)
  {
    RolePut(s.role, f, Data);
    PagePutAt(s.m, f, s.m[g], s'.m);
  }

  lemma StoreKeepsOpen(s: State, g: nat, i: nat, x: Word)
    requires s.Ok() && Open(s.m, s.role) && RoleOf(s.role, g) == Data && i < ENTRIES
    ensures g < |s.m| && i < |s.m[g]| && Open(Put(s.m, g, i, x), s.role)
  {
    PutAt(s.m, g, i, x);
  }

  /** The first root is empty. */
  lemma BootRootOpen(s: State, first: nat, n: nat)
    requires s.Ok() && s.role == BootRoles(first, n) && first < n
    ensures Open(s.m, s.role[first := L4(first)])
  {
    RolePut(s.role, first, L4(first));
    assert RoleOf(s.role, first) == Free;
  }

  // ----- the hardware's question ----------------------------------------------------------------

  predicate RingThree(w: Word) { w.Present() && w.flags.writable && w.flags.user }

  /** Ring 3 may write v below r: each of the four entries says so. */
  predicate Permitted(m: Mem, r: nat, v: VPage) {
    && RingThree(At(m, r, v.a))
    && Pdpt(m, r, v) >= 0 && RingThree(At(m, Pdpt(m, r, v), v.b))
    && Pd(m, r, v) >= 0 && RingThree(At(m, Pd(m, r, v), v.c))
    && Pt(m, r, v) >= 0 && RingThree(At(m, Pt(m, r, v), v.d))
  }

  /** Where all ways are open the leaf alone decides. */
  lemma LeafDecides(m: Mem, role: Roles, r: nat, v: VPage)
    requires Forest(m, role) && Open(m, role) && IsRoot(role, r) && v.User()
    ensures Permitted(m, r, v) <==> Leaf(m, r, v).Present() && Leaf(m, r, v).flags.writable
  {
    if Pt(m, r, v) >= 0 {
      PathOpen(m, role, r, v);
    }
  }
}
