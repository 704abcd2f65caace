/**
 What the page tables mean for the processes: the user half of every live space, read off the
 tables, is a state of the copy-on-write machine of module Cow, and the paging operations are
 its events.
 */
module UserMemory {
  import opened PageTables
  import opened Frames
  import opened Mapping
  import opened CowFork
  import opened Addresses
  import opened KernelHalf
  import opened KernelHeap
  import C = Cow

  ghost predicate Live(s: State, live: set<nat>) {
    forall r :: r in live ==> s.Root(r)
  }

  /** The present user leaves of the live spaces. */
  ghost function Leaves(m: Mem, live: set<nat>): imap<C.Slot, Word> {
    imap at: C.Slot | at.space in live && at.page.User() &&
      Leaf(m, at.space, at.page).Present() :: Leaf(m, at.space, at.page)
  }

  ghost function DataPages(m: Mem, role: Roles): map<nat, Page>
    requires |m| == |role|
  {
    map f: nat | f < |role| && role[f] == Data :: m[f]
  }

  ghost function DataCounts(count: seq<nat>, role: Roles): map<nat, nat>
    requires |role| <= |count|
  {
    map f: nat | f < |role| && role[f] == Data :: count[f]
  }

  ghost function Abs(s: State, live: set<nat>): C.Vm
    requires s.Ok()
  {
    C.Vm(live, Leaves(s.m, live), DataPages(s.m, s.role), DataCounts(s.count, s.role))
  }

  lemma AbsLive(s: State, live: set<nat>)
    requires s.Ok()
    ensures Abs(s, live).live == live
  {
  }

  lemma AbsOk(s: State, live: set<nat>)
    requires s.Ok() && Live(s, live)
    ensures C.Ok(Abs(s, live))
  {
    hide Linked, FreeIsZero, Clean, Rooted, Leaf, Pool.Ascending;
    forall at | at in Leaves(s.m, live) ensures Leaf(s.m, at.space, at.page).frame in DataPages(s.m, s.role) {
      UserLeafData(s, live, at.space, at.page);
    }
  }

  /** A user page belongs to one space only. */
  lemma UserMapped(s: State, s': State, r: nat, v: VPage, w: Word)
    requires s.Ok() && s.Root(r) && v.User() && Mapped(s, s', r, v, w)
    ensures forall q: nat, x: VPage :: s.Root(q) ==> Leaf(s'.m, q, x) == if q == r && x == v then w else Leaf(s.m, q, x)
  {
    forall q: nat | s.Root(q) && Pt(s'.m, q, v) == Pt(s'.m, r, v) ensures q == r {
      WalkRoles(s'.m, s'.role, q, v);
      WalkRoles(s'.m, s'.role, r, v);
    }
  }

  /** Growing the tables neither makes nor alters data pages. */
  lemma ExtendsKeepsData(s: State, s': State)
    requires s.Ok() && s'.Ok() && Extends(s, s')
    ensures DataPages(s'.m, s'.role) == DataPages(s.m, s.role)
    ensures DataCounts(s'.count, s'.role) == DataCounts(s.count, s.role)
  {
    SameDataPages(s.m, s.role, s'.m, s'.role);
    SameDataCounts(s.count, s.role, s'.count, s'.role);
  }

  lemma TakenData(s: State, s': State, f: nat)
    requires s.Ok() && Taken(s, s', f, Data)
    ensures f !in DataPages(s.m, s.role)
    ensures DataPages(s'.m, s'.role) == DataPages(s.m, s.role)[f := ZeroPage()]
    ensures DataCounts(s'.count, s'.role) == DataCounts(s.count, s.role)[f := 1]
  {
    RolePut(s.role, f, Data);
    assert s.m[f] == ZeroPage() by {
      forall i: nat | i < ENTRIES ensures s.m[f][i] == ZERO { assert At(s.m, f, i) == ZERO; }
    }
  }

  lemma LeavesMapped(m: Mem, m': Mem, live: set<nat>, r: nat, v: VPage, w: Word)
    requires r in live && v.User() && w.Present()
    requires forall q: nat, x: VPage :: q in live ==> Leaf(m', q, x) == if q == r && x == v then w else Leaf(m, q, x)
    ensures Leaves(m', live) == Leaves(m, live)[C.Slot(r, v) := w]
  {
    hide Leaf;
    forall at: C.Slot | at.space in live ensures at in Leaves(m', live) <==> at in Leaves(m, live)[C.Slot(r, v) := w] {
      assert Leaf(m', at.space, at.page) == if at.space == r && at.page == v then w else Leaf(m, at.space, at.page);
    }
  }

  /** Mapping a fresh frame at a user page is the event MapFresh. */
  lemma MapFreshRefines(s: State, s1: State, s2: State, live: set<nat>, r: nat, v: VPage, f: nat)
    requires s.Ok() && Live(s, live) && r in live && v.User()
    requires Taken(s, s1, f, Data) && Mapped(s1, s2, r, v, Word(f, USER_RW))
    ensures var e := C.MapFresh(C.Slot(r, v), f);
      Live(s2, live) && C.Ok(Abs(s, live)) && C.Enabled(Abs(s, live), e) && Abs(s2, live) == C.Apply(Abs(s, live), e)
  {
    AbsOk(s, live);
    RolePut(s.role, f, Data);
    TakenData(s, s1, f);
    UserMapped(s1, s2, r, v, Word(f, USER_RW));
    ExtendsKeepsData(s1, s2);
    forall q: nat | s.Root(q) ensures s1.Root(q) && s2.Root(q) {}
    LeavesMapped(s.m, s2.m, live, r, v, Word(f, USER_RW));
  }

  /** Frames that hold data keep it. */
  lemma SameDataPages(m: Mem, role: Roles, m': Mem, role': Roles)
    requires |m| == |role| == |m'| == |role'| && Sized(m) && Sized(m')
    requires forall f: nat :: RoleOf(role', f) == Data <==> RoleOf(role, f) == Data
    requires forall f: nat, i: nat :: RoleOf(role, f) == Data ==> At(m', f, i) == At(m, f, i)
    ensures DataPages(m', role') == DataPages(m, role)
  {
    forall f: nat | f < |role| ensures role'[f] == Data <==> role[f] == Data {
      assert RoleOf(role', f) == role'[f] && RoleOf(role, f) == role[f];
    }
    forall f: nat | f < |role| && role[f] == Data ensures m'[f] == m[f] {
      assert RoleOf(role, f) == Data;
      forall i: nat | i < ENTRIES ensures m'[f][i] == m[f][i] {
        assert At(m', f, i) == At(m, f, i);
      }
    }
  }

  lemma SameDataCounts(count: seq<nat>, role: Roles, count': seq<nat>, role': Roles)
    requires |role| <= |count| && |role'| == |role| && |count'| == |count|
    requires forall f: nat :: RoleOf(role', f) == Data <==> RoleOf(role, f) == Data
    requires forall f: nat :: f < |count| && RoleOf(role, f) == Data ==> count'[f] == count[f]
    ensures DataCounts(count', role') == DataCounts(count, role)
  {
  }

  lemma SameUserLeaves(m: Mem, m': Mem, live: set<nat>, live': set<nat>)
    requires live <= live'
    requires forall r: nat, v: VPage :: r in live && v.User() ==> Leaf(m', r, v) == Leaf(m, r, v)
    requires forall r: nat, v: VPage :: r in live' && r !in live && v.User() ==> !Leaf(m', r, v).Present()
    ensures Leaves(m', live') == Leaves(m, live)
  {
    hide Leaf;
  }

  lemma ForkLeafMatches(m0: Mem, m: Mem, vm: C.Vm, p: nat, ch: nat, at: C.Slot)
    requires vm.leaf == Leaves(m0, vm.live) && p in vm.live && ch !in vm.live
    requires forall v: VPage :: v.User() ==>
      Leaf(m, p, v) == CowWord(Leaf(m0, p, v)) && Leaf(m, ch, v) == ChildWord(Leaf(m0, p, v))
    requires forall r: nat, v: VPage :: r in vm.live && r != p && v.User() ==> Leaf(m, r, v) == Leaf(m0, r, v)
    ensures at in Leaves(m, vm.live + {ch}) <==> C.Source(p, ch, at) in vm.leaf
    ensures at in Leaves(m, vm.live + {ch}) ==> Leaf(m, at.space, at.page) == C.ForkLeaf(vm, p, ch, at)
  {
    hide Leaf;
    var src := C.Source(p, ch, at);
    if at.space == ch {
      assert src == C.Slot(p, at.page);
    } else {
      assert src == at;
    }
  }

  lemma ForkLeavesMatch(m0: Mem, m: Mem, vm: C.Vm, p: nat, ch: nat)
    requires vm.leaf == Leaves(m0, vm.live) && p in vm.live && ch !in vm.live
    requires forall v: VPage :: v.User() ==>
      Leaf(m, p, v) == CowWord(Leaf(m0, p, v)) && Leaf(m, ch, v) == ChildWord(Leaf(m0, p, v))
    requires forall r: nat, v: VPage :: r in vm.live && r != p && v.User() ==> Leaf(m, r, v) == Leaf(m0, r, v)
    ensures Leaves(m, vm.live + {ch}) == C.ForkLeaves(vm, p, ch)
  {
    hide Leaf, C.ForkLeaf;
    var l, l' := C.ForkLeaves(vm, p, ch), Leaves(m, vm.live + {ch});
    forall at: C.Slot ensures (at in l' <==> at in l) && (at in l ==> l'[at] == l[at]) {
      ForkLeafMatches(m0, m, vm, p, ch, at);
    }
  }

  lemma ForkCountsMatch(s0: State, role: Roles, count: seq<nat>, live: set<nat>, p: nat)
    requires s0.Ok() && p in live && |role| == |s0.role| && |count| == |s0.count|
    requires forall f: nat :: RoleOf(role, f) == Data <==> RoleOf(s0.role, f) == Data
    requires forall f: nat :: f < |count| && RoleOf(s0.role, f) == Data ==>
      count[f] == if s0.count[f] == 1 && UserFrame(s0.m, p, f) then 2 else s0.count[f]
    ensures DataCounts(count, role) == C.ForkCounts(Abs(s0, live), p)
  {
    hide Forest;
    var vm := Abs(s0, live);
    var c, c' := C.ForkCounts(vm, p), DataCounts(count, role);
    forall f: nat ensures f in c' <==> f in c {
      assert RoleOf(role, f) == Data <==> RoleOf(s0.role, f) == Data;
    }
    forall f: nat | f in c ensures c'[f] == c[f] {
      assert RoleOf(s0.role, f) == Data;
      BacksMatches(s0, live, p, f);
    }
  }

  lemma BacksMatches(s: State, live: set<nat>, p: nat, f: nat)
    requires s.Ok() && p in live
    ensures UserFrame(s.m, p, f) <==> C.Backs(Abs(s, live), p, f)
  {
    if v: VPage :| v.User() && Leaf(s.m, p, v).Present() && Leaf(s.m, p, v).frame == f {
      assert C.Slot(p, v) in Leaves(s.m, live);
    }
  }

  /** cow_page_tables is the event Fork. */
  lemma ForkRefines(s0: State, s: State, live: set<nat>, p: nat, ch: nat)
    requires s0.Ok() && Live(s0, live) && p in live && Forked(s0, s, p, ch)
    ensures var e := C.Fork(p, ch);
      && Live(s, live + {ch}) && C.Ok(Abs(s0, live)) && C.Enabled(Abs(s0, live), e)
      && Abs(s, live + {ch}) == C.Apply(Abs(s0, live), e)
  {
    AbsOk(s0, live);
    assert ch !in live by { assert !s0.Root(ch); }
    ForkLeavesMatch(s0.m, s.m, Abs(s0, live), p, ch);
    ForkCountsMatch(s0, s.role, s.count, live, p);
    SameDataPages(s0.m, s0.role, s.m, s.role);
  }

  /** A new address space has no user pages yet. */
  lemma NewSpaceRefines(s0: State, s: State, live: set<nat>, p: nat, ch: nat)
    requires s0.Ok() && Live(s0, live) && NewSpace(s0, s, p, ch)
    ensures var e := C.NewSpace(ch);
      && Live(s, live + {ch}) && C.Ok(Abs(s0, live)) && C.Enabled(Abs(s0, live), e)
      && Abs(s, live + {ch}) == C.Apply(Abs(s0, live), e)
  {
    AbsOk(s0, live);
    assert ch !in live by { assert !s0.Root(ch); }
    RolePut(s0.role, ch, L4(ch));
    NewRootLeaves(s0.m, s0.role, ch, At(s0.m, p, KERNEL_SLOT));
    PutAt(s0.m, ch, KERNEL_SLOT, At(s0.m, p, KERNEL_SLOT));
    SameUserLeaves(s0.m, s.m, live, live + {ch});
    SameDataPages(s0.m, s0.role, s.m, s.role);
    SameDataCounts(s0.count, s0.role, s.count, s.role);
  }

  /** kmalloc is invisible to the processes. */
  lemma AllottedInvisible(s: State, s': State, live: set<nat>, base: nat, n: nat)
    requires s.Ok() && Live(s, live) && Allotted(s, s', base, n)
    ensures Live(s', live) && Abs(s', live) == Abs(s, live)
  {
    hide Leaf, Linked, FreeIsZero, Clean, Rooted, NoneLost, Pool.Ascending;
    forall r: nat, v: VPage | r in live && v.User() ensures Leaf(s'.m, r, v) == Leaf(s.m, r, v) {
      assert s.Root(r);
    }
    SameUserLeaves(s.m, s'.m, live, live);
    SameDataPages(s.m, s.role, s'.m, s'.role);
    SameDataCounts(s.count, s.role, s'.count, s'.role);
  }

  // ----- the two branches of the copy-on-write fault ---------------------------------------

  /** The heap frame f has received a copy of frame g and become a user page. */
  ghost predicate CopiedInto(s: State, s': State, f: nat, g: nat) {
    && s'.Ok() && RoleOf(s.role, f) == Heap && RoleOf(s.role, g) == Data
    && f < |s.m| && g < |s.m| && f < |s.role|
    && s' == State(s.m[f := s.m[g]], s.role[f := Data], s.pool, s.count)
    && SameLeaves(s.m, s.role, s'.m)
  }

  lemma CopyInto(s: State, f: nat, g: nat)
    requires s.Ok() && RoleOf(s.role, f) == Heap && RoleOf(s.role, g) == Data
    ensures f < |s.m| && g < |s.m|
    ensures CopiedInto(s, State(s.m[f := s.m[g]], s.role[f := Data], s.pool, s.count), f, g)
  {
    DataWriteKeepsForest(s.m, s.role, f, s.m[g]);
    DataWriteKeepsLeaves(s.m, s.role, f, s.m[g], s.m[f := s.m[g]]);
    ClaimKeepsForest(s.m[f := s.m[g]], s.role, f, Data);
    RolePut(s.role, f, Data);
  }

  lemma CopiedIntoData(s: State, s': State, f: nat, g: nat)
    requires s.Ok() && CopiedInto(s, s', f, g) && s.count[f] == 1
    ensures f !in DataPages(s.m, s.role) && g in DataPages(s.m, s.role)
    ensures DataPages(s'.m, s'.role) == DataPages(s.m, s.role)[f := DataPages(s.m, s.role)[g]]
    ensures DataCounts(s'.count, s'.role) == DataCounts(s.count, s.role)[f := 1]
  {
  }

  lemma Recounted(s: State, g: nat, c: nat)
    requires s.Ok() && RoleOf(s.role, g) == Data && c >= 1
    ensures g < |s.count| && s.(count := s.count[g := c]).Ok()
    ensures DataCounts(s.count[g := c], s.role) == DataCounts(s.count, s.role)[g := c]
  {
  }

  lemma UserLeafData(s: State, live: set<nat>, r: nat, v: VPage)
    requires s.Ok() && Live(s, live) && r in live && v.User() && Leaf(s.m, r, v).Present()
    ensures RoleOf(s.role, Leaf(s.m, r, v).frame) == Data && C.Slot(r, v) in Leaves(s.m, live)
    ensures |s.m| == |s.role| && Leaf(s.m, r, v).frame < |s.m| && |s.m[Leaf(s.m, r, v).frame]| == ENTRIES
  {
  }

  /** The count-2 branch: copy the page into a new frame, map that, and count the old one once. */
  lemma FaultCopyRefines(s0: State, s1: State, s2: State, s3: State, live: set<nat>, r: nat, v: VPage, f: nat, g: nat)
    requires s0.Ok() && Live(s0, live) && r in live && v.User()
    requires Leaf(s0.m, r, v).Present() && Leaf(s0.m, r, v).flags.cow && Leaf(s0.m, r, v).frame == g
    requires g < |s0.count| && s0.count[g] == 2
    requires Allotted(s0, s1, f, 1) && CopiedInto(s1, s2, f, g) && Mapped(s2, s3, r, v, Word(f, USER_RW))
    ensures g < |s3.count|
    ensures var s4, e := s3.(count := s3.count[g := 1]), C.WriteFault(C.Slot(r, v), f);
      && s4.Ok() && Live(s4, live) && C.Ok(Abs(s0, live)) && C.Enabled(Abs(s0, live), e)
      && Abs(s4, live) == C.Apply(Abs(s0, live), e)
  {
    AbsOk(s0, live);
    UserLeafData(s0, live, r, v);
    AllottedInvisible(s0, s1, live, f, 1);
    assert s1.count[f] == 1 && RoleOf(s1.role, g) == Data;
    CopiedIntoData(s1, s2, f, g);
    RolePut(s1.role, f, Data);
    FaultMaps(s1, s2, s3, live, r, v, f, g);
  }

  lemma FaultMaps(s1: State, s2: State, s3: State, live: set<nat>, r: nat, v: VPage, f: nat, g: nat)
    requires s1.Ok() && Live(s1, live) && r in live && v.User()
    requires CopiedInto(s1, s2, f, g) && Mapped(s2, s3, r, v, Word(f, USER_RW))
    ensures g < |s3.count|
    ensures var s4 := s3.(count := s3.count[g := 1]);
      && s4.Ok() && Live(s4, live)
      && Leaves(s4.m, live) == Leaves(s1.m, live)[C.Slot(r, v) := Word(f, USER_RW)]
      && DataPages(s4.m, s4.role) == DataPages(s2.m, s2.role)
      && DataCounts(s4.count, s4.role) == DataCounts(s2.count, s2.role)[g := 1]
  {
    RolePut(s1.role, f, Data);
    forall q: nat | s1.Root(q) ensures s2.Root(q) && s3.Root(q) {}
    UserMapped(s2, s3, r, v, Word(f, USER_RW));
    ExtendsKeepsData(s2, s3);
    LeavesMapped(s1.m, s3.m, live, r, v, Word(f, USER_RW));
    assert RoleOf(s3.role, g) == Data;
    Recounted(s3, g, 1);
  }

  lemma NotData(m: Mem, role: Roles, f: nat)
    requires |m| == |role| && RoleOf(role, f) != Data
    ensures f !in DataPages(m, role)
  {
  }

  lemma RemappedUser(s: State, s': State, live: set<nat>, r: nat, v: VPage, w: Word)
    requires s.Ok() && Live(s, live) && r in live && v.User() && w.Present() && Mapped(s, s', r, v, w)
    ensures Live(s', live)
    ensures var vm := Abs(s, live); Abs(s', live) == C.Vm(live, vm.leaf[C.Slot(r, v) := w], vm.data, vm.count)
  {
    UserMapped(s, s', r, v, w);
    LeavesMapped(s.m, s'.m, live, r, v, w);
    ExtendsKeepsData(s, s');
  }

  lemma FaultSeen(s: State, live: set<nat>, r: nat, v: VPage, f: nat)
    requires s.Ok() && Live(s, live) && r in live && v.User() && RoleOf(s.role, f) != Data
    requires Leaf(s.m, r, v).Present() && Leaf(s.m, r, v).frame < |s.count|
    ensures var vm, at := Abs(s, live), C.Slot(r, v);
      && C.Ok(vm) && at in vm.leaf && vm.leaf[at] == Leaf(s.m, r, v) && f !in vm.data
      && vm.leaf[at].frame in vm.count && vm.count[vm.leaf[at].frame] == s.count[vm.leaf[at].frame]
  {
    AbsOk(s, live);
    UserLeafData(s, live, r, v);
    NotData(s.m, s.role, f);
  }

  /** The count-1 branch: the page is writable again where it is. */
  lemma FaultOwnRefines(s: State, s': State, live: set<nat>, r: nat, v: VPage, f: nat)
    requires s.Ok() && Live(s, live) && r in live && v.User() && RoleOf(s.role, f) != Data
    requires Leaf(s.m, r, v).Present() && Leaf(s.m, r, v).flags.cow && Leaf(s.m, r, v).frame < |s.count|
    requires s.count[Leaf(s.m, r, v).frame] == 1
    requires Mapped(s, s', r, v, Word(Leaf(s.m, r, v).frame, USER_RW))
    ensures var e := C.WriteFault(C.Slot(r, v), f);
      && Live(s', live) && C.Ok(Abs(s, live)) && C.Enabled(Abs(s, live), e)
      && Abs(s', live) == C.Apply(Abs(s, live), e)
  {
    hide Mapped, Forest, Leaves, DataPages, DataCounts;
    FaultSeen(s, live, r, v, f);
    RemappedUser(s, s', live, r, v, Word(Leaf(s.m, r, v).frame, USER_RW));
    C.OwnFault(Abs(s, live), C.Slot(r, v), f);
  }

  lemma DataWritten(m: Mem, role: Roles, g: nat, page: Page)
    requires |m| == |role| && g < |m| && role[g] == Data
    ensures DataPages(m[g := page], role) == DataPages(m, role)[g := page]
  {
  }

  lemma StoreWrites(s: State, live: set<nat>, r: nat, v: VPage, i: nat, x: Word)
    requires s.Ok() && Live(s, live) && r in live && v.User() && i < ENTRIES && Leaf(s.m, r, v).Present()
    ensures var g := Leaf(s.m, r, v).frame;
      && RoleOf(s.role, g) == Data && g < |s.m| && |s.m[g]| == ENTRIES
      && var s' := s.(m := Put(s.m, g, i, x));
      && s'.Ok() && Live(s', live) && Leaves(s'.m, live) == Leaves(s.m, live)
      && DataPages(s'.m, s.role) == DataPages(s.m, s.role)[g := s.m[g][i := x]]
  {
    hide Forest, Leaf, Leaves, DataPages, Pool.Ascending;
    UserLeafData(s, live, r, v);
    var g := Leaf(s.m, r, v).frame;
    var page := s.m[g][i := x];
    var m' := s.m[g := page];
    DataWriteKeepsForest(s.m, s.role, g, page);
    DataWriteKeepsLeaves(s.m, s.role, g, page, m');
    SameUserLeaves(s.m, m', live, live);
    DataWritten(s.m, s.role, g, page);
    assert Put(s.m, g, i, x) == m';
  }

  /** A store through a writable leaf is the event Store. */
  lemma StoreRefines(s: State, live: set<nat>, r: nat, v: VPage, i: nat, x: Word)
    requires s.Ok() && Live(s, live) && r in live && v.User() && i < ENTRIES
    requires Leaf(s.m, r, v).Present() && Leaf(s.m, r, v).flags.writable
    ensures var g, e := Leaf(s.m, r, v).frame, C.Store(C.Slot(r, v), i, x);
      && RoleOf(s.role, g) == Data && g < |s.m| && |s.m[g]| == ENTRIES
      && var s' := s.(m := Put(s.m, g, i, x));
      && s'.Ok() && Live(s', live) && C.Ok(Abs(s, live)) && C.Enabled(Abs(s, live), e)
      && Abs(s', live) == C.Apply(Abs(s, live), e)
  {
    hide State.Ok, Live, Forest, Leaf, C.Ok, Put;
    AbsOk(s, live);
    StoreWrites(s, live, r, v, i, x);
    assert C.Slot(r, v) in Leaves(s.m, live);
  }

  /** A store by the kernel to a mapped user page is the event KernelStore. */
  lemma KernelStoreRefines(s: State, live: set<nat>, r: nat, v: VPage, i: nat, x: Word)
    requires s.Ok() && Live(s, live) && r in live && v.User() && i < ENTRIES && Leaf(s.m, r, v).Present()
    ensures var g, e := Leaf(s.m, r, v).frame, C.KernelStore(C.Slot(r, v), i, x);
      && RoleOf(s.role, g) == Data && g < |s.m| && |s.m[g]| == ENTRIES
      && var s' := s.(m := Put(s.m, g, i, x));
      && s'.Ok() && Live(s', live) && C.Ok(Abs(s, live)) && C.Enabled(Abs(s, live), e)
      && Abs(s', live) == C.Apply(Abs(s, live), e)
  {
    hide State.Ok, Live, Forest, Leaf, C.Ok, Put;
    AbsOk(s, live);
    StoreWrites(s, live, r, v, i, x);
    assert C.Slot(r, v) in Leaves(s.m, live);
  }

  // ----- the kernel half goes along ----------------------------------------------------------

  lemma MapFreshKeepsHalf(s: State, s1: State, s2: State, k: Half, r: nat, v: VPage, f: nat)
    requires s.Ok() && s.Root(r) && v.User() && Mapped511(s, k)
    requires Taken(s, s1, f, Data) && Mapped(s1, s2, r, v, Word(f, USER_RW))
    requires s.pool.top - (s.Avail() - 1 - Missing(s.m, r, v)) <= k.hi
    ensures Mapped511(s2, k) && Leaf(s2.m, r, v) == Word(f, USER_RW)
  {
    RolePut(s.role, f, Data);
    TakenKeepsHalf(s, s1, k, f, Data);
    MappingKeepsHalf(s1, s2, k, r, v, Word(f, USER_RW));
  }

  lemma MapFreshLosesNone(s: State, s1: State, s2: State, r: nat, v: VPage, f: nat)
    requires s.Root(r) && Taken(s, s1, f, Data) && Mapped(s1, s2, r, v, Word(f, USER_RW))
    ensures NoneLost(s.m, r, s2.m)
  {
    RolePut(s.role, f, Data);
    GrownLosesNone(s1.m, s1.role, s2.m, s2.role, r);
  }

  lemma CopyIntoKeepsHalf(s: State, s': State, k: Half, f: nat, g: nat)
    requires s.Ok() && Mapped511(s, k) && CopiedInto(s, s', f, g)
    ensures Mapped511(s', k)
  {
    RolePut(s.role, f, Data);
    forall x: nat | s'.Root(x) ensures s.Root(x) {}
    DataWriteKeepsLeaves(s.m, s.role, f, s.m[g], s'.m);
    hide Forest;
    SameTablesKeepHalf(s, s', k);
  }

  lemma FaultCopyKeepsHalf(s2: State, s3: State, k: Half, r: nat, v: VPage, f: nat, g: nat)
    requires s2.Ok() && s2.Root(r) && v.User() && Mapped511(s2, k)
    requires Mapped(s2, s3, r, v, Word(f, USER_RW)) && Missing(s2.m, r, v) == 0 && g < |s3.count|
    ensures Mapped511(s3.(count := s3.count[g := 1]), k)
  {
    MappingKeepsHalf(s2, s3, k, r, v, Word(f, USER_RW));
    hide Mapped, Forest;
    SameTablesKeepHalf(s3, s3.(count := s3.count[g := 1]), k);
  }

  lemma StoreKeepsHalf(s: State, k: Half, g: nat, i: nat, x: Word)
    requires s.Ok() && Mapped511(s, k) && RoleOf(s.role, g) == Data && i < ENTRIES
    ensures g < |s.m| && i < |s.m[g]| && Mapped511(s.(m := Put(s.m, g, i, x)), k)
  {
    var m' := Put(s.m, g, i, x);
    DataWriteKeepsLeaves(s.m, s.role, g, s.m[g][i := x], m');
    SameTablesKeepHalf(s, s.(m := m'), k);
  }

  lemma StoreLosesNone(s: State, r: nat, g: nat, i: nat, x: Word)
    requires s.Ok() && s.Root(r) && RoleOf(s.role, g) == Data && i < ENTRIES
    ensures g < |s.m| && i < |s.m[g]| && NoneLost(s.m, r, Put(s.m, g, i, x))
  {
    var m' := Put(s.m, g, i, x);
    PutAt(s.m, g, i, x);
    forall v: VPage ensures Missing(m', r, v) <= Missing(s.m, r, v) {
      WalkRoles(s.m, s.role, r, v);
    }
  }

  /** After kmalloc of one page: where it is, and that the faulting page is still in place. */
  lemma FrameForCopy(s0: State, s1: State, k: Half, live: set<nat>, r: nat, v: VPage, f: nat, g: nat)
    requires s0.Ok() && s1.Ok() && Live(s0, live) && r in live && v.User() && Mapped511(s0, k) && Mapped511(s1, k)
    requires Leaf(s0.m, r, v).Present() && Leaf(s0.m, r, v).frame == g && Allotted(s0, s1, f, 1)
    ensures PageOf(KERNEL_BASE + f * PAGE).Ok() && Leaf(s1.m, r, PageOf(KERNEL_BASE + f * PAGE)).frame == f
    ensures RoleOf(s1.role, f) == Heap && RoleOf(s1.role, g) == Data && s1.Root(r) &&
      Leaf(s1.m, r, v) == Leaf(s0.m, r, v)
    ensures f < |s1.m| && g < |s1.m| && g < |s1.count|
  {
    UserLeafData(s0, live, r, v);
    AllottedPage(s0, s1, f, r, v);
    AllottedSoFar(s0, s1, f, 1);
    hide Allotted, Leaf;
    assert k.lo <= f < k.hi;
    DirectLeaf(s1, k, r, f);
  }

  lemma FrameCopied(s1: State, s2: State, r: nat, v: VPage, f: nat, g: nat)
    requires s1.Ok() && s1.Root(r) && Leaf(s1.m, r, v).Present() && CopiedInto(s1, s2, f, g)
    ensures s2.Root(r) && RoleOf(s2.role, f) == Data && Missing(s2.m, r, v) == 0 && |s2.count| == |s1.count|
  {
  }

  /** In a sharing state the frame behind a copy-on-write leaf is counted once or twice. */
  lemma LeafOfSlot(s: State, live: set<nat>, r: nat, v: VPage)
    requires s.Ok() && C.Slot(r, v) in Abs(s, live).leaf
    ensures v.User() && Leaf(s.m, r, v).Present() && Abs(s, live).leaf[C.Slot(r, v)] == Leaf(s.m, r, v)
  {
  }

  /** A mapped page that cannot be written is marked copy-on-write. */
  lemma MarkedIff(s: State, live: set<nat>, r: nat, v: VPage)
    requires s.Ok() && Live(s, live) && r in live && v.User() && C.Counted(Abs(s, live))
    ensures Leaf(s.m, r, v).flags.cow <==> Leaf(s.m, r, v).Present() && !Leaf(s.m, r, v).flags.writable
  {
    var w := Leaf(s.m, r, v);
    if w.flags.cow {
      CowLeafCounted(s, live, r, v);
    }
    if w.Present() {
      UserLeafData(s, live, r, v);
      assert Abs(s, live).leaf[C.Slot(r, v)] == w;
    }
  }

  lemma CowLeafCounted(s: State, live: set<nat>, r: nat, v: VPage)
    requires s.Ok() && Live(s, live) && r in live && v.User() && Leaf(s.m, r, v).flags.cow
    requires C.Counted(Abs(s, live))
    ensures Leaf(s.m, r, v).Present() && Leaf(s.m, r, v).frame < |s.count|
    ensures s.count[Leaf(s.m, r, v).frame] in {1, 2}
    ensures RoleOf(s.role, Leaf(s.m, r, v).frame) == Data
  {
    WalkRoles(s.m, s.role, r, v);
    assert At(s.m, Pt(s.m, r, v), v.d).Present();
    UserLeafData(s, live, r, v);
    var at := C.Slot(r, v);
    assert Abs(s, live).leaf[at] == Leaf(s.m, r, v);
  }

  lemma OwnFaultKeepsHalf(s: State, s': State, k: Half, r: nat, v: VPage, w: Word)
    requires s.Ok() && s.Root(r) && v.User() && Mapped511(s, k) && Mapped(s, s', r, v, w) && Leaf(s.m, r, v).Present()
    ensures Mapped511(s', k)
  {
    MappingKeepsHalf(s, s', k, r, v, w);
  }

  /** A space whose process has been reaped is forgotten; its frames stay where they are. */
  lemma ExitRefines(s: State, live: set<nat>, r: nat)
    requires s.Ok() && Live(s, live) && r in live
    ensures Live(s, live - {r}) && C.Ok(Abs(s, live)) && C.Enabled(Abs(s, live), C.Exit(r))
    ensures Abs(s, live - {r}) == C.Apply(Abs(s, live), C.Exit(r))
  {
    hide State.Ok, Leaves, DataPages, DataCounts, C.WithoutSpace, C.Ok;
    AbsOk(s, live);
    ExitLeaves(s.m, live, r);
  }

  lemma ExitLeaves(m: Mem, live: set<nat>, r: nat)
    ensures Leaves(m, live - {r}) == C.WithoutSpace(Leaves(m, live), r)
  {
    hide Leaf;
  }
}
