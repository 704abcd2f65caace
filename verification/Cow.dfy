/**
 Copy-on-write memory, one level up from the page tables: which user pages are mapped to
 which frames, what the frames hold, and how often they are counted.  The reference is a
 machine that copies every page at fork; the question is when the two look the same to
 the processes.
 */
module Cow {
  import opened PageTables

  /** A user page of an address space. */
  datatype Slot = Slot(space: nat, page: VPage)

  datatype Vm = Vm(live: set<nat>, leaf: imap<Slot, Word>, data: map<nat, Page>, count: map<nat, nat>)

  datatype Event =
    | NewSpace(space: nat)
    | MapFresh(at: Slot, frame: nat)
    | Fork(parent: nat, child: nat)
    | WriteFault(at: Slot, frame: nat)
    | Store(at: Slot, index: nat, value: Word)
    | KernelStore(at: Slot, index: nat, value: Word)  // from ring 0, where the write bit is not looked at
    | Exit(space: nat)

  // ----- the machine ----------------------------------------------------------------------

  /** f backs a page of space r. */
  ghost predicate Backs(vm: Vm, r: nat, f: nat) {
    exists s :: s in vm.leaf && s.space == r && vm.leaf[s].frame == f
  }

  ghost predicate Enabled(vm: Vm, e: Event) {
    match e
    case NewSpace(r) => r !in vm.live
    case MapFresh(s, f) => s.space in vm.live && f !in vm.data
    case Fork(p, c) => p in vm.live && c !in vm.live
    case WriteFault(s, f) => s in vm.leaf && vm.leaf[s].flags.cow && f !in vm.data
    case Store(s, i, _) => s in vm.leaf && vm.leaf[s].flags.writable && i < ENTRIES
    case KernelStore(s, i, _) => s in vm.leaf && i < ENTRIES
    case Exit(r) => r in vm.live
  }

  /** The slot whose page s continues after p has been forked into c. */
  function Source(p: nat, c: nat, s: Slot): Slot {
    if s.space == c then Slot(p, s.page) else s
  }

  ghost function ForkLeaf(vm: Vm, p: nat, c: nat, s: Slot): Word
    requires Source(p, c, s) in vm.leaf
  {
    var t := Source(p, c, s);
    if t.space == p then CowMarked(vm.leaf[t]) else vm.leaf[t]
  }

  ghost function ForkLeaves(vm: Vm, p: nat, c: nat): imap<Slot, Word> {
    imap s: Slot | Source(p, c, s) in vm.leaf :: ForkLeaf(vm, p, c, s)
  }

  ghost function ForkCounts(vm: Vm, p: nat): map<nat, nat> {
    map f | f in vm.count :: if vm.count[f] == 1 && Backs(vm, p, f) then 2 else vm.count[f]
  }

  ghost function WithoutSpace(leaf: imap<Slot, Word>, r: nat): imap<Slot, Word> {
    imap s: Slot | s in leaf && s.space != r :: leaf[s]
  }

  ghost function Written(vm: Vm, s: Slot, i: nat, x: Word): Vm
    requires Ok(vm) && s in vm.leaf && i < ENTRIES
  {
    var g := vm.leaf[s].frame;
    Vm(vm.live, vm.leaf, vm.data[g := vm.data[g][i := x]], vm.count)
  }

  ghost function Apply(vm: Vm, e: Event): Vm
    requires Ok(vm) && Enabled(vm, e)
  {
    match e
    case NewSpace(r) => Vm(vm.live + {r}, vm.leaf, vm.data, vm.count)
    case MapFresh(s, f) => Vm(vm.live, vm.leaf[s := Word(f, USER_RW)], vm.data[f := ZeroPage()], vm.count[f := 1])
    case Fork(p, c) => Vm(vm.live + {c}, ForkLeaves(vm, p, c), vm.data, ForkCounts(vm, p))
    case WriteFault(s, f) =>
      var g := vm.leaf[s].frame;
      if vm.count[g] == 2 then
        Vm(vm.live, vm.leaf[s := Word(f, USER_RW)], vm.data[f := vm.data[g]], vm.count[f := 1][g := 1])
      else if vm.count[g] == 1 then
        Vm(vm.live, vm.leaf[s := Word(g, USER_RW)], vm.data, vm.count)
      else vm
    case Store(s, i, x) => Written(vm, s, i, x)
    case KernelStore(s, i, x) => Written(vm, s, i, x)
    case Exit(r) => Vm(vm.live - {r}, WithoutSpace(vm.leaf, r), vm.data, vm.count)
  }

  /** Every mapped page belongs to a live space and is backed by a frame the machine knows. */
  ghost predicate Ok(vm: Vm) {
    && vm.count.Keys == vm.data.Keys
    && (forall f :: f in vm.data ==> |vm.data[f]| == ENTRIES)
    && (forall s :: s in vm.leaf ==> s.space in vm.live && vm.leaf[s].frame in vm.data)
  }

  // ----- the sharing invariant --------------------------------------------------------------

  ghost predicate SameFrame(vm: Vm, s: Slot, t: Slot) {
    s in vm.leaf && t in vm.leaf && vm.leaf[s].frame == vm.leaf[t].frame
  }

  /** Frames are counted once or twice; a page is either writable or marked copy-on-write, and
      writable only where its frame is counted once. */
  ghost predicate Counted(vm: Vm) {
    forall s :: s in vm.leaf ==>
      && vm.leaf[s].frame in vm.count && vm.count[vm.leaf[s].frame] in {1, 2}
      && (vm.leaf[s].flags.cow <==> !vm.leaf[s].flags.writable)
      && (vm.leaf[s].flags.writable ==> vm.count[vm.leaf[s].frame] == 1)
  }

  /** No frame is mapped more often than it is counted. */
  ghost predicate Exclusive(vm: Vm) {
    && (forall s, t ::
          SameFrame(vm, s, t) && vm.leaf[s].frame in vm.count && vm.count[vm.leaf[s].frame] == 1 ==> s == t)
    && (forall s, t, u :: SameFrame(vm, s, t) && SameFrame(vm, t, u) ==> s == t || t == u || s == u)
  }

  ghost predicate Sharing(vm: Vm) {
    Ok(vm) && Counted(vm) && Exclusive(vm)
  }

  /** No page of space p shares its frame with any other mapped page. */
  ghost predicate Unshared(vm: Vm, p: nat) {
    forall s, t :: SameFrame(vm, s, t) && s.space == p ==> s == t
  }

  /** No other page has the frame of s. */
  ghost predicate Alone(vm: Vm, s: Slot) {
    forall t :: SameFrame(vm, s, t) ==> t == s
  }

  /** The events that copy-on-write is up to; see ForkSafeIff and KernelStoreSafeIff. */
  ghost predicate Good(vm: Vm, e: Event) {
    && (e.Fork? ==> Unshared(vm, e.parent))
    && (e.KernelStore? ==> Alone(vm, e.at))
  }

  // ----- the eager reference ----------------------------------------------------------------

  type View = imap<Slot, Page>

  ghost function ViewOf(vm: Vm): View
    requires Ok(vm)
  {
    imap s: Slot | s in vm.leaf :: vm.data[vm.leaf[s].frame]
  }

  ghost function Overwritten(v: View, s: Slot, i: nat, x: Word): View {
    if s in v && i < |v[s]| then v[s := v[s][i := x]] else v
  }

  /** What a machine without sharing does: fork copies, faults do nothing. */
  ghost function Eager(v: View, e: Event): View
  {
    match e
    case NewSpace(_) => v
    case MapFresh(s, _) => v[s := ZeroPage()]
    case Fork(p, c) => imap s: Slot | Source(p, c, s) in v :: v[Source(p, c, s)]
    case WriteFault(_, _) => v
    case Store(s, i, x) => Overwritten(v, s, i, x)
    case KernelStore(s, i, x) => Overwritten(v, s, i, x)
    case Exit(r) => imap s: Slot | s in v && s.space != r :: v[s]
  }

  lemma StepKeepsOk(vm: Vm, e: Event)
    requires Ok(vm) && Enabled(vm, e)
    ensures Ok(Apply(vm, e))
  {
  }

  lemma ForkSameFrame(vm: Vm, p: nat, c: nat, s: Slot, t: Slot)
    requires Ok(vm) && Enabled(vm, Fork(p, c))
    ensures SameFrame(Apply(vm, Fork(p, c)), s, t) <==> SameFrame(vm, Source(p, c, s), Source(p, c, t))
  {
  }

  /** The pages of parent and child end up with count 2, all others keep theirs. */
  lemma ForkCount(vm: Vm, p: nat, c: nat, s: Slot)
    requires Sharing(vm) && Enabled(vm, Fork(p, c)) && Source(p, c, s) in vm.leaf
    ensures var vm', t := Apply(vm, Fork(p, c)), Source(p, c, s);
      && s in vm'.leaf && vm'.leaf[s].frame == vm.leaf[t].frame && vm'.leaf[s].frame in vm'.count
      && (t.space == p ==> vm'.count[vm'.leaf[s].frame] == 2)
      && (vm'.count[vm'.leaf[s].frame] == 1 ==> vm.count[vm.leaf[t].frame] == 1)
      && vm'.count[vm'.leaf[s].frame] in {1, 2}
  {
  }

  lemma ForkPairs(vm: Vm, p: nat, c: nat, s: Slot, t: Slot)
    requires Sharing(vm) && Enabled(vm, Fork(p, c))
    requires var vm' := Apply(vm, Fork(p, c));
      SameFrame(vm', s, t) && vm'.leaf[s].frame in vm'.count && vm'.count[vm'.leaf[s].frame] == 1
    ensures s == t
  {
    ForkCount(vm, p, c, s);
    ForkCount(vm, p, c, t);
    ForkSameFrame(vm, p, c, s, t);
  }

  lemma ForkTriples(vm: Vm, p: nat, c: nat, s: Slot, t: Slot, u: Slot)
    requires Sharing(vm) && Enabled(vm, Fork(p, c)) && Unshared(vm, p)
    requires SameFrame(Apply(vm, Fork(p, c)), s, t) && SameFrame(Apply(vm, Fork(p, c)), t, u)
    ensures s == t || t == u || s == u
  {
    ForkSameFrame(vm, p, c, s, t);
    ForkSameFrame(vm, p, c, t, u);
    var x, y, z := Source(p, c, s), Source(p, c, t), Source(p, c, u);
    assert SameFrame(vm, y, x) && SameFrame(vm, z, y);
  }

  lemma ForkCounted(vm: Vm, p: nat, c: nat)
    requires Sharing(vm) && Enabled(vm, Fork(p, c))
    ensures Counted(Apply(vm, Fork(p, c)))
  {
    var vm' := Apply(vm, Fork(p, c));
    forall s | s in vm'.leaf
      ensures vm'.leaf[s].frame in vm'.count && vm'.count[vm'.leaf[s].frame] in {1, 2}
      ensures vm'.leaf[s].flags.cow <==> !vm'.leaf[s].flags.writable
      ensures vm'.leaf[s].flags.writable ==> vm'.count[vm'.leaf[s].frame] == 1
    {
      ForkCount(vm, p, c, s);
      var t := Source(p, c, s);
      if x :| x in vm.leaf && x.space == p && vm.leaf[x].frame == vm.leaf[t].frame {
        assert SameFrame(vm, t, x);
      }
    }
  }

  lemma ForkKeepsSharing(vm: Vm, p: nat, c: nat)
    requires Sharing(vm) && Enabled(vm, Fork(p, c)) && Unshared(vm, p)
    ensures Sharing(Apply(vm, Fork(p, c)))
  {
    var vm' := Apply(vm, Fork(p, c));
    StepKeepsOk(vm, Fork(p, c));
    ForkCounted(vm, p, c);
    forall s, t, u | SameFrame(vm', s, t) && SameFrame(vm', t, u) ensures s == t || t == u || s == u {
      ForkTriples(vm, p, c, s, t, u);
    }
    forall s, t | SameFrame(vm', s, t) && vm'.leaf[s].frame in vm'.count && vm'.count[vm'.leaf[s].frame] == 1
      ensures s == t
    {
      ForkPairs(vm, p, c, s, t);
    }
  }

  lemma ShrinkKeepsSharing(vm: Vm, vm': Vm)
    requires Sharing(vm) && Ok(vm') && vm'.count == vm.count
    requires forall s :: s in vm'.leaf ==> s in vm.leaf && vm'.leaf[s] == vm.leaf[s]
    ensures Sharing(vm')
  {
    assert forall s, t :: SameFrame(vm', s, t) ==> SameFrame(vm, s, t);
  }

  lemma MapKeepsSharing(vm: Vm, at: Slot, f: nat)
    requires Sharing(vm) && Enabled(vm, MapFresh(at, f))
    ensures Sharing(Apply(vm, MapFresh(at, f)))
  {
    var vm' := Apply(vm, MapFresh(at, f));
    assert forall s, t :: SameFrame(vm', s, t) ==> s == t == at || SameFrame(vm, s, t);
  }

  lemma FaultKeepsSharing(vm: Vm, at: Slot, f: nat)
    requires Sharing(vm) && Enabled(vm, WriteFault(at, f))
    ensures Sharing(Apply(vm, WriteFault(at, f)))
  {
    var vm' := Apply(vm, WriteFault(at, f));
    if vm.count[vm.leaf[at].frame] == 2 {
      CopyKeepsSharing(vm, at, f);
    } else {
      assert forall s, t :: SameFrame(vm', s, t) ==> SameFrame(vm, s, t);
    }
  }

  lemma CopyKeepsSharing(vm: Vm, at: Slot, f: nat)
    requires Sharing(vm) && Enabled(vm, WriteFault(at, f)) && vm.count[vm.leaf[at].frame] == 2
    ensures Sharing(Apply(vm, WriteFault(at, f)))
  {
    var vm' := Apply(vm, WriteFault(at, f));
    var g := vm.leaf[at].frame;
    forall s, t | SameFrame(vm', s, t) ensures s == t == at || (SameFrame(vm, s, t) && s != at && t != at) {}
    forall s, t | SameFrame(vm', s, t) && s != t ensures vm'.leaf[s].frame != g {
      if vm'.leaf[s].frame == g {
        assert SameFrame(vm, s, at) && SameFrame(vm, at, t);
      }
    }
  }

  /** Every step of the machine keeps the sharing invariant, forks of a space with a shared page
      excepted. */
  lemma StepKeepsSharing(vm: Vm, e: Event)
    requires Sharing(vm) && Enabled(vm, e) && Good(vm, e)
    ensures Sharing(Apply(vm, e))
  {
    StepKeepsOk(vm, e);
    match e
    case NewSpace(_) => ShrinkKeepsSharing(vm, Apply(vm, e));
    case Store(_, _, _) => ShrinkKeepsSharing(vm, Apply(vm, e));
    case KernelStore(_, _, _) => ShrinkKeepsSharing(vm, Apply(vm, e));
    case Exit(_) => ShrinkKeepsSharing(vm, Apply(vm, e));
    case MapFresh(at, f) => MapKeepsSharing(vm, at, f);
    case WriteFault(at, f) => FaultKeepsSharing(vm, at, f);
    case Fork(p, c) => ForkKeepsSharing(vm, p, c);
  }

  /** Fork keeps the invariant exactly when no page of the parent is shared. */
  lemma ForkKeepsSharingIff(vm: Vm, p: nat, c: nat)
    requires Sharing(vm) && Enabled(vm, Fork(p, c))
    ensures Sharing(Apply(vm, Fork(p, c))) <==> Unshared(vm, p)
  {
    if Unshared(vm, p) {
      ForkKeepsSharing(vm, p, c);
    } else {
      var s, t :| SameFrame(vm, s, t) && s.space == p && s != t;
      var u := Slot(c, s.page);
      ForkSameFrame(vm, p, c, s, t);
      ForkSameFrame(vm, p, c, u, s);
      assert !Exclusive(Apply(vm, Fork(p, c)));
    }
  }

  // ----- refinement -------------------------------------------------------------------------

  lemma WrittenRefines(vm: Vm, at: Slot, i: nat, x: Word)
    requires Ok(vm) && at in vm.leaf && i < ENTRIES && Alone(vm, at)
    ensures Ok(Written(vm, at, i, x)) && ViewOf(Written(vm, at, i, x)) == Overwritten(ViewOf(vm), at, i, x)
  {
    var vm' := Written(vm, at, i, x);
    forall s | s in vm.leaf && s != at ensures vm'.data[vm'.leaf[s].frame] == vm.data[vm.leaf[s].frame] {
      assert !SameFrame(vm, at, s);
    }
  }

  /** A writable page has its frame to itself. */
  lemma WritableIsAlone(vm: Vm, at: Slot)
    requires Sharing(vm) && at in vm.leaf && vm.leaf[at].flags.writable
    ensures Alone(vm, at)
  {
  }

  lemma SharedWriteShows(vm: Vm, at: Slot, t: Slot, x: Word)
    requires Ok(vm) && SameFrame(vm, at, t) && t != at && x != vm.data[vm.leaf[at].frame][0]
    ensures Ok(Written(vm, at, 0, x)) && ViewOf(Written(vm, at, 0, x)) != Overwritten(ViewOf(vm), at, 0, x)
  {
    assert ViewOf(Written(vm, at, 0, x))[t][0] == x;
    assert Overwritten(ViewOf(vm), at, 0, x)[t][0] != x;
  }

  /** A store by the kernel does what a store is to do, whatever is stored, exactly when no other page
      has the frame: the kernel writes through the copy-on-write mark. */
  lemma KernelStoreSafeIff(vm: Vm, at: Slot)
    requires Ok(vm) && at in vm.leaf
    ensures Alone(vm, at) <==> forall i: nat, x: Word :: i < ENTRIES ==>
      Ok(Apply(vm, KernelStore(at, i, x))) &&
        ViewOf(Apply(vm, KernelStore(at, i, x))) == Eager(ViewOf(vm), KernelStore(at, i, x))
  {
    if Alone(vm, at) {
      forall i: nat, x: Word | i < ENTRIES
        ensures Ok(Apply(vm, KernelStore(at, i, x))) &&
          ViewOf(Apply(vm, KernelStore(at, i, x))) == Eager(ViewOf(vm), KernelStore(at, i, x))
      {
        WrittenRefines(vm, at, i, x);
      }
    } else {
      var t :| SameFrame(vm, at, t) && t != at;
      var x := Word(vm.data[vm.leaf[at].frame][0].frame + 1, NO_FLAGS);
      SharedWriteShows(vm, at, t, x);
      assert ViewOf(Apply(vm, KernelStore(at, 0, x))) != Eager(ViewOf(vm), KernelStore(at, 0, x));
    }
  }

  /** After a fork, whatever the kernel stores into a page of the child for it, the parent sees. */
  lemma KernelStoreLeaks(vm: Vm, p: nat, c: nat, v: VPage, i: nat, x: Word)
    requires Ok(vm) && Enabled(vm, Fork(p, c)) && Slot(p, v) in vm.leaf && i < ENTRIES
    ensures var vm1, e := Apply(vm, Fork(p, c)), KernelStore(Slot(c, v), i, x);
      && Ok(vm1) && Enabled(vm1, e) && Ok(Apply(vm1, e))
      && Slot(p, v) in ViewOf(Apply(vm1, e)) && ViewOf(Apply(vm1, e))[Slot(p, v)] == ViewOf(vm)[Slot(p, v)][i := x]
  {
    var vm1, e := Apply(vm, Fork(p, c)), KernelStore(Slot(c, v), i, x);
    StepKeepsOk(vm, Fork(p, c));
    ForkSameFrame(vm, p, c, Slot(p, v), Slot(c, v));
    StepKeepsOk(vm1, e);
  }

  lemma FaultRefines(vm: Vm, at: Slot, f: nat)
    requires Ok(vm) && Enabled(vm, WriteFault(at, f))
    ensures Ok(Apply(vm, WriteFault(at, f))) && ViewOf(Apply(vm, WriteFault(at, f))) == ViewOf(vm)
  {
    var vm' := Apply(vm, WriteFault(at, f));
    StepKeepsOk(vm, WriteFault(at, f));
    forall s | s in vm.leaf ensures vm'.data[vm'.leaf[s].frame] == vm.data[vm.leaf[s].frame] {}
  }

  lemma ForkRefines(vm: Vm, p: nat, c: nat)
    requires Ok(vm) && Enabled(vm, Fork(p, c))
    ensures Ok(Apply(vm, Fork(p, c))) && ViewOf(Apply(vm, Fork(p, c))) == Eager(ViewOf(vm), Fork(p, c))
  {
    StepKeepsOk(vm, Fork(p, c));
    var v, v' := ViewOf(Apply(vm, Fork(p, c))), Eager(ViewOf(vm), Fork(p, c));
    forall s ensures (s in v <==> s in v') && (s in v ==> v[s] == v'[s]) {
      ForkLooksAlike(vm, p, c, s);
    }
    hide *;
  }

  lemma ForkLooksAlike(vm: Vm, p: nat, c: nat, s: Slot)
    requires Ok(vm) && Enabled(vm, Fork(p, c)) && Ok(Apply(vm, Fork(p, c)))
    ensures var v, v' := ViewOf(Apply(vm, Fork(p, c))), Eager(ViewOf(vm), Fork(p, c));
      (s in v <==> s in v') && (s in v ==> v[s] == v'[s])
  {
  }

  /** Each step looks to every process as it would without sharing. */
  lemma StepRefines(vm: Vm, e: Event)
    requires Sharing(vm) && Enabled(vm, e) && (e.KernelStore? ==> Good(vm, e))
    ensures Ok(Apply(vm, e)) && ViewOf(Apply(vm, e)) == Eager(ViewOf(vm), e)
  {
    StepKeepsOk(vm, e);
    match e
    case Store(at, i, x) => WritableIsAlone(vm, at); WrittenRefines(vm, at, i, x);
    case KernelStore(at, i, x) => WrittenRefines(vm, at, i, x);
    case WriteFault(at, f) => FaultRefines(vm, at, f);
    case Fork(p, c) => ForkRefines(vm, p, c);
    case NewSpace(_) =>
    case Exit(r) => ExitRefines(vm, r);
    case MapFresh(at, f) => MapRefines(vm, at, f);
  }

  lemma ExitRefines(vm: Vm, r: nat)
    requires Ok(vm) && Enabled(vm, Exit(r))
    ensures Ok(Apply(vm, Exit(r))) && ViewOf(Apply(vm, Exit(r))) == Eager(ViewOf(vm), Exit(r))
  {
    StepKeepsOk(vm, Exit(r));
    assert ViewOf(Apply(vm, Exit(r))) == Eager(ViewOf(vm), Exit(r));
  }

  lemma MapRefines(vm: Vm, at: Slot, f: nat)
    requires Ok(vm) && Enabled(vm, MapFresh(at, f))
    ensures Ok(Apply(vm, MapFresh(at, f))) && ViewOf(Apply(vm, MapFresh(at, f))) == Eager(ViewOf(vm), MapFresh(at, f))
  {
    StepKeepsOk(vm, MapFresh(at, f));
    assert forall s :: s in vm.leaf ==> vm.leaf[s].frame != f;
    assert ViewOf(Apply(vm, MapFresh(at, f))) == Eager(ViewOf(vm), MapFresh(at, f));
  }

  /** A store to a mapped page succeeds at once or after one fault, which nobody can see. */
  lemma StoreGoesThrough(vm: Vm, at: Slot, i: nat, x: Word, f: nat)
    requires Sharing(vm) && at in vm.leaf && i < ENTRIES && f !in vm.data
    ensures !Enabled(vm, Store(at, i, x)) ==>
      && Enabled(vm, WriteFault(at, f))
      && ViewOf(Apply(vm, WriteFault(at, f))) == ViewOf(vm)
      && Enabled(Apply(vm, WriteFault(at, f)), Store(at, i, x))
  {
  }

  lemma OwnFault(vm: Vm, at: Slot, f: nat)
    requires Ok(vm) && at in vm.leaf && vm.leaf[at].flags.cow && f !in vm.data && vm.count[vm.leaf[at].frame] == 1
    ensures Enabled(vm, WriteFault(at, f))
    ensures Apply(vm, WriteFault(at, f)) == Vm(vm.live, vm.leaf[at := Word(vm.leaf[at].frame, USER_RW)], vm.data,
      vm.count)
  {
  }

  // ----- runs -------------------------------------------------------------------------------

  /** The events can happen one after the other, no fork among them shares a page a third time, and
      the kernel stores into no shared page. */
  ghost predicate Legal(vm: Vm, es: seq<Event>)
    decreases |es|
  {
    es == [] || (Ok(vm) && Enabled(vm, es[0]) && Good(vm, es[0]) && Legal(Apply(vm, es[0]), es[1..]))
  }

  ghost function Run(vm: Vm, es: seq<Event>): Vm
    requires Legal(vm, es)
    decreases |es|
  {
    if es == [] then vm else Run(Apply(vm, es[0]), es[1..])
  }

  ghost function EagerRun(v: View, es: seq<Event>): View
    decreases |es|
  {
    if es == [] then v else EagerRun(Eager(v, es[0]), es[1..])
  }

  /** Copy-on-write is invisible: along every run in which forks find their parent's pages and
      kernel stores their page unshared, all processes see what they would see if fork had copied
      every page. */
  lemma {:induction false} RunRefines(vm: Vm, es: seq<Event>)
    requires Sharing(vm) && Legal(vm, es)
    ensures Sharing(Run(vm, es))
    ensures ViewOf(Run(vm, es)) == EagerRun(ViewOf(vm), es)
    decreases |es|
  {
    if es != [] {
      StepKeepsSharing(vm, es[0]);
      StepRefines(vm, es[0]);
      RunRefines(Apply(vm, es[0]), es[1..]);
    }
  }

  /** From vm on, no run lets any process see a difference to a machine that copies at fork. */
  ghost predicate Invisible(vm: Vm) {
    Ok(vm) && forall es :: Legal(vm, es) ==> Ok(Run(vm, es)) && ViewOf(Run(vm, es)) == EagerRun(ViewOf(vm), es)
  }

  lemma {:induction false} Above(xs: set<nat>) returns (n: nat)
    ensures forall x :: x in xs ==> x < n
  {
    if xs == {} {
      n := 0;
    } else {
      var x :| x in xs;
      var k := Above(xs - {x});
      n := if x < k then k else x + 1;
      forall y | y in xs ensures y < n {
        assert y == x || y in xs - {x};
      }
    }
  }

  lemma RunThree(vm: Vm, a: Event, b: Event, c: Event)
    requires !a.Fork? && !b.Fork? && !c.Fork? && !a.KernelStore? && !b.KernelStore? && !c.KernelStore?
    requires Ok(vm) && Enabled(vm, a)
    requires var vm1 := Apply(vm, a); Ok(vm1) && Enabled(vm1, b)
    requires var vm2 := Apply(Apply(vm, a), b); Ok(vm2) && Enabled(vm2, c)
    ensures Legal(vm, [a, b, c]) && Run(vm, [a, b, c]) == Apply(Apply(Apply(vm, a), b), c)
    ensures EagerRun(ViewOf(vm), [a, b, c]) == Eager(Eager(Eager(ViewOf(vm), a), b), c)
  {
    assert [a, b, c][1..] == [b, c] && [b, c][1..] == [c] && [c][1..] == [];
    var vm1 := Apply(vm, a);
    var vm2 := Apply(vm1, b);
    var v := ViewOf(vm);
    assert Legal(Apply(vm2, c), []);
    assert Legal(vm2, [c]) && Run(vm2, [c]) == Apply(vm2, c);
    assert Legal(vm1, [b, c]) && Run(vm1, [b, c]) == Run(vm2, [c]);
    assert EagerRun(Eager(Eager(v, a), b), [c]) == Eager(Eager(Eager(v, a), b), c);
    assert EagerRun(Eager(v, a), [b, c]) == EagerRun(Eager(Eager(v, a), b), [c]);
  }

  lemma Distinguished(vm: Vm, es: seq<Event>, t: Slot)
    requires Ok(vm) && Legal(vm, es) && Ok(Run(vm, es))
    requires t in ViewOf(Run(vm, es)) && t in EagerRun(ViewOf(vm), es)
    requires ViewOf(Run(vm, es))[t] != EagerRun(ViewOf(vm), es)[t]
    ensures !Invisible(vm)
  {
  }

  /** A frame counted once but mapped twice: whoever faults first is given it to write, and the
      other sees what is written. */
  lemma UndercountedLeaks(vm: Vm, s: Slot, t: Slot, f: nat, x: Word)
    requires Ok(vm) && SameFrame(vm, s, t) && s != t && vm.count[vm.leaf[s].frame] == 1
    requires Enabled(vm, WriteFault(s, f)) && x != vm.data[vm.leaf[s].frame][0]
    ensures var vm1 := Apply(vm, WriteFault(s, f));
      && Ok(vm1) && Enabled(vm1, Store(s, 0, x)) && Ok(Apply(vm1, Store(s, 0, x)))
      && t in vm.leaf && t in ViewOf(Apply(vm1, Store(s, 0, x))) && t in Eager(ViewOf(vm), Store(s, 0, x))
      && ViewOf(Apply(vm1, Store(s, 0, x)))[t] != Eager(ViewOf(vm), Store(s, 0, x))[t]
  {
    var g := vm.leaf[s].frame;
    var vm1 := Apply(vm, WriteFault(s, f));
    StepKeepsOk(vm, WriteFault(s, f));
    StepKeepsOk(vm1, Store(s, 0, x));
    var vm2 := Apply(vm1, Store(s, 0, x));
    assert vm2.leaf[t].frame == g && vm2.data[g][0] == x;
  }

  /** Once three pages share a frame that is counted twice, two faults and a store break isolation:
      the first sharer gets a copy, the second the frame itself, and the third sees its stores. */
  lemma ThirdSharerLeaks(vm: Vm, s: Slot, u: Slot, t: Slot)
    requires Ok(vm) && SameFrame(vm, s, t) && SameFrame(vm, u, t) && s != t && s != u && u != t
    requires vm.leaf[s].flags.cow && vm.leaf[u].flags.cow && vm.count[vm.leaf[t].frame] == 2
    ensures !Invisible(vm)
  {
    var f := Above(vm.data.Keys);
    var a := WriteFault(u, f);
    FaultRefines(vm, u, f);
    var vm1 := Apply(vm, a);
    assert SameFrame(vm1, s, t);
    var f1 := Above(vm1.data.Keys);
    var b := WriteFault(s, f1);
    FaultRefines(vm1, s, f1);
    var x := Word(vm.data[vm.leaf[t].frame][0].frame + 1, NO_FLAGS);
    var c := Store(s, 0, x);
    UndercountedLeaks(vm1, s, t, f1, x);
    RunThree(vm, a, b, c);
    assert EagerRun(ViewOf(vm), [a, b, c]) == Eager(ViewOf(vm1), c);
    Distinguished(vm, [a, b, c], t);
  }

  /** Fork is safe exactly when no page of the parent is shared already: then, and only then, is
      copy-on-write invisible in everything that can follow. */
  lemma ForkSafeIff(vm: Vm, p: nat, c: nat)
    requires Sharing(vm) && Enabled(vm, Fork(p, c))
    ensures Invisible(Apply(vm, Fork(p, c))) <==> Unshared(vm, p)
  {
    var vm' := Apply(vm, Fork(p, c));
    StepKeepsOk(vm, Fork(p, c));
    if Unshared(vm, p) {
      ForkKeepsSharing(vm, p, c);
      forall es | Legal(vm', es) ensures Ok(Run(vm', es)) && ViewOf(Run(vm', es)) == EagerRun(ViewOf(vm'), es) {
        RunRefines(vm', es);
      }
    } else {
      var s, t :| SameFrame(vm, s, t) && s.space == p && s != t;
      var u := Slot(c, s.page);
      ForkSameFrame(vm, p, c, s, t);
      ForkSameFrame(vm, p, c, u, t);
      ForkCount(vm, p, c, s);
      ThirdSharerLeaks(vm', s, u, t);
    }
  }

  // ----- forking again -------------------------------------------------------------------------

  /** At the end of any run, fork is safe exactly when no page of the parent is shared there. */
  lemma ForkAfterRunIff(vm: Vm, es: seq<Event>, p: nat, c: nat)
    requires Sharing(vm) && Legal(vm, es) && Enabled(Run(vm, es), Fork(p, c))
    ensures Ok(Run(vm, es)) && (Invisible(Apply(Run(vm, es), Fork(p, c))) <==> Unshared(Run(vm, es), p))
  {
    RunRefines(vm, es);
    ForkSafeIff(Run(vm, es), p, c);
  }

  /** The event leaves the backing of s alone: it neither maps nor faults on s, and s's space goes on. */
  predicate Spares(e: Event, s: Slot) {
    match e
    case MapFresh(at, _) => at != s
    case WriteFault(at, _) => at != s
    case Exit(r) => r != s.space
    case _ => true
  }

  lemma SparedKeepsFrame(vm: Vm, e: Event, s: Slot)
    requires Ok(vm) && Enabled(vm, e) && s in vm.leaf && Spares(e, s)
    ensures s in Apply(vm, e).leaf && Apply(vm, e).leaf[s].frame == vm.leaf[s].frame
  {
  }

  /** Pages that share a frame go on sharing it for as long as neither is faulted on and neither
      space exits. */
  lemma {:induction false} SharingLasts(vm: Vm, es: seq<Event>, s: Slot, t: Slot)
    requires Sharing(vm) && Legal(vm, es) && SameFrame(vm, s, t)
    requires forall e :: e in es ==> Spares(e, s) && Spares(e, t)
    ensures SameFrame(Run(vm, es), s, t)
    decreases |es|
  {
    if es != [] {
      assert es[0] in es && forall e :: e in es[1..] ==> e in es;
      StepKeepsSharing(vm, es[0]);
      SparedKeepsFrame(vm, es[0], s);
      SparedKeepsFrame(vm, es[0], t);
      SharingLasts(Apply(vm, es[0]), es[1..], s, t);
    }
  }

  /** After a fork, however much else happens: as long as one page of the parent has been faulted on
      neither in the parent nor in the child, and the child has not exited, a second fork is one too
      many. */
  lemma SecondForkUnsafe(vm: Vm, s: Slot, c: nat, es: seq<Event>, c': nat)
    requires Sharing(vm) && s in vm.leaf && Enabled(vm, Fork(s.space, c)) && Unshared(vm, s.space)
    requires var vm1 := Apply(vm, Fork(s.space, c)); Legal(vm1, es) && Enabled(Run(vm1, es), Fork(s.space, c'))
    requires forall e :: e in es ==> Spares(e, s) && Spares(e, Slot(c, s.page))
    ensures var vm2 := Run(Apply(vm, Fork(s.space, c)), es);
      Sharing(vm2) && !Invisible(Apply(vm2, Fork(s.space, c')))
  {
    var vm1 := Apply(vm, Fork(s.space, c));
    ForkKeepsSharing(vm, s.space, c);
    ForkSameFrame(vm, s.space, c, s, Slot(c, s.page));
    RunRefines(vm1, es);
    SharingLasts(vm1, es, s, Slot(c, s.page));
    ForkAfterRunIff(vm1, es, s.space, c');
  }

  /** Whoever shares a page of p is a page of c. */
  ghost predicate OnlyWith(vm: Vm, p: nat, c: nat) {
    forall s, t :: SameFrame(vm, s, t) && s.space == p && s != t ==> t.space == c
  }

  /** The event is neither a fork by p nor p's exit. */
  predicate LeavesAlone(e: Event, p: nat) {
    match e
    case Fork(q, _) => q != p
    case Exit(r) => r != p
    case _ => true
  }

  lemma ForkKeepsOnlyWith(vm: Vm, q: nat, d: nat, p: nat, c: nat)
    requires Sharing(vm) && Enabled(vm, Fork(q, d)) && Unshared(vm, q) && OnlyWith(vm, p, c) && p in vm.live &&
      q != p && p != c
    ensures OnlyWith(Apply(vm, Fork(q, d)), p, c)
  {
    var vm' := Apply(vm, Fork(q, d));
    forall s, t | SameFrame(vm', s, t) && s.space == p && s != t ensures t.space == c {
      ForkSameFrame(vm, q, d, s, t);
      var u := Source(q, d, t);
      assert Source(q, d, s) == s && SameFrame(vm, u, s);
    }
  }

  lemma StepKeepsOnlyWith(vm: Vm, e: Event, p: nat, c: nat)
    requires Sharing(vm) && Enabled(vm, e) && Good(vm, e) && LeavesAlone(e, p)
    requires OnlyWith(vm, p, c) && p in vm.live && p != c
    ensures OnlyWith(Apply(vm, e), p, c) && p in Apply(vm, e).live
  {
    var vm' := Apply(vm, e);
    if e.Fork? {
      ForkKeepsOnlyWith(vm, e.parent, e.child, p, c);
    } else {
      forall s, t | SameFrame(vm', s, t) && s != t ensures SameFrame(vm, s, t) {}
    }
  }

  lemma {:induction false} RunKeepsOnlyWith(vm: Vm, es: seq<Event>, p: nat, c: nat)
    requires Sharing(vm) && Legal(vm, es) && (forall e :: e in es ==> LeavesAlone(e, p))
    requires OnlyWith(vm, p, c) && p in vm.live && p != c
    ensures OnlyWith(Run(vm, es), p, c) && p in Run(vm, es).live
    decreases |es|
  {
    if es != [] {
      assert es[0] in es && forall e :: e in es[1..] ==> e in es;
      StepKeepsSharing(vm, es[0]);
      StepKeepsOnlyWith(vm, es[0], p, c);
      RunKeepsOnlyWith(Apply(vm, es[0]), es[1..], p, c);
    }
  }

  /** Fork, then anything but another fork by the parent, then the child's exit: the parent may fork
      again, whichever pages were touched meanwhile.  That is what a shell does. */
  lemma ForkExitForkSafe(vm: Vm, p: nat, c: nat, es: seq<Event>, c': nat)
    requires Sharing(vm) && Enabled(vm, Fork(p, c)) && Unshared(vm, p)
    requires var vm1 := Apply(vm, Fork(p, c));
      Legal(vm1, es) && c in Run(vm1, es).live && (c' == c || c' !in Run(vm1, es).live)
    requires forall e :: e in es ==> LeavesAlone(e, p)
    ensures var vm2 := Run(Apply(vm, Fork(p, c)), es);
      && Sharing(vm2) && Enabled(vm2, Exit(c)) && Sharing(Apply(vm2, Exit(c)))
      && Enabled(Apply(vm2, Exit(c)), Fork(p, c')) && Invisible(Apply(Apply(vm2, Exit(c)), Fork(p, c')))
  {
    var vm1 := Apply(vm, Fork(p, c));
    ForkKeepsSharing(vm, p, c);
    forall s, t | SameFrame(vm1, s, t) && s.space == p && s != t ensures t.space == c {
      ForkSameFrame(vm, p, c, s, t);
    }
    RunRefines(vm1, es);
    RunKeepsOnlyWith(vm1, es, p, c);
    ExitUnshares(Run(vm1, es), p, c);
    ForkSafeIff(Apply(Run(vm1, es), Exit(c)), p, c');
  }

  lemma ExitUnshares(vm: Vm, p: nat, c: nat)
    requires Sharing(vm) && OnlyWith(vm, p, c) && c in vm.live && p in vm.live && p != c
    ensures Sharing(Apply(vm, Exit(c))) && Unshared(Apply(vm, Exit(c)), p)
  {
    StepKeepsSharing(vm, Exit(c));
    var vm' := Apply(vm, Exit(c));
    forall s, t | SameFrame(vm', s, t) && s.space == p ensures s == t {
      assert SameFrame(vm, s, t);
    }
  }
}
