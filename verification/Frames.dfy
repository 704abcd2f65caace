/**
 The physical frame allocator: one descriptor per frame, the free ones threaded on an
 intrusive list.  Frames are named by page number (address / 4096); NULL is -1.
 */
module Frames {
  import opened Addresses

  const MIN_PAGES: nat := 10
  const MAX_PAGES: nat := 100000
  const NULL: int := -1

  // ----- the specification: free and owned frames -------------------------------------

  /** The managed frames and their upper end, those on the free list in list order, those handed out, and
      the two counters whose difference the code takes for the length of the list. */
  datatype Pool = Pool(managed: set<nat>, top: nat, free: seq<nat>, owned: set<nat>, max: nat, used: nat) {

    /** The list holds every managed frame that nobody owns exactly once, and no other frame;
        the counters agree with its length and with the number of frames handed out. */
    ghost predicate Conserved() {
      && used <= max
      && |free| == max - used
      && |owned| == used
      && owned <= managed
      && multiset(free) == multiset(managed - owned)
    }

    function Count(): int { max - used }

    /** The list is the ascending run of frames that ends at the top of memory.  It starts out so,
        and stays so for as long as no frame is given back. */
    ghost predicate Ascending() {
      |free| == Count() && |free| <= top && forall i :: 0 <= i < |free| ==> free[i] == top - |free| + i
    }

    /** get_free_page: nothing is handed out once fewer than ten frames remain. */
    function Take(): Pool {
      if Count() < MIN_PAGES || free == [] then this
      else this.(free := free[1..], owned := owned + {free[0]}, used := used + 1)
    }

    /** add_back_free_pages of one frame, which goes to the head of the list. */
    function Give(p: nat): Pool
      requires used > 0
    {
      this.(free := [p] + free, owned := owned - {p}, used := used - 1)
    }
  }

  datatype Event = TakeOne | GiveBack(frame: nat)

  /** A run: frames are given back only by their owner. */
  ghost predicate Legal(pool: Pool, es: seq<Event>)
    decreases |es|
  {
    es == [] ||
    match es[0]
    case TakeOne => Legal(pool.Take(), es[1..])
    case GiveBack(p) => p in pool.owned && pool.used > 0 && Legal(pool.Give(p), es[1..])
  }

  ghost function Run(pool: Pool, es: seq<Event>): Pool
    requires Legal(pool, es)
    decreases |es|
  {
    if es == [] then pool
    else match es[0]
      case TakeOne => Run(pool.Take(), es[1..])
      case GiveBack(p) => Run(pool.Give(p), es[1..])
  }

  lemma TakeKeepsAscending(pool: Pool)
    requires pool.Ascending()
    ensures pool.Take().Ascending()
    ensures pool.Count() >= MIN_PAGES ==> pool.free != [] && pool.free[0] == pool.top - pool.Count()
  {
  }

  /** What the multiset equation of Conserved says frame by frame. */
  lemma ConservedMeans(pool: Pool)
    requires pool.Conserved()
    ensures forall i, j :: 0 <= i < j < |pool.free| ==> pool.free[i] != pool.free[j]
    ensures forall f: nat :: f in pool.free <==> f in pool.managed && f !in pool.owned
  {
    forall f: nat ensures f in pool.free <==> f in pool.managed - pool.owned {
      assert f in pool.free <==> f in multiset(pool.free);
    }
    forall i, j | 0 <= i < j < |pool.free| ensures pool.free[i] != pool.free[j] {
      var x := pool.free[i];
      assert pool.free == pool.free[..j] + pool.free[j..];
      assert x in pool.free[..j];
      assert multiset(pool.free)[x] == 1 by { assert x in multiset(pool.free); }
      assert multiset(pool.free[..j])[x] >= 1;
    }
  }

  lemma TakeConserves(pool: Pool)
    requires pool.Conserved()
    ensures pool.Take().Conserved()
    ensures pool.Count() >= MIN_PAGES ==> pool.free != [] && pool.free[0] in pool.managed && pool.free[0] !in pool.owned
  {
    if pool.Count() >= MIN_PAGES {
      var x := pool.free[0];
      assert x in multiset(pool.free);
      assert pool.free == [x] + pool.free[1..];
      assert multiset(pool.free[1..]) == multiset(pool.free) - multiset{x};
    }
  }

  lemma GiveConserves(pool: Pool, p: nat)
    requires pool.Conserved() && p in pool.owned
    ensures pool.used > 0 && pool.Give(p).Conserved()
    ensures p !in pool.free && p in pool.managed
  {
    assert pool.owned != {};
    assert p in pool.free <==> p in multiset(pool.free);
    assert pool.managed - (pool.owned - {p}) == (pool.managed - pool.owned) + {p};
  }

  /** Conservation over every run: the list stays duplicate-free and exactly as long as the
      counters say, and free and owned frames split the managed range between them. */
  lemma {:induction false} RunConserves(pool: Pool, es: seq<Event>)
    requires pool.Conserved() && Legal(pool, es)
    ensures Run(pool, es).Conserved()
    ensures Run(pool, es).managed == pool.managed && Run(pool, es).max == pool.max
    decreases |es|
  {
    if es != [] {
      match es[0]
      case TakeOne => TakeConserves(pool); RunConserves(pool.Take(), es[1..]);
      case GiveBack(p) => GiveConserves(pool, p); RunConserves(pool.Give(p), es[1..]);
    }
  }

  // ----- the implementation -----------------------------------------------------------

  datatype Descriptor = Descriptor(pageNumber: nat, next: int, refCount: nat)

  function Upto(lo: nat, hi: nat): (s: seq<nat>)
    requires lo <= hi
    ensures |s| == hi - lo && forall i :: 0 <= i < |s| ==> s[i] == lo + i
  {
    seq(hi - lo, i requires 0 <= i => lo + i)
  }

  /** The list node at position k, NULL past the end. */
  function Link(free: seq<nat>, k: nat): int {
    if k < |free| then free[k] else NULL
  }

  function Range(lo: nat, hi: nat): (r: set<nat>)
    requires lo <= hi
    ensures forall f: nat :: f in r <==> lo <= f < hi
  {
    if lo == hi then {} else Range(lo, hi - 1) + {hi - 1}
  }

  /** At boot every frame from lo to hi is free. */
  ghost function BootPool(lo: nat, hi: nat): Pool
    requires lo <= hi
  {
    Pool(Range(lo, hi), hi, Upto(lo, hi), {}, hi - lo, 0)
  }

  lemma {:induction false} UptoIsRange(lo: nat, hi: nat)
    requires lo <= hi
    ensures multiset(Upto(lo, hi)) == multiset(Range(lo, hi))
  {
    if lo < hi {
      UptoIsRange(lo, hi - 1);
      assert Upto(lo, hi) == Upto(lo, hi - 1) + [hi - 1];
    }
  }

  lemma BootPoolConserved(lo: nat, hi: nat)
    requires lo <= hi
    ensures BootPool(lo, hi).Conserved()
  {
    UptoIsRange(lo, hi);
    assert Range(lo, hi) - {} == Range(lo, hi);
  }

  /** The list that starts at head visits the frames of `free` in order, and ends. */
  ghost predicate Threaded(ds: seq<Descriptor>, head: int, free: seq<nat>) {
    && head == Link(free, 0)
    && forall k :: 0 <= k < |free| ==> free[k] < |ds| && ds[free[k]].next == Link(free, k + 1)
  }

  lemma PopThreaded(ds: seq<Descriptor>, head: int, free: seq<nat>)
    requires Threaded(ds, head, free) && free != []
    ensures var p := free[0];
      head == p && p < |ds| && Threaded(ds[p := ds[p].(refCount := 1)], ds[p].next, free[1..])
  {
  }

  lemma PushThreaded(ds: seq<Descriptor>, head: int, free: seq<nat>, p: nat)
    requires Threaded(ds, head, free) && p < |ds| && p !in free
    ensures Threaded(Pushed(ds, head, p), p, [p] + free)
  {
  }

  /** The descriptors hold the reference counts, and each managed one its own number. */
  ghost predicate Described(ds: seq<Descriptor>, managed: set<nat>, count: seq<nat>) {
    && |count| == |ds|
    && (forall f :: 0 <= f < |ds| ==> ds[f].refCount == count[f])
    && (forall f: nat :: f in managed ==> f < |ds| && ds[f].pageNumber == f)
  }

  /** How the descriptors, the list head and the counters represent a pool and its counts. */
  ghost predicate Represents(ds: seq<Descriptor>, head: int, max: nat, used: nat, pool: Pool, count: seq<nat>) {
    && pool.Conserved()
    && pool.max == max && pool.used == used
    && Described(ds, pool.managed, count)
    && Threaded(ds, head, pool.free)
  }

  lemma Counters(ds: seq<Descriptor>, head: int, max: nat, used: nat, pool: Pool, count: seq<nat>)
    requires Represents(ds, head, max, used, pool, count)
    ensures pool.Count() == max - used && |ds| == |count|
  {
  }

  lemma TakeRepresented(ds: seq<Descriptor>, head: int, max: nat, used: nat, pool: Pool, count: seq<nat>)
    requires Represents(ds, head, max, used, pool, count) && pool.Count() >= MIN_PAGES
    ensures var p := pool.free[0];
      && head == p && p < |ds| == |count| && ds[p].pageNumber == p && p in pool.managed && p !in pool.owned
      && Represents(ds[p := ds[p].(refCount := 1)], ds[p].next, max, used + 1, pool.Take(), count[p := 1])
  {
    TakeConserves(pool);
    PopThreaded(ds, head, pool.free);
  }

  lemma GiveRepresented(ds: seq<Descriptor>, head: int, max: nat, used: nat, pool: Pool, count: seq<nat>, p: nat)
    requires Represents(ds, head, max, used, pool, count) && p in pool.owned
    ensures used > 0 && pool.used > 0 && p < |ds| == |count|
    ensures Represents(Pushed(ds, head, p), p, max, used - 1, pool.Give(p), count[p := 0])
  {
    GiveConserves(pool, p);
    PushThreaded(ds, head, pool.free, p);
  }

  // ----- giving back what is not owned --------------------------------------------------------

  /** pages_used - 1 in 64 bits. */
  function Less(used: nat): nat { if used == 0 then 0xffff_ffff_ffff_ffff else used - 1 }

  /** The descriptors after frame p has been put at the head of the list. */
  function Pushed(ds: seq<Descriptor>, head: int, p: nat): seq<Descriptor>
    requires p < |ds|
  {
    ds[p := ds[p].(refCount := 0, next := head)]
  }

  /** The books are in order: list and counters represent some pool over the managed frames. */
  ghost predicate InOrder(ds: seq<Descriptor>, head: int, max: nat, used: nat, managed: set<nat>, count: seq<nat>) {
    exists pool: Pool :: pool.managed == managed && Represents(ds, head, max, used, pool, count)
  }

  lemma {:induction false} SameNodes(ds: seq<Descriptor>, head: int, free: seq<nat>, free': seq<nat>, i: nat)
    requires Threaded(ds, head, free) && Threaded(ds, head, free')
    ensures Link(free, i) == Link(free', i)
  {
    if i > 0 {
      SameNodes(ds, head, free, free', i - 1);
      if i - 1 >= |free| {
        assert Link(free', i - 1) == NULL;
      } else {
        assert free[i - 1] == free'[i - 1];
      }
    }
  }

  lemma ThreadedUnique(ds: seq<Descriptor>, head: int, free: seq<nat>, free': seq<nat>)
    requires Threaded(ds, head, free) && Threaded(ds, head, free')
    ensures free == free'
  {
    SameNodes(ds, head, free, free', |free|);
    SameNodes(ds, head, free, free', |free'|);
    forall i | 0 <= i < |free| ensures free[i] == free'[i] {
      SameNodes(ds, head, free, free', i);
    }
  }

  /** Putting a listed frame at the head closes the list to a ring: from p one never leaves p and the
      frames that were before it. */
  lemma {:induction false} RoundAndRound(ds: seq<Descriptor>, head: int, free: seq<nat>, k: nat, s: seq<nat>, i: nat)
    requires Threaded(ds, head, free) && k < |free| && forall j :: 0 <= j < k ==> free[j] != free[k]
    requires Threaded(Pushed(ds, head, free[k]), free[k], s) && i <= |s|
    ensures i < |s| && s[i] in free[..k + 1]
  {
    if i > 0 {
      RoundAndRound(ds, head, free, k, s, i - 1);
      var j :| 0 <= j < k + 1 && free[..k + 1][j] == s[i - 1];
      var next := if j == k then 0 else j + 1;
      assert Link(s, i) == free[next] && free[..k + 1][next] == free[next];
    } else {
      assert free[..k + 1][k] == free[k];
    }
  }

  lemma ListNeverEnds(ds: seq<Descriptor>, head: int, max: nat, used: nat, pool: Pool, count: seq<nat>, p: nat,
      s: seq<nat>)
    requires Represents(ds, head, max, used, pool, count) && p in pool.free && p < |ds|
    ensures !Threaded(Pushed(ds, head, p), p, s)
  {
    ConservedMeans(pool);
    var k :| 0 <= k < |pool.free| && pool.free[k] == p;
    if Threaded(Pushed(ds, head, p), p, s) {
      RoundAndRound(ds, head, pool.free, k, s, |s|);
    }
  }

  lemma HeadIsManaged(ds: seq<Descriptor>, head: nat, max: nat, used: nat, pool: Pool, count: seq<nat>)
    requires Represents(ds, head, max, used, pool, count)
    ensures head in pool.managed
  {
    ConservedMeans(pool);
    assert pool.free[0] == head;
  }

  /** add_back_free_pages keeps the books in order exactly for frames that are owned: a free frame
      would close the list to a ring, a frame that is not managed would come onto it. */
  lemma GiveBackIff(ds: seq<Descriptor>, head: int, max: nat, used: nat, pool: Pool, count: seq<nat>, p: nat)
    requires Represents(ds, head, max, used, pool, count) && p < |ds|
    ensures InOrder(Pushed(ds, head, p), p, max, Less(used), pool.managed, count[p := 0]) <==> p in pool.owned
  {
    var ds' := Pushed(ds, head, p);
    if p in pool.owned {
      GiveRepresented(ds, head, max, used, pool, count, p);
      assert pool.Give(p).managed == pool.managed;
    } else if InOrder(ds', p, max, Less(used), pool.managed, count[p := 0]) {
      var pool': Pool :|
        pool'.managed == pool.managed && Represents(ds', p, max, Less(used), pool', count[p := 0]);
      if p in pool.free {
        ListNeverEnds(ds, head, max, used, pool, count, p, pool'.free);
      } else {
        ConservedMeans(pool);
        HeadIsManaged(ds', p, max, Less(used), pool', count[p := 0]);
      }
    }
  }

  /** What kfree does when it does release, which counts the frame twice, keeps the books in order
      for no frame at all. */
  lemma ReleaseBreaksBooks(ds: seq<Descriptor>, head: int, max: nat, used: nat, pool: Pool, count: seq<nat>, p: nat,
      managed: set<nat>)
    requires Represents(ds, head, max, used, pool, count) && p < |ds|
    ensures !InOrder(Pushed(ds, head, p), p, max + 1, Less(used), managed, count[p := 0])
  {
    var ds' := Pushed(ds, head, p);
    if pool': Pool :| pool'.managed == managed && Represents(ds', p, max + 1, Less(used), pool', count[p := 0]) {
      if p in pool.free {
        ListNeverEnds(ds, head, max, used, pool, count, p, pool'.free);
      } else {
        PushThreaded(ds, head, pool.free, p);
        ThreadedUnique(ds', p, [p] + pool.free, pool'.free);
      }
    }
  }

  lemma BootRepresented(ds: seq<Descriptor>, first: nat, n: nat)
    requires first < n <= |ds|
    requires forall f :: 0 <= f < |ds| ==> ds[f].refCount == 0
    requires forall f :: 0 <= f < n ==> ds[f].pageNumber == f && ds[f].next == if f + 1 < n then f + 1 else NULL
    ensures Represents(ds, first, n - first, 0, BootPool(first, n), seq(|ds|, _ => 0))
    ensures InOrder(ds, first, n - first, 0, Range(first, n), seq(|ds|, _ => 0))
  {
    BootPoolConserved(first, n);
    assert BootPool(first, n).managed == Range(first, n);
  }

  /** An empty list does not represent a pool that manages a frame which nobody owns. */
  lemma NoList(ds: seq<Descriptor>, max: nat, managed: set<nat>, f: nat, count: seq<nat>)
    requires f in managed
    ensures !InOrder(ds, NULL, max, 0, managed, count)
  {
    if pool: Pool :| pool.managed == managed && Represents(ds, NULL, max, 0, pool, count) {
      NothingManaged(pool);
    }
  }

  lemma NothingManaged(pool: Pool)
    requires pool.Conserved() && pool.free == [] && pool.used == 0
    ensures pool.managed == {}
  {
    ConservedMeans(pool);
    assert pool.owned == {};
  }

  class FrameAllocator {
    const descs: array<Descriptor>
    var freeList: int
    var maxPages: nat
    var maxFree: nat
    var pagesUsed: nat

    ghost var pool: Pool
    ghost var count: seq<nat>  // the reference count of every frame
    ghost var ds: seq<Descriptor>

    ghost predicate Valid()
      reads this, descs
    {
      descs[..] == ds && Represents(ds, freeList, maxFree, pagesUsed, pool, count)
    }

    /** init_physical_memory: the frames from physfree to the end of memory become the list, if
        physfree is where a page starts; if it is not, the list stays empty. */
    constructor (physfree: nat, base: nat, length: nat)
      requires physfree / PAGE < (base + length) / PAGE <= MAX_PAGES
      ensures fresh(descs) && |count| == MAX_PAGES && maxPages == (base + length) / PAGE
      ensures InOrderFor(Range(physfree / PAGE, maxPages)) <==> physfree % PAGE == 0
      ensures physfree % PAGE == 0 ==> Valid() && pool == BootPool(physfree / PAGE, maxPages)
      ensures physfree % PAGE != 0 ==> freeList == NULL
      ensures forall f :: 0 <= f < |count| ==> count[f] == 0
    {
      hide Represents, InOrder, Range;
      var size := base + length;
      maxFree := (size - physfree) / PAGE;
      maxPages := size / PAGE;
      pagesUsed := 0;
      freeList := NULL;
      descs := new Descriptor[MAX_PAGES](_ => Descriptor(0, NULL, 0));
      pool := BootPool(physfree / PAGE, size / PAGE);
      count := seq(MAX_PAGES, _ => 0);
      new;
      ThreadDescriptors(physfree);
      ds := descs[..];
      ghost var first, n := physfree / PAGE, maxPages;
      if physfree % PAGE == 0 {
        assert maxFree == n - first;
        BootRepresented(ds, first, n);
      } else {
        NoList(ds, maxFree, Range(first, n), first, count);
      }
    }

    /** The loop of init_physical_memory. */
    method ThreadDescriptors(physfree: nat)
      requires descs.Length == MAX_PAGES && maxPages <= MAX_PAGES && freeList == NULL
      requires forall f :: 0 <= f < MAX_PAGES ==> descs[f] == Descriptor(0, NULL, 0)
      modifies descs, `freeList
      ensures forall f :: 0 <= f < MAX_PAGES ==> descs[f].refCount == 0
      ensures forall f :: 0 <= f < maxPages ==>
        descs[f].pageNumber == f && descs[f].next == if f + 1 < maxPages then f + 1 else NULL
      ensures freeList == if physfree % PAGE == 0 && physfree / PAGE < maxPages then physfree / PAGE else NULL
    {
      var pg := 0;
      while pg < maxPages
        invariant 0 <= pg <= maxPages
        invariant forall f :: 0 <= f < pg ==> descs[f] == Descriptor(f, if f + 1 < maxPages then f + 1 else NULL, 0)
        invariant forall f :: pg <= f < MAX_PAGES ==> descs[f] == Descriptor(0, NULL, 0)
        invariant freeList == if physfree % PAGE == 0 && physfree / PAGE < pg then physfree / PAGE else NULL
      {
        descs[pg] := descs[pg].(pageNumber := pg, refCount := 0);
        if pg < maxPages - 1 {
          descs[pg] := descs[pg].(next := pg + 1);
        }
        if pg * PAGE == physfree {
          freeList := pg;
        }
        pg := pg + 1;
      }
    }

    /** get_free_pages_count: the counters tell the length of the list. */
    function FreePagesCount(): (n: int)
      requires Valid()
      reads this, descs
      ensures n == |pool.free| == pool.Count()
    {
      maxFree - pagesUsed
    }

    /** get_free_page: the head of the list, or 0 when fewer than ten frames are left. */
    method GetFreePage() returns (p: nat)
      requires Valid()
      modifies this, descs
      ensures Valid()
      ensures pool == old(pool.Take())
      ensures old(pool.Count()) < 10 ==> p == 0 && count == old(count)
      ensures old(pool.Count()) >= 10 ==>
        old(pool.free) != [] && p == old(pool.free[0]) && count == old(count)[p := 1] && p in pool.managed &&
          p !in old(pool.owned)
    {
      Counters(ds, freeList, maxFree, pagesUsed, pool, count);
      hide Represents;
      if FreePagesCount() < MIN_PAGES {
        return 0;
      }
      TakeRepresented(ds, freeList, maxFree, pagesUsed, pool, count);
      p := descs[freeList].pageNumber;
      freeList := descs[p].next;
      descs[p] := descs[p].(refCount := 1);
      pagesUsed := pagesUsed + 1;
      pool, count, ds := pool.Take(), count[p := 1], ds[p := ds[p].(refCount := 1)];
    }

    function RefCount(p: nat): (c: nat)
      requires Valid() && p < |count|
      reads this, descs
      ensures c == count[p]
    {
      descs[p].refCount
    }

    method SetRefCount(p: nat, c: nat)
      requires Valid() && p < |count|
      modifies descs, `count, `ds
      ensures Valid()
      ensures count == old(count)[p := c] && ds == old(ds)[p := old(ds)[p].(refCount := c)]
    {
      descs[p] := descs[p].(refCount := c);
      count, ds := count[p := c], ds[p := ds[p].(refCount := c)];
    }

    /** The books are in order with regard to these frames. */
    ghost predicate InOrderFor(managed: set<nat>)
      reads this, descs
    {
      descs[..] == ds && InOrder(ds, freeList, maxFree, pagesUsed, managed, count)
    }

    lemma BooksInOrder()
      requires Valid()
      ensures InOrderFor(pool.managed)
    {
    }

    /** add_back_free_pages(p, 1). */
    method AddBackFreePage(p: nat)
      requires Valid() && p < |count|
      modifies this, descs
      ensures descs[..] == ds == Pushed(old(ds), old(freeList), p) && freeList == p && count == old(count)[p := 0]
      ensures maxFree == old(maxFree) && maxPages == old(maxPages) && pagesUsed == Less(old(pagesUsed))
      ensures InOrderFor(old(pool).managed) <==> p in old(pool).owned
      ensures p in old(pool).owned ==> Valid() && pool == old(pool.Give(p))
    {
      GiveBackIff(ds, freeList, maxFree, pagesUsed, pool, count, p);
      if p in pool.owned {
        GiveRepresented(ds, freeList, maxFree, pagesUsed, pool, count, p);
        pool := pool.Give(p);
      }
      hide Represents, InOrder;
      var prev := freeList;
      freeList := p;
      descs[p] := descs[p].(refCount := 0);
      descs[p] := descs[p].(next := prev);
      pagesUsed := Less(pagesUsed);
      count, ds := count[p := 0], Pushed(ds, prev, p);
    }

    /** update_max_pages. */
    method UpdateMaxPages(n: nat)
      modifies `maxFree, `maxPages
      ensures maxFree == old(maxFree) + n && maxPages == old(maxPages) + n
    {
      maxFree := maxFree + n;
      maxPages := maxPages + n;
    }

    /** The part of kfree behind its guard that concerns the books. */
    method Release(p: nat)
      requires Valid() && p < |count|
      modifies this, descs
      ensures descs[..] == ds == Pushed(old(ds), old(freeList), p) && freeList == p && count == old(count)[p := 0]
      ensures maxFree == old(maxFree) + 1 && pagesUsed == Less(old(pagesUsed))
      ensures !InOrderFor(old(pool).managed)
      ensures p in old(pool).free ==> forall s: seq<nat> :: !Threaded(ds, freeList, s)
      ensures p !in old(pool).free ==> Threaded(ds, freeList, [p] + old(pool).free)
    {
      Counters(ds, freeList, maxFree, pagesUsed, pool, count);
      hide Represents, InOrder, Threaded;
      ReleaseBreaksBooks(ds, freeList, maxFree, pagesUsed, pool, count, p, pool.managed);
      if p in pool.free {
        forall s: seq<nat> ensures !Threaded(Pushed(ds, freeList, p), p, s) {
          ListNeverEnds(ds, freeList, maxFree, pagesUsed, pool, count, p, s);
        }
      } else {
        PushThreaded(ds, freeList, pool.free, p);
      }
      AddBackFreePage(p);
      UpdateMaxPages(1);
    }
  }
}
