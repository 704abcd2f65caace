/**
 What a loaded program is to look like in memory, and what loading its segments one after the
 other, each with a spare page, makes of it.
 */
module ElfImage {
  import opened Addresses
  import opened UserBytes
  import opened UserHeap
  import Numbers

  type Byte = Numbers.Byte

  const PT_LOAD: nat := 1
  const READ: nat := 4
  const WRITE: nat := 2
  const EXECUTE: nat := 1

  datatype Segment = Segment(kind: nat, flags: nat, vaddr: nat, offset: nat, filesz: nat, memsz: nat) {
    predicate Load() { kind == PT_LOAD }
    function First(): nat { vaddr / PAGE }
    function End(): nat { vaddr + memsz }

    /** The pages the loader maps are First() up to, but not including, this one. */
    function Past(): nat { End() / PAGE + 2 }

    predicate Covers(p: nat) { Load() && First() <= p < Past() }

    /** The file part lies in the file and in the segment, and the segment in user memory. */
    predicate Sound(file: seq<Byte>) {
      filesz <= memsz && offset + filesz <= |file| && Past() * PAGE <= USER_END
    }
  }

  datatype Elf = Elf(entry: nat, segments: seq<Segment>, file: seq<Byte>) {
    predicate Sound() { forall s :: s in segments && s.Load() ==> s.Sound(file) }
  }

  datatype RegionType = Undefined | Text | Data | Heap | Stack
  datatype LoadedRegion = LoadedRegion(region: Region, flags: nat, kind: RegionType)

  // ----- the region list -----------------------------------------------------------------------

  /** The region goes from the segment's address on for its size in memory, with its flags, and is text
      for flags read and execute (5), data for read and write (6). */
  predicate Describes(r: LoadedRegion, s: Segment) {
    && r.region.start == s.vaddr && r.region.end == s.vaddr + s.memsz && r.flags == s.flags
    && (r.kind == Text <==> s.flags == 5) && (r.kind == Data <==> s.flags == 6)
    && (r.kind == Undefined <==> s.flags != 5 && s.flags != 6)
  }

  /** The loadable segments, in file order. */
  function Loads(ss: seq<Segment>): seq<Segment> {
    if ss == [] then []
    else Loads(ss[..|ss| - 1]) + if ss[|ss| - 1].kind == 1 then [ss[|ss| - 1]] else []
  }

  /** at lists, in ascending order, where the loadable segments are, all of them and no others. */
  ghost predicate LoadPlaces(ss: seq<Segment>, at: seq<nat>) {
    && (forall i :: 0 <= i < |at| ==> at[i] < |ss| && ss[at[i]].kind == 1)
    && (forall i, j :: 0 <= i < j < |at| ==> at[i] < at[j])
    && (forall n: nat :: n < |ss| && ss[n].kind == 1 ==> n in at)
  }

  lemma {:induction false} LoadsInOrder(ss: seq<Segment>) returns (at: seq<nat>)
    ensures LoadPlaces(ss, at) && |at| == |Loads(ss)|
    ensures forall i :: 0 <= i < |at| ==> Loads(ss)[i] == ss[at[i]]
  {
    at := [];
    if ss != [] {
      var n := |ss| - 1;
      at := LoadsInOrder(ss[..n]);
      if ss[n].kind == 1 {
        at := at + [n];
      }
    }
  }

  /** The regions are those of the loadable segments, one each, in file order. */
  ghost predicate Lists(rs: seq<LoadedRegion>, ss: seq<Segment>) {
    |rs| == |Loads(ss)| && forall i :: 0 <= i < |rs| ==> Describes(rs[i], Loads(ss)[i])
  }

  lemma ListsNext(rs: seq<LoadedRegion>, r: LoadedRegion, ss: seq<Segment>, i: nat)
    requires i < |ss| && Lists(rs, ss[..i])
    ensures !ss[i].Load() ==> Lists(rs, ss[..i + 1])
    ensures ss[i].Load() && Describes(r, ss[i]) ==> Lists(rs + [r], ss[..i + 1])
  {
    assert ss[..i + 1][..i] == ss[..i];
  }

  /** Address a is mapped and holds the file's byte for it, or zero past the segment's part of the file. */
  ghost predicate HoldsOwn(mem: Bytes, s: Segment, file: seq<Byte>, a: nat) {
    var n := s.offset + a - s.vaddr;
    Holds(mem, a, if a < s.vaddr + s.filesz && 0 <= n < |file| then file[n] else 0)
  }

  /** Every address of every segment's region does so. */
  ghost predicate RegionsHold(mem: Bytes, rs: seq<LoadedRegion>, e: Elf) {
    |rs| == |Loads(e.segments)| &&
    forall i, a: nat :: 0 <= i < |rs| && rs[i].region.start <= a < rs[i].region.end ==>
      HoldsOwn(mem, Loads(e.segments)[i], e.file, a)
  }

  lemma LoadedRegionsHold(mem: Bytes, rs: seq<LoadedRegion>, e: Elf)
    requires Lists(rs, e.segments) && forall s :: s in e.segments && s.Load() ==> Loaded(mem, s, e.file)
    ensures RegionsHold(mem, rs, e)
  {
    var at := LoadsInOrder(e.segments);
    forall i, a: nat | 0 <= i < |rs| && rs[i].region.start <= a < rs[i].region.end
      ensures HoldsOwn(mem, Loads(e.segments)[i], e.file, a)
    {
      var s := Loads(e.segments)[i];
      assert Describes(rs[i], s) && s == e.segments[at[i]] && s.Load();
      assert Loaded(mem, s, e.file);
      assert Holds(mem, a, ByteAt(s, e.file, s.filesz, a));
    }
  }

  // ----- one segment ---------------------------------------------------------------------------

  ghost predicate Holds(mem: Bytes, a: nat, b: Byte) {
    a / PAGE in mem && |mem[a / PAGE]| == PAGE && mem[a / PAGE][a % PAGE] == b
  }

  /** The byte the segment's first n file bytes put at address a. */
  function ByteAt(s: Segment, file: seq<Byte>, n: nat, a: nat): Byte {
    if s.vaddr <= a < s.vaddr + n && s.offset + a - s.vaddr < |file| then file[s.offset + a - s.vaddr] else 0
  }

  /** The addresses lo up to hi hold what the first n bytes of the segment put there. */
  ghost predicate Spread(mem: Bytes, s: Segment, file: seq<Byte>, n: nat, lo: nat, hi: nat) {
    forall a: nat :: lo <= a < hi ==> Holds(mem, a, ByteAt(s, file, n, a))
  }

  /** Every byte of the segment is mapped and holds the file's byte, or zero past the file's part. */
  ghost predicate Loaded(mem: Bytes, s: Segment, file: seq<Byte>) {
    Spread(mem, s, file, s.filesz, s.vaddr, s.End())
  }

  /** The same for all the pages that were mapped for it. */
  ghost predicate Placed(mem: Bytes, s: Segment, file: seq<Byte>) {
    Spread(mem, s, file, s.filesz, s.First() * PAGE, s.Past() * PAGE)
  }

  /** mem' agrees with mem outside the pages lo up to hi. */
  ghost predicate SameOutside(mem: Bytes, mem': Bytes, lo: nat, hi: nat) {
    forall p: nat :: !(lo <= p < hi) ==> (p in mem' <==> p in mem) && (p in mem ==> mem'[p] == mem[p])
  }

  /** The pages lo up to hi are mapped and zero. */
  ghost predicate Cleared(mem: Bytes, lo: nat, hi: nat) {
    forall p: nat :: lo <= p < hi ==> p in mem && mem[p] == ZeroBytes()
  }

  lemma ClearedIsSpread(mem: Bytes, s: Segment, file: seq<Byte>)
    requires Cleared(mem, s.First(), s.Past())
    ensures Spread(mem, s, file, 0, s.First() * PAGE, s.Past() * PAGE)
  {
  }

  lemma SpreadOne(mem: Bytes, mem': Bytes, s: Segment, file: seq<Byte>, n: nat, lo: nat, hi: nat)
    requires s.offset + s.filesz <= |file| && n < s.filesz && Spread(mem, s, file, n, lo, hi)
    requires var a := s.vaddr + n;
      a / PAGE in mem && |mem[a / PAGE]| == PAGE && mem' == PutByte(mem, a, file[s.offset + n])
    ensures Spread(mem', s, file, n + 1, lo, hi)
  {
    var a, k := s.vaddr + n, n + 1;
    forall b: nat | lo <= b < hi ensures Holds(mem', b, ByteAt(s, file, k, b)) {
      assert Holds(mem, b, ByteAt(s, file, n, b));
      if b / PAGE == a / PAGE && b % PAGE == a % PAGE {
        assert b == a / PAGE * PAGE + a % PAGE;
      }
    }
  }

  // ----- all segments --------------------------------------------------------------------------

  /** The last of the segments that page p was mapped for, or -1. */
  function Cover(ss: seq<Segment>, p: nat): (k: int)
    ensures -1 <= k < |ss|
    ensures k >= 0 ==> ss[k].Covers(p)
    ensures forall j :: k < j < |ss| ==> !ss[j].Covers(p)
  {
    if ss == [] then -1
    else if ss[|ss| - 1].Covers(p) then |ss| - 1
    else Cover(ss[..|ss| - 1], p)
  }

  /** Page p holds what the segment that covered it last put there, or is as it was. */
  ghost predicate PageIs(mem0: Bytes, mem: Bytes, ss: seq<Segment>, file: seq<Byte>, p: nat) {
    var k := Cover(ss, p);
    if k < 0 then (p in mem <==> p in mem0) && (p in mem0 ==> mem[p] == mem0[p])
    else forall a: nat :: a / PAGE == p ==> Holds(mem, a, ByteAt(ss[k], file, ss[k].filesz, a))
  }

  ghost predicate Image(mem0: Bytes, mem: Bytes, ss: seq<Segment>, file: seq<Byte>) {
    forall p: nat :: PageIs(mem0, mem, ss, file, p)
  }

  lemma NothingLoaded(mem: Bytes, file: seq<Byte>)
    ensures Image(mem, mem, [], file)
  {
  }

  lemma CoverNext(ss: seq<Segment>, s: Segment, p: nat)
    ensures Cover(ss + [s], p) == if s.Covers(p) then |ss| else Cover(ss, p)
  {
    assert (ss + [s])[..|ss|] == ss;
  }

  lemma ImageStep(mem0: Bytes, mem: Bytes, mem': Bytes, ss: seq<Segment>, s: Segment, file: seq<Byte>)
    requires Image(mem0, mem, ss, file)
    requires if s.Load() then Placed(mem', s, file) && SameOutside(mem, mem', s.First(), s.Past()) else mem' == mem
    ensures Image(mem0, mem', ss + [s], file)
  {
    forall p: nat ensures PageIs(mem0, mem', ss + [s], file, p) {
      CoverNext(ss, s, p);
      assert PageIs(mem0, mem, ss, file, p);
      if s.Covers(p) {
        forall a: nat | a / PAGE == p ensures Holds(mem', a, ByteAt(s, file, s.filesz, a)) {
          assert s.First() * PAGE <= a < s.Past() * PAGE;
        }
      }
    }
  }

  const HEAP_PAGE: nat := HEAP_START / PAGE
  const STACK_PAGE: nat := STACK_START / PAGE

  /** What load_file leaves in memory. */
  ghost predicate LoadedImage(mem0: Bytes, mem: Bytes, e: Elf) {
    forall p: nat ::
      if p == HEAP_PAGE || p == STACK_PAGE then p in mem &&
        mem[p] == ZeroBytes() else PageIs(mem0, mem, e.segments, e.file, p)
  }

  lemma HeapAndStackLast(mem0: Bytes, mem: Bytes, mem': Bytes, e: Elf)
    requires Image(mem0, mem, e.segments, e.file) && mem' == mem[HEAP_PAGE := ZeroBytes()][STACK_PAGE := ZeroBytes()]
    ensures LoadedImage(mem0, mem', e)
  {
    forall p: nat ensures
      if p == HEAP_PAGE || p == STACK_PAGE then p in mem' &&
        mem'[p] == ZeroBytes() else PageIs(mem0, mem', e.segments, e.file, p)
    {
      assert PageIs(mem0, mem, e.segments, e.file, p);
    }
  }

  // ----- when is everything loaded? ------------------------------------------------------------

  /** The byte that ends up at an address some segment covers. */
  function FinalByte(e: Elf, a: nat): Byte {
    var p := a / PAGE;
    var k := Cover(e.segments, p);
    if p == HEAP_PAGE || p == STACK_PAGE || k < 0 then 0 else ByteAt(e.segments[k], e.file, e.segments[k].filesz, a)
  }

  /** Every byte of every loadable segment is what the last to map its page puts there. */
  ghost predicate Consistent(e: Elf) {
    forall s, a: nat :: s in e.segments && s.Load() && s.vaddr <= a < s.End() ==>
      ByteAt(s, e.file, s.filesz, a) == FinalByte(e, a)
  }

  lemma Final(mem0: Bytes, mem: Bytes, e: Elf, s: Segment, a: nat)
    requires LoadedImage(mem0, mem, e) && s in e.segments && s.Load() && s.vaddr <= a < s.End()
    ensures Holds(mem, a, FinalByte(e, a))
  {
    var p := a / PAGE;
    var i :| 0 <= i < |e.segments| && e.segments[i] == s;
    assert s.Covers(p);
    assert Cover(e.segments, p) >= i;
    if p != HEAP_PAGE && p != STACK_PAGE {
      assert PageIs(mem0, mem, e.segments, e.file, p);
    }
  }

  /** The loader gets every segment right exactly for consistent files. */
  lemma AllLoadedIff(mem0: Bytes, mem: Bytes, e: Elf)
    requires LoadedImage(mem0, mem, e)
    ensures (forall s :: s in e.segments && s.Load() ==> Loaded(mem, s, e.file)) <==> Consistent(e)
  {
    forall s, a: nat | s in e.segments && s.Load() && s.vaddr <= a < s.End() ensures Holds(mem, a, FinalByte(e, a)) {
      Final(mem0, mem, e, s, a);
    }
    if forall s :: s in e.segments && s.Load() ==> Loaded(mem, s, e.file) {
      forall s, a: nat | s in e.segments && s.Load() && s.vaddr <= a < s.End()
        ensures ByteAt(s, e.file, s.filesz, a) == FinalByte(e, a)
      {
        assert Loaded(mem, s, e.file);
        assert Holds(mem, a, ByteAt(s, e.file, s.filesz, a));
      }
    }
    if Consistent(e) {
      forall s | s in e.segments && s.Load() ensures Loaded(mem, s, e.file) {
        forall a: nat | s.vaddr <= a < s.End() ensures Holds(mem, a, ByteAt(s, e.file, s.filesz, a)) {
          assert ByteAt(s, e.file, s.filesz, a) == FinalByte(e, a);
        }
      }
    }
  }

  /** What the format promises: loadable segments in ascending order on pages of their own; and what
      the kernel expects of its programs: all of them below the heap. */
  ghost predicate WellFormed(e: Elf) {
    && (forall s :: s in e.segments && s.Load() ==> s.End() <= HEAP_START)
    && (forall i, j :: 0 <= i < j < |e.segments| && e.segments[i].Load() && e.segments[j].Load() ==>
        e.segments[i].End() <= e.segments[j].First() * PAGE)
  }

  /** Such files are consistent: each spare page is mapped over by the next segment, if that starts there. */
  lemma WellFormedIsConsistent(e: Elf)
    requires WellFormed(e)
    ensures Consistent(e)
  {
    forall s, a: nat | s in e.segments && s.Load() && s.vaddr <= a < s.End()
      ensures ByteAt(s, e.file, s.filesz, a) == FinalByte(e, a)
    {
      var p := a / PAGE;
      var i :| 0 <= i < |e.segments| && e.segments[i] == s;
      assert s.Covers(p) && p < HEAP_PAGE;
      forall j | i < j < |e.segments| ensures !e.segments[j].Covers(p) {
        assert e.segments[j].Load() ==> a < e.segments[j].First() * PAGE;
      }
    }
  }

  /** Two segments on pages of their own, the upper one first: its byte is lost to the spare page of
      the lower one, whatever was in memory. */
  lemma DescendingOrderLoses(mem0: Bytes, mem: Bytes)
    requires LoadedImage(mem0, mem, Descending())
    ensures var s := Descending().segments[0];
      && Descending().Sound() && Descending().segments[1].End() <= s.First() * PAGE
      && ByteAt(s, Descending().file, s.filesz, s.vaddr) == 7 && Holds(mem, s.vaddr, 0) &&
        !Loaded(mem, s, Descending().file)
  {
    var s := Descending().segments[0];
    Final(mem0, mem, Descending(), s, s.vaddr);
    assert Descending().segments[1].Covers(2);
    assert Cover(Descending().segments, 2) == 1;
    assert Holds(mem, s.vaddr, 0);
  }

  function Descending(): Elf {
    Elf(0, [Segment(PT_LOAD, READ + WRITE, 0x2000, 0, 1, 1), Segment(PT_LOAD, READ + EXECUTE, 0x1000, 0, 1, 1)], [7])
  }
}
