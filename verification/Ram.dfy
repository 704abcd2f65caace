/** Physical memory as the kernel reaches it through its direct map: pages of 512 words. */
module PhysicalMemory {
  import opened PageTables

  class Ram {
    const words: array2<Word>
    ghost var m: Mem

    ghost predicate Valid()
      reads this, words
    {
      && words.Length1 == ENTRIES
      && |m| == words.Length0
      && Sized(m)
      && forall p, i :: 0 <= p < |m| && 0 <= i < ENTRIES ==> words[p, i] == m[p][i]
    }

    constructor (pages: nat)
      ensures Valid() && fresh(words)
      ensures |m| == pages && forall p :: 0 <= p < pages ==> m[p] == ZeroPage()
    {
      words := new Word[pages, ENTRIES]((_, _) => ZERO);
      m := seq(pages, _ => ZeroPage());
    }

    method Read(p: nat, i: nat) returns (w: Word)
      requires Valid() && p < |m| && i < ENTRIES
      ensures w == At(m, p, i)
    {
      w := words[p, i];
    }

    method Write(p: nat, i: nat, w: Word)
      requires Valid() && p < |m| && i < ENTRIES
      modifies this, words
      ensures Valid() && m == Put(old(m), p, i, w)
    {
      words[p, i] := w;
      m := Put(m, p, i, w);
    }

    /** memset of one page to zero. */
    method Clear(p: nat)
      requires Valid() && p < |m|
      modifies this, words
      ensures Valid() && m == old(m)[p := ZeroPage()]
    {
      ghost var before := m;
      var i := 0;
      while i < ENTRIES
        invariant i <= ENTRIES && Valid() && |m| == |before|
        invariant forall q :: 0 <= q < |m| && q != p ==> m[q] == before[q]
        invariant forall k :: 0 <= k < i ==> m[p][k] == ZERO
      {
        Write(p, i, ZERO);
        i := i + 1;
      }
      assert m[p] == ZeroPage();
    }

    /** memcpy of one page. */
    method CopyPage(dst: nat, src: nat)
      requires Valid() && dst < |m| && src < |m|
      modifies this, words
      ensures Valid() && m == old(m)[dst := old(m)[src]]
    {
      ghost var before := m;
      var i := 0;
      while i < ENTRIES
        invariant i <= ENTRIES && Valid() && |m| == |before|
        invariant forall p :: 0 <= p < |m| && p != dst ==> m[p] == before[p]
        invariant forall k :: 0 <= k < ENTRIES ==> m[dst][k] == before[if k < i then src else dst][k]
      {
        var w := Read(src, i);
        Write(dst, i, w);
        i := i + 1;
      }
      assert m[dst] == before[src];
    }
  }
}
