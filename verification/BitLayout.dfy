/**
 The words of module PageTables are 64-bit page-table entries taken apart.  The lemmas here
 tie each mask and shift of the paging code to what it does to the parts.
 */
module BitLayout {
  import opened PageTables

  const MASK: bv64 := 0xffff_ffff_ffff_f000
  const GET_FLAGS: bv64 := 0xfff
  const COW_FLAG: bv64 := 0x200
  const TURN_OFF_RW: bv64 := 0xffff_ffff_ffff_fffd

  function DecodeFlags(w: bv64): Flags {
    Flags(w & 1 != 0, w & 2 != 0, w & 4 != 0, w & 0x200 != 0, (w & 0xdf8) as nat)
  }

  function Decode(w: bv64): Word {
    Word((w >> 12) as nat, DecodeFlags(w))
  }

  lemma Constants()
    ensures Decode(0) == ZERO && DecodeFlags(3) == KERNEL_RW && DecodeFlags(7) == USER_RW
  {
  }

  /** `address | flags` of a page-aligned address and twelve flag bits, and back. */
  lemma EntryBuilt(pa: bv64, fl: bv64)
    requires pa & GET_FLAGS == 0 && fl & MASK == 0
    ensures Decode(pa | fl) == Word((pa >> 12) as nat, DecodeFlags(fl))
    ensures (pa | fl) & MASK == pa && (pa | fl) & GET_FLAGS == fl
  {
  }

  /** The present test and the copy-on-write test of the fault handler. */
  lemma Tests(w: bv64)
    ensures w & 1 == 1 <==> Decode(w).Present()
    ensures ((w & GET_FLAGS) >> 9) & 1 == 1 <==> Decode(w).flags.cow
  {
  }

  /** What fork does to a leaf. */
  lemma CowBits(w: bv64)
    ensures var w' := (w & TURN_OFF_RW) | COW_FLAG;
      Decode(w') == CowMarked(Decode(w))
  {
  }
}
