/** Virtual addresses and the table indices they select. */
module Addresses {
  import opened PageTables

  const PAGE: nat := 0x1000

  /** kernmem - physbase of the linker script: physical page p appears at KERNEL_BASE + p * 4096. */
  const KERNEL_BASE: nat := 0xffff_ffff_8000_0000

  /** User addresses end here. */
  const USER_END: nat := 0x8000_0000_0000

  /** The direct map ends where the address space does. */
  const KERNEL_PAGES: nat := 0x80000

  function PageOf(va: nat): (v: VPage)
    ensures v.Ok()
  {
    VPage(va / 0x80_0000_0000 % 512, va / 0x4000_0000 % 512, va / 0x20_0000 % 512, va / 0x1000 % 512)
  }

  function KernelPage(p: nat): VPage {
    PageOf(KERNEL_BASE + p * PAGE)
  }

  /** Addresses that select the same indices and agree above bit 48 lie in the same page. */
  lemma PageOfInjective(va: nat, va': nat)
    requires PageOf(va) == PageOf(va') && va / 0x1_0000_0000_0000 == va' / 0x1_0000_0000_0000
    ensures va / PAGE == va' / PAGE
  {
    Digits(va);
    Digits(va');
  }

  lemma Digits(va: nat)
    ensures var v := PageOf(va);
      va / PAGE == v.d + 512 * (v.c + 512 * (v.b + 512 * (v.a + 512 * (va / 0x1_0000_0000_0000))))
  {
    assert va / 0x20_0000 == va / 0x1000 / 512;
    assert va / 0x4000_0000 == va / 0x20_0000 / 512;
    assert va / 0x80_0000_0000 == va / 0x4000_0000 / 512;
    assert va / 0x1_0000_0000_0000 == va / 0x80_0000_0000 / 512;
  }

  /** User addresses stay below the kernel's slot. */
  lemma UserPage(va: nat)
    requires va < USER_END
    ensures PageOf(va).User()
  {
  }

  /** The direct map lies below slot 511, one entry per physical page. */
  lemma KernelPageAt(p: nat)
    requires p < KERNEL_PAGES
    ensures KernelPage(p) == VPage(KERNEL_SLOT, 510 + p / 0x40000, p / 512 % 512, p % 512)
  {
    var va := KERNEL_BASE + p * PAGE;
    assert va / 0x1000 == 0xf_ffff_fff8_0000 + p;
    assert va / 0x20_0000 == va / 0x1000 / 512 == 0x7ff_ffff_fc00 + p / 512;
    assert va / 0x4000_0000 == va / 0x20_0000 / 512 == 0x3_ffff_fffe + p / 512 / 512;
    assert va / 0x80_0000_0000 == va / 0x4000_0000 / 512 == 0x1ff_ffff;
    assert p / 512 / 512 == p / 0x40000;
  }

  lemma KernelPageInjective(p: nat, q: nat)
    requires p < KERNEL_PAGES && q < KERNEL_PAGES && KernelPage(p) == KernelPage(q)
    ensures p == q
  {
    KernelPageAt(p);
    KernelPageAt(q);
  }
}
