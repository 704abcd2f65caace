/** User memory byte by byte: the words of a page, taken apart into the eight bytes each holds. */
module UserBytes {
  import opened PageTables
  import opened Addresses
  import opened Numbers
  import C = Cow

  // ----- a word and its bytes -----------------------------------------------------------------

  /** The number a little-endian sequence of bytes stands for. */
  function FromBytes(bs: seq<Byte>): nat {
    if bs == [] then 0 else bs[0] + 256 * FromBytes(bs[1..])
  }

  function ToBytes(v: nat, n: nat): (bs: seq<Byte>)
    ensures |bs| == n
  {
    if n == 0 then [] else [v % 256] + ToBytes(v / 256, n - 1)
  }

  lemma {:induction false} BytesRoundTrip(bs: seq<Byte>)
    ensures ToBytes(FromBytes(bs), |bs|) == bs
  {
    if bs != [] {
      BytesRoundTrip(bs[1..]);
      var rest := FromBytes(bs[1..]);
      assert (bs[0] + 256 * rest) % 256 == bs[0] && (bs[0] + 256 * rest) / 256 == rest;
      assert bs == [bs[0]] + bs[1..];
    }
  }

  lemma {:induction false} ZeroBytesOfZero(n: nat)
    ensures forall j :: 0 <= j < n ==> ToBytes(0, n)[j] == 0
  {
    if n > 0 {
      ZeroBytesOfZero(n - 1);
    }
  }

  function Bit(b: bool, weight: nat): nat { if b then weight else 0 }

  /** A word as a number: the frame above bit 12, the flags below. */
  function NumberOf(w: Word): nat {
    w.frame * 4096 + Bit(w.flags.present, 1) + Bit(w.flags.writable, 2) + Bit(w.flags.user, 4) + Bit(w.flags.cow,
      512) + w.flags.rest
  }

  function WordOf(v: nat): Word {
    var low := v % 4096;
    var p, w, u, c := low % 2 == 1, low / 2 % 2 == 1, low / 4 % 2 == 1, low / 512 % 2 == 1;
    BitsFit(low);
    Word(v / 4096, Flags(p, w, u, c, low - Bit(p, 1) - Bit(w, 2) - Bit(u, 4) - Bit(c, 512)))
  }

  lemma BitsFit(low: nat)
    ensures low >= Bit(low % 2 == 1, 1) + Bit(low / 2 % 2 == 1, 2) + Bit(low / 4 % 2 == 1, 4) + Bit(low / 512 % 2 == 1,
      512)
  {
    var a, b, c := low / 2, low / 4, low / 512;
    assert low == 2 * a + low % 2 && a == 2 * b + a % 2;
    assert b == 128 * c + b % 128;
    assert b % 2 == 1 ==> b % 128 >= 1;
  }

  lemma WordRoundTrip(v: nat)
    ensures NumberOf(WordOf(v)) == v
  {
  }

  /** w with byte j replaced. */
  function WithByte(w: Word, j: nat, b: Byte): Word
    requires j < 8
  {
    WordOf(FromBytes(ToBytes(NumberOf(w), 8)[j := b]))
  }

  lemma ByteReplaced(w: Word, j: nat, b: Byte)
    requires j < 8
    ensures ToBytes(NumberOf(WithByte(w, j, b)), 8) == ToBytes(NumberOf(w), 8)[j := b]
  {
    var bs := ToBytes(NumberOf(w), 8)[j := b];
    WordRoundTrip(FromBytes(bs));
    BytesRoundTrip(bs);
  }

  // ----- pages ----------------------------------------------------------------------------------

  function PageBytes(page: Page): (bs: seq<Byte>)
    requires |page| == ENTRIES
    ensures |bs| == PAGE && forall i :: 0 <= i < PAGE ==> bs[i] == ToBytes(NumberOf(page[i / 8]), 8)[i % 8]
  {
    seq(PAGE, i requires 0 <= i < PAGE => ToBytes(NumberOf(page[i / 8]), 8)[i % 8])
  }

  function ZeroBytes(): (z: seq<Byte>)
    ensures |z| == PAGE && forall i :: 0 <= i < PAGE ==> z[i] == 0
  {
    seq(PAGE, _ => 0)
  }

  lemma ZeroPageBytes()
    ensures PageBytes(ZeroPage()) == ZeroBytes()
  {
    ZeroBytesOfZero(8);
    assert NumberOf(ZERO) == 0;
  }

  /** Replacing one byte of one word replaces one byte of the page. */
  lemma PageByteReplaced(page: Page, o: nat, b: Byte)
    requires |page| == ENTRIES && o < PAGE
    ensures PageBytes(page[o / 8 := WithByte(page[o / 8], o % 8, b)]) == PageBytes(page)[o := b]
  {
    var page' := page[o / 8 := WithByte(page[o / 8], o % 8, b)];
    ByteReplaced(page[o / 8], o % 8, b);
    forall i | 0 <= i < PAGE ensures PageBytes(page')[i] == PageBytes(page)[o := b][i] {
      if i / 8 == o / 8 && i % 8 == o % 8 {
        assert i == o;
      }
    }
  }

  // ----- address spaces -------------------------------------------------------------------------

  /** The mapped pages of one address space, by page number. */
  type Bytes = imap<nat, seq<Byte>>

  /** Memory with byte b at address a. */
  ghost function PutByte(mem: Bytes, a: nat, b: Byte): Bytes
    requires a / PAGE in mem && |mem[a / PAGE]| == PAGE
  {
    var page: seq<Byte> := mem[a / PAGE][a % PAGE := b];
    mem[a / PAGE := page]
  }

  function SlotOf(r: nat, p: nat): C.Slot { C.Slot(r, PageOf(p * PAGE)) }

  ghost predicate WholePaged(v: C.View) { forall s :: s in v ==> |v[s]| == ENTRIES }

  ghost function BytesOf(v: C.View, r: nat): Bytes
    requires WholePaged(v)
  {
    imap p: nat | p * PAGE < USER_END && SlotOf(r, p) in v :: PageBytes(v[SlotOf(r, p)])
  }

  lemma ViewSized(vm: C.Vm)
    requires C.Ok(vm)
    ensures WholePaged(C.ViewOf(vm))
  {
  }

  lemma SlotOfInjective(r: nat, p: nat, q: nat)
    requires p * PAGE < USER_END && q * PAGE < USER_END && SlotOf(r, p) == SlotOf(r, q)
    ensures p == q
  {
    hide PageOf;
    PageOfInjective(p * PAGE, q * PAGE);
  }

  /** Changing what one page holds changes that page. */
  lemma BytesChanged(v: C.View, r: nat, p: nat, page: Page)
    requires WholePaged(v) && |page| == ENTRIES && p * PAGE < USER_END
    ensures WholePaged(v[SlotOf(r, p) := page])
    ensures BytesOf(v[SlotOf(r, p) := page], r) == BytesOf(v, r)[p := PageBytes(page)]
  {
    hide SlotOf, PageBytes;
    var b, b' := BytesOf(v, r)[p := PageBytes(page)], BytesOf(v[SlotOf(r, p) := page], r);
    forall q: nat ensures (q in b' <==> q in b) && (q in b ==> b'[q] == b[q]) {
      if q != p && q * PAGE < USER_END && SlotOf(r, q) == SlotOf(r, p) {
        SlotOfInjective(r, q, p);
      }
    }
  }
}
