/** Looking a name up in the ustar archive the kernel carries. */
module Tar {
  import opened Numbers

  const BLOCK: nat := 512
  const SIZE_AT: nat := 124
  const TYPE_AT: nat := 156

  datatype Option<T> = None | Some(value: T)

  datatype Entry = Entry(name: seq<Byte>, size: seq<Byte>, kind: seq<Byte>, content: seq<Byte>)

  // ----- the archive --------------------------------------------------------------------------

  /** A terminated string at offset o. */
  ghost predicate StringAt(tar: seq<Byte>, o: nat, s: seq<Byte>) {
    o + |s| < |tar| && tar[o..o + |s|] == s && tar[o + |s|] == NUL && NUL !in s
  }

  /** The blocks a file of n bytes fills. */
  function Blocks(n: nat): nat { (n + BLOCK - 1) / BLOCK }

  /** The header and content of e start at offset o; kind is the type flag together with the link
      name, which follows it without a terminator in between. */
  ghost predicate EntryAt(tar: seq<Byte>, o: nat, e: Entry) {
    && o + BLOCK * (1 + Blocks(|e.content|)) <= |tar|
    && |e.name| > 0 && StringAt(tar, o, e.name)
    && StringAt(tar, o + SIZE_AT, e.size) && OctalDigits(e.size) && Value(e.size, 10) <= INT_MAX - DIGIT
    && Value(e.size, 8) == |e.content|
    && StringAt(tar, o + TYPE_AT, e.kind) && KindOf(e) != Overflow
    && tar[o + BLOCK..o + BLOCK + |e.content|] == e.content
    && (forall i :: o + BLOCK + |e.content| <= i < Next(o, e) ==> tar[i] == NUL)
  }

  /** The entries es follow one another from o on, up to an empty name or the end. */
  ghost predicate Archive(tar: seq<Byte>, o: nat, es: seq<Entry>)
    decreases |es|
  {
    if es == [] then o == |tar| || (o < |tar| && tar[o] == NUL)
    else EntryAt(tar, o, es[0]) && Archive(tar, Next(o, es[0]), es[1..])
  }

  function Next(o: nat, e: Entry): nat { o + BLOCK * (1 + Blocks(|e.content|)) }

  /** The offset of entry k's header. */
  function Offset(es: seq<Entry>, k: nat): nat
    requires k <= |es|
  {
    if k == 0 then 0 else Next(Offset(es, k - 1), es[k - 1])
  }

  /** The walk's notion of an entry's type: its flag and link name as one number. */
  function KindOf(e: Entry): Parsed { Reading(e.kind + [NUL]) }

  predicate Matches(e: Entry, name: seq<Byte>, kind: int) { e.name == name && KindOf(e) == Int(kind) }

  /** The first matching entry. */
  ghost predicate First(es: seq<Entry>, name: seq<Byte>, kind: int, k: nat) {
    k < |es| && Matches(es[k], name, kind) && forall j :: 0 <= j < k ==> !Matches(es[j], name, kind)
  }

  // ----- the step -------------------------------------------------------------------------------

  /** How many blocks the walk moves on. */
  function Step(size: nat): nat { if size > 0 then size / BLOCK + 2 else 1 }

  /** The walk reaches the next header exactly when the file is empty or does not end on a block
      boundary; otherwise it overshoots by one block. */
  lemma StepExactIff(size: nat)
    ensures Step(size) == 1 + Blocks(size) <==> size == 0 || size % BLOCK != 0
    ensures size > 0 && size % BLOCK == 0 ==> Step(size) == 2 + Blocks(size)
  {
  }

  predicate Exact(e: Entry) { |e.content| == 0 || |e.content| % BLOCK != 0 }

  // ----- strings in memory -----------------------------------------------------------------------

  /** kstrcmp(name, tar + o) == 0. */
  method SameString(name: seq<Byte>, tar: seq<Byte>, o: nat, ghost s: seq<Byte>) returns (same: bool)
    requires NUL !in name && StringAt(tar, o, s)
    ensures same <==> name == s
  {
    var i := 0;
    assert forall j :: 0 <= j < |s| ==> tar[o + j] == tar[o..o + |s|][j] == s[j];
    while i < |name| && tar[o + i] != NUL && name[i] == tar[o + i]
      invariant 0 <= i <= |name| && i <= |s| && name[..i] == s[..i]
    {
      i := i + 1;
    }
    same := (if i < |name| then name[i] else NUL) == tar[o + i];
    if same {
      assert i == |s| && i == |name|;
    }
  }

  /** The part of a string behind its terminator has no influence. */
  lemma {:induction false} ReadingStops(s: seq<Byte>, rest: seq<Byte>)
    requires NUL !in s
    ensures Reading(s + [NUL] + rest) == Reading(s + [NUL])
  {
    var t, u := s + [NUL], s + [NUL] + rest;
    assert forall i :: 0 <= i < |t| ==> u[i] == t[i];
    assert Body(u) == Body(t) + rest;
    var k := Run(Body(t));
    assert Body(t)[|Body(t)| - 1] == NUL;
    RunSame(Body(t), rest);
    assert (Body(t) + rest)[..k] == Body(t)[..k];
  }

  lemma RunSame(s: seq<Byte>, rest: seq<Byte>)
    requires Run(s) < |s|
    ensures Run(s + rest) == Run(s)
  {
    var k, u := Run(s), s + rest;
    assert forall i :: 0 <= i < |s| ==> u[i] == s[i];
    assert !IsDigit(u[k]);
    assert Run(u) <= k;
  }

  /** atoi of the string at offset o. */
  method NumberAt(tar: seq<Byte>, o: nat, ghost s: seq<Byte>) returns (r: Parsed)
    requires StringAt(tar, o, s)
    ensures r == Reading(s + [NUL])
  {
    assert tar[o..] == s + [NUL] + tar[o + |s| + 1..];
    ReadingStops(s, tar[o + |s| + 1..]);
    r := Atoi(tar[o..]);
  }

  /** An entry passes for the regular file 0 exactly when its flag and link name are not one number,
      or are zero: a symbolic link passes unless its link name is all digits. */
  lemma LooksRegularIff(kind: seq<Byte>)
    requires NUL !in kind && !Signed(kind) && Reading(kind + [NUL]) != Overflow
    ensures Reading(kind + [NUL]) == Int(0) <==> Run(kind) < |kind| || Value(kind, 10) == 0
  {
  }

  /** A flag without a link name means what the format says: 5 is a directory and nothing else is. */
  lemma DirectoryIff(c: Byte)
    requires c != NUL
    ensures Reading([c] + [NUL]) == Int(5) <==> c == DIGIT + 5
  {
    var t := [c] + [NUL];
    if IsDigit(c) {
      assert Digits([c]) && Value([c], 10) == c - DIGIT by { assert [c][..0] == []; }
      DigitsRead([c], []);
      assert [c] + [NUL] + [] == t == Body(t);
    } else if c == PLUS || c == MINUS {
      assert Body(t) == [] + [NUL] + [];
      DigitsRead([], []);
    } else {
      assert Body(t) == t && t[0] == c && Run(t) == 0;
    }
  }

  // ----- the walk ------------------------------------------------------------------------------

  lemma {:induction false} SizeRead(e: Entry)
    requires OctalDigits(e.size) && Value(e.size, 10) <= INT_MAX - DIGIT
    ensures Reading(e.size + [NUL]) == Int(Value(e.size, 10)) && Octal(Value(e.size, 10)) == Value(e.size, 8)
  {
    var t := e.size + [NUL];
    OctalReading(e.size);
    assert Digits(e.size);
    DigitsRead(e.size, []);
    assert e.size + [NUL] + [] == t == Body(t);
  }

  /** The part of the walk that finds where the next header should be. */
  method MoveOn(tar: seq<Byte>, o: nat, ghost e: Entry) returns (next: nat)
    requires EntryAt(tar, o, e)
    ensures next == Next(o, e) <==> Exact(e)
    ensures !Exact(e) ==> next == Next(o, e) + BLOCK
  {
    SizeRead(e);
    var size := NumberAt(tar, o + SIZE_AT, e.size);
    var n := OctalToDecimal(size.value);
    StepExactIff(n);
    hide Value, Octal, Blocks;
    next := o + BLOCK * (if n > 0 then n / BLOCK + 2 else 1);
  }

  /** Every entry the walk has to step over is one whose step is exact. */
  ghost predicate PassesExact(es: seq<Entry>, name: seq<Byte>, kind: int) {
    forall j :: 0 <= j < |es| && (forall i :: 0 <= i <= j ==> !Matches(es[i], name, kind)) ==> Exact(es[j])
  }

  /** get_file_binary with kind 0, dir_exists with kind 5. */
  method Lookup(tar: seq<Byte>, name: seq<Byte>, kind: int, ghost es: seq<Entry>) returns (r: Option<nat>, ghost k: nat)
    requires |tar| > 0 && NUL !in name && Archive(tar, 0, es) && PassesExact(es, name, kind)
    ensures r.None? ==> forall e :: e in es ==> !Matches(e, name, kind)
    ensures r.Some? ==> First(es, name, kind, k) && r.value == Offset(es, k) + BLOCK
    ensures r.Some? ==> r.value + |es[k].content| <= |tar| && tar[r.value..r.value + |es[k].content|] == es[k].content
  {
    hide KindOf, Next, Exact, Archive, EntryAt, StringAt;
    var s := 0;
    k := 0;
    assert es[0..] == es;
    while true
      invariant s < |tar| && k <= |es| && s == Offset(es, k) && Archive(tar, s, es[k..])
      invariant forall j :: 0 <= j < k ==> !Matches(es[j], name, kind)
      decreases |es| - k
    {
      HeaderIff(tar, s, es[k..]);
      if tar[s] == NUL { break; }
      ghost var e := es[k];
      EntryParts(tar, s, e);
      var same := SameString(name, tar, s, e.name);
      if same {
        var number := ReadKind(tar, s, e);
        if number == Int(kind) {
          return Some(s + BLOCK), k;
        }
      }
      s := MoveOn(tar, s, e);
      assert es[k..][1..] == es[k + 1..];
      k := k + 1;
      if s >= |tar| {
        HeaderIff(tar, s, es[k..]);
        break;
      }
    }
    r := None;
  }

  method ReadKind(tar: seq<Byte>, o: nat, ghost e: Entry) returns (r: Parsed)
    requires EntryAt(tar, o, e)
    ensures r == KindOf(e)
  {
    r := NumberAt(tar, o + TYPE_AT, e.kind);
  }

  lemma EntryParts(tar: seq<Byte>, o: nat, e: Entry)
    requires EntryAt(tar, o, e)
    ensures StringAt(tar, o, e.name)
    ensures o + BLOCK + |e.content| <= Next(o, e) <= |tar| && tar[o + BLOCK..o + BLOCK + |e.content|] == e.content
    ensures o + BLOCK + |e.content| < Next(o, e) ==> tar[o + BLOCK + |e.content|] == NUL
    ensures o + BLOCK + |e.content| == Next(o, e) <==> |e.content| % BLOCK == 0
    ensures |e.name| > 0
  {
    hide OctalDigits, Value, KindOf;
    BlockEnd(|e.content|);
  }

  lemma BlockEnd(n: nat)
    ensures BLOCK * Blocks(n) >= n
    ensures BLOCK * Blocks(n) == n <==> n % BLOCK == 0
  {
  }

  /** A non-empty name at o means another entry, and the archive's end means none. */
  lemma HeaderIff(tar: seq<Byte>, o: nat, es: seq<Entry>)
    requires Archive(tar, o, es)
    ensures es != [] <==> o < |tar| && tar[o] != NUL
    ensures es != [] ==> EntryAt(tar, o, es[0]) && Archive(tar, Next(o, es[0]), es[1..])
  {
    hide OctalDigits, Value, KindOf, Blocks;
    if es != [] {
      var n := es[0].name;
      assert tar[o] == tar[o..o + |n|][0] == n[0];
    }
  }

  /** Entry k of an archive lies at its offset, and what follows it there too. */
  lemma {:induction false} ArchiveAt(tar: seq<Byte>, es: seq<Entry>, k: nat)
    requires Archive(tar, 0, es) && k <= |es|
    ensures Archive(tar, Offset(es, k), es[k..])
  {
    if k == 0 {
      assert es[0..] == es;
    } else {
      ArchiveAt(tar, es, k - 1);
      hide EntryAt, Next;
      assert es[k - 1..][1..] == es[k..];
    }
  }
}
