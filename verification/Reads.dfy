/** Reading a file through a descriptor, in pieces of any size. */
module Reads {
  import opened Numbers
  import Tar

  const EOF: Byte := 255  // (char) -1

  predicate Stops(b: Byte) { b == NUL || b == EOF }

  predicate Ends(file: seq<Byte>) { exists i :: 0 <= i < |file| && Stops(file[i]) }

  /** The length of the readable part of a file: up to the first 0 or 0xFF byte. */
  function Length(file: seq<Byte>): (n: nat)
    requires Ends(file)
    ensures n < |file| && Stops(file[n]) && forall i :: 0 <= i < n ==> !Stops(file[i])
  {
    if Stops(file[0]) then 0
    else
      assert Ends(file[1..]) by {
        var i :| 0 <= i < |file| && Stops(file[i]);
        assert Stops(file[1..][i - 1]);
      }
      1 + Length(file[1..])
  }

  function Least(a: int, b: int): int { if a < b then a else b }

  /** The bytes one read of len bytes delivers, starting at offset. */
  function Piece(file: seq<Byte>, offset: nat, len: int): seq<Byte>
    requires Ends(file) && offset <= Length(file)
  {
    if len <= 0 then [] else file[offset..offset + Least(len, Length(file) - offset)]
  }

  lemma PieceIs(file: seq<Byte>, offset: nat, len: int)
    requires Ends(file) && offset <= Length(file)
    ensures var p := Piece(file, offset, len);
      offset + |p| <= Length(file) && p == file[offset..offset + |p|] &&
        |p| == if len > 0 then Least(len, Length(file) - offset) else 0
  {
  }

  /** The bytes a sequence of reads delivers. */
  function Pieces(file: seq<Byte>, offset: nat, lens: seq<int>): seq<Byte>
    requires Ends(file) && offset <= Length(file)
    decreases |lens|
  {
    if lens == [] then []
    else
      var p := Piece(file, offset, lens[0]);
      p + Pieces(file, offset + |p|, lens[1..])
  }

  /** What the lengths ask for in all; a negative length asks for nothing. */
  function Total(lens: seq<int>): nat {
    if lens == [] then 0 else (if lens[0] > 0 then lens[0] else 0) + Total(lens[1..])
  }

  lemma Join(file: seq<Byte>, a: nat, b: nat, c: nat)
    requires a <= b <= c <= |file|
    ensures file[a..b] + file[b..c] == file[a..c]
  {
  }

  lemma PiecesStep(file: seq<Byte>, offset: nat, lens: seq<int>)
    requires Ends(file) && offset <= Length(file)
    ensures lens == [] ==> Pieces(file, offset, lens) == [] && Total(lens) == 0
    ensures lens != [] ==>
      var p := Piece(file, offset, lens[0]);
      && offset + |p| <= Length(file) && |p| == (if lens[0] > 0 then Least(lens[0], Length(file) - offset) else 0)
      && Pieces(file, offset, lens) == file[offset..offset + |p|] + Pieces(file, offset + |p|, lens[1..])
      && Total(lens) == (if lens[0] > 0 then lens[0] else 0) + Total(lens[1..])
  {
    hide Length, Piece, Ends;
    if lens != [] {
      PieceIs(file, offset, lens[0]);
    }
  }

  /** However the reads are cut, together they deliver the readable part in order. */
  lemma {:induction false} ChunkingDoesNotMatter(file: seq<Byte>, offset: nat, lens: seq<int>)
    requires Ends(file) && offset <= Length(file)
    ensures Pieces(file, offset, lens) == file[offset..offset + Least(Total(lens), Length(file) - offset)]
    decreases |lens|
  {
    hide Length, Piece, Pieces, Total, Ends;
    PiecesStep(file, offset, lens);
    if lens != [] {
      var b := offset + |Piece(file, offset, lens[0])|;
      ChunkingDoesNotMatter(file, b, lens[1..]);
      Join(file, offset, b, b + Least(Total(lens[1..]), Length(file) - b));
    }
  }

  // ----- whole files ---------------------------------------------------------------------------

  /** Neither byte that ends a read occurs. */
  predicate Clean(s: seq<Byte>) { forall i :: 0 <= i < |s| ==> !Stops(s[i]) }

  /** What is readable of a content and whatever lies behind it is the content exactly when it is clean
      and a byte that ends a read comes next. */
  lemma WholeFileIff(content: seq<Byte>, rest: seq<Byte>)
    requires Ends(content + rest)
    ensures Length(content + rest) == |content| <==> Clean(content) && |rest| > 0 && Stops(rest[0])
  {
    var file := content + rest;
    assert forall i :: 0 <= i < |content| ==> file[i] == content[i];
    assert |rest| > 0 ==> file[|content|] == rest[0];
  }

  /** In the archive that byte is there if the content does not fill its last block; if it does, or is
      empty, the next block decides. */
  lemma EntryWholeIff(tar: seq<Byte>, o: nat, e: Tar.Entry)
    requires Tar.EntryAt(tar, o, e) && o + Tar.BLOCK <= |tar| && Ends(tar[o + Tar.BLOCK..])
    ensures Length(tar[o + Tar.BLOCK..]) == |e.content| <==>
      Clean(e.content) && (|e.content| % Tar.BLOCK != 0 || (Tar.Next(o, e) < |tar| && Stops(tar[Tar.Next(o, e)])))
  {
    hide Tar.EntryAt, Tar.Next, Tar.StringAt, Length, Ends, Clean;
    Tar.EntryParts(tar, o, e);
    var start := o + Tar.BLOCK;
    SplitAt(tar, start, start + |e.content|, e.content);
    WholeFileIff(e.content, tar[start + |e.content|..]);
  }

  /** What a descriptor on entry k reads from. */
  function FileAt(tar: seq<Byte>, es: seq<Tar.Entry>, k: nat): seq<Byte>
    requires k < |es|
  {
    var start := Tar.Offset(es, k) + Tar.BLOCK;
    if start <= |tar| then tar[start..] else []
  }

  /** So entry k of an archive is delivered whole exactly when it is clean and either does not end on a
      block boundary, or is the last before the end mark, or is followed by a name that starts with 0xFF. */
  lemma ArchiveWholeIff(tar: seq<Byte>, es: seq<Tar.Entry>, k: nat)
    requires Tar.Archive(tar, 0, es) && k < |es| && Ends(FileAt(tar, es, k))
    ensures Length(FileAt(tar, es, k)) == |es[k].content| <==>
      Clean(es[k].content) &&
      (|es[k].content| % Tar.BLOCK != 0 ||
       if k + 1 < |es| then [EOF] <= es[k + 1].name else Tar.Offset(es, k + 1) < |tar|)
  {
    hide Tar.EntryAt, Tar.Archive, Tar.Next, Length, Ends, Clean;
    var o, e := Tar.Offset(es, k), es[k];
    Tar.ArchiveAt(tar, es, k);
    Tar.ArchiveAt(tar, es, k + 1);
    Tar.HeaderIff(tar, o, es[k..]);
    Tar.EntryParts(tar, o, e);
    EntryWholeIff(tar, o, e);
    FirstByte(tar, Tar.Offset(es, k + 1), es[k + 1..]);
  }

  lemma FirstByte(tar: seq<Byte>, o: nat, es: seq<Tar.Entry>)
    requires Tar.Archive(tar, o, es)
    ensures es != [] ==> o < |tar| && (Stops(tar[o]) <==> [EOF] <= es[0].name)
    ensures es == [] && o < |tar| ==> tar[o] == NUL
  {
    Tar.HeaderIff(tar, o, es);
    if es != [] {
      Tar.EntryParts(tar, o, es[0]);
      hide Tar.EntryAt;
      assert tar[o] == tar[o..o + |es[0].name|][0];
    }
  }

  /** An empty file, or one that fills its last block, is read on into the next header: what comes
      after the content is the next entry's name. */
  lemma ReadsRunOn(tar: seq<Byte>, o: nat, e: Tar.Entry, e': Tar.Entry)
    requires Tar.EntryAt(tar, o, e) && Tar.EntryAt(tar, Tar.Next(o, e), e') && o + Tar.BLOCK <= |tar|
    requires |e.content| % Tar.BLOCK == 0 && Clean(e.content) && Clean(e'.name)
    ensures var file := tar[o + Tar.BLOCK..];
      Ends(file) && Length(file) == |e.content| + |e'.name| && file[..Length(file)] == e.content + e'.name
  {
    hide Tar.EntryAt, Tar.Next, Length, Ends;
    Tar.EntryParts(tar, o, e);
    Tar.EntryParts(tar, Tar.Next(o, e), e');
    var start, next := o + Tar.BLOCK, Tar.Next(o, e);
    SplitAt(tar, start, next, e.content);
    SplitAt(tar, next, next + |e'.name|, e'.name);
    var rest := tar[next + |e'.name|..];
    assert tar[start..] == e.content + e'.name + rest;
    WholeFileStops(e.content + e'.name, rest);
  }

  lemma SplitAt(s: seq<Byte>, a: nat, b: nat, x: seq<Byte>)
    requires a <= b <= |s| && s[a..b] == x
    ensures s[a..] == x + s[b..] && (b < |s| ==> s[b..][0] == s[b])
  {
  }

  lemma WholeFileStops(content: seq<Byte>, rest: seq<Byte>)
    requires Clean(content) && |rest| > 0 && Stops(rest[0])
    ensures Ends(content + rest) && Length(content + rest) == |content| && (content + rest)[..|content|] == content
  {
    assert Stops((content + rest)[|content|]);
    WholeFileIff(content, rest);
  }

  /** An open file of the archive: content_start onwards, and the position. */
  class FileObject {
    const content: seq<Byte>
    var offset: nat

    ghost predicate Valid()
      reads this
    {
      Ends(content) && offset <= Length(content)
    }

    constructor (content: seq<Byte>)
      requires Ends(content)
      ensures Valid() && this.content == content && offset == 0
    {
      this.content, offset := content, 0;
    }

    /** tarfs_read. */
    method Fill(buf: array<Byte>, len: int) returns (n: int)
      requires Valid() && len <= buf.Length
      modifies buf
      ensures len < 0 ==> n == len
      ensures len >= 0 ==> n == |Piece(content, offset, len)|
      ensures n > 0 ==> buf[..n] == Piece(content, offset, len)
      ensures forall i :: 0 <= i < buf.Length && i >= n ==> buf[i] == old(buf[i])
    {
      hide Length, Ends, Piece;
      PieceIs(content, offset, len);
      var i := 0;
      while i < len
        invariant 0 <= i && (len >= 0 ==> i <= len) && (len < 0 ==> i == 0) && offset + i <= Length(content)
        invariant i <= buf.Length && buf[..i] == content[offset..offset + i]
        invariant forall j :: i <= j < buf.Length ==> buf[j] == old(buf[j])
      {
        if content[offset + i] == NUL || content[offset + i] == EOF {
          return i;
        }
        buf[i] := content[offset + i];
        i := i + 1;
      }
      return len;
    }

    /** SYSCALL_READ on an open descriptor. */
    method Read(buf: array<Byte>, len: int) returns (n: int)
      requires Valid() && len <= buf.Length
      modifies this`offset, buf
      ensures Valid() && offset == old(offset) + |Piece(content, old(offset), len)|
      ensures n == if len < 0 then len else offset - old(offset)
      ensures n > 0 ==> buf[..n] == Piece(content, old(offset), len)
      ensures forall i :: 0 <= i < buf.Length && i >= n ==> buf[i] == old(buf[i])
    {
      n := Fill(buf, len);
      if n > 0 {
        offset := offset + n;
      }
    }

    /** A program that reads piece by piece and collects what it gets. */
    method ReadAll(lens: seq<int>) returns (got: seq<Byte>)
      requires Valid()
      modifies this`offset
      ensures Valid() && old(offset) <= offset && got == content[old(offset)..offset]
      ensures offset == Least(old(offset) + Total(lens), Length(content))
    {
      hide Length, Piece;
      got := [];
      var k := 0;
      assert lens[0..] == lens;
      while k < |lens|
        invariant 0 <= k <= |lens| && Valid() && old(offset) <= offset && got == content[old(offset)..offset]
        invariant got + Pieces(content, offset, lens[k..]) == Pieces(content, old(offset), lens)
      {
        ghost var p, from := Piece(content, offset, lens[k]), offset;
        PieceIs(content, offset, lens[k]);
        var buf := new Byte[if lens[k] > 0 then lens[k] else 0];
        var n := Read(buf, lens[k]);
        assert lens[k..][1..] == lens[k + 1..];
        assert (if n > 0 then buf[..n] else []) == p;
        Join(content, old(offset), from, offset);
        got := got + if n > 0 then buf[..n] else [];
        k := k + 1;
      }
      ChunkingDoesNotMatter(content, old(offset), lens);
    }
  }
}
