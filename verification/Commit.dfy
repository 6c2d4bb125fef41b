// Writing commits into a metadata block: lfs_dir_commitprog, lfs_dir_commitattr and
// lfs_dir_commitcrc, on an honest device.
module Committing {
  import opened Tags
  import opened Log
  import opened Block
  import opened Util
  import Crash
  import Crc
  import Words

  // ---- programming ------------------------------------------------------------------------

  lemma PatchNone<T>(s: seq<T>, at: nat, t: seq<T>)
    requires at + |t| <= |s|
    ensures Patch(s, at, t[..0]) == s
  {
  }

  lemma PatchNext<T>(s: seq<T>, at: nat, t: seq<T>, i: nat)
    requires at + |t| <= |s| && i < |t|
    ensures Patch(s, at, t[..i + 1]) == Patch(s, at, t[..i])[at + i := t[i]]
  {
  }

  lemma PatchParts<T>(s: seq<T>, at: nat, t: seq<T>)
    requires at + |t| <= |s|
    ensures var r := Patch(s, at, t);
            && |r| == |s| && r[..at] == s[..at] && r[at..at + |t|] == t && r[at + |t|..] == s[at + |t|..]
  {
  }

  // Where the checksum tag at off ends: as much padding as its size field holds, but never
  // leaving less than a tag and a checksum before the end.
  function NextOff(off: nat, fin: nat): nat
    requires off + 8 <= fin
  {
    var p := off + 4;
    var n := Min(fin - p, 0x3fe) + p;
    if n < fin then Min(n, fin - 8) else n
  }

  lemma NextOffBounds(off: nat, fin: nat)
    requires off + 8 <= fin
    ensures var n := NextOff(off, fin); off + 8 <= n <= fin && n - off - 4 <= 0x3fe && (n == fin || n + 8 <= fin)
    // it goes as far as that allows
    ensures var n := NextOff(off, fin); n == fin || n - off - 4 == 0x3fe || n + 8 == fin
  {
  }

  predicate Spaced(marks: seq<Mark>, i: nat, fin: nat)
    requires i + 1 < |marks|
  {
    marks[i].at + 8 <= fin && marks[i + 1].at == NextOff(marks[i].at, fin)
  }

  ghost predicate AllSpaced(marks: seq<Mark>, fin: nat) {
    forall i: nat :: i + 1 < |marks| ==> Spaced(marks, i, fin)
  }

  // ---- one checksum tag -----------------------------------------------------------------------

  // The word that the next tag will be exclusive-ored with.
  lemma ResetBit(w: bv32, tag: bv32)
    requires IsValid(tag)
    ensures !IsValid(Words.Xor(w, Flip(tag, IsValid(w))))
  {
  }

  lemma ResetMakesQuiet(was: seq<byte>, at: nat, tag: bv32, reset: bool)
    requires IsValid(tag) && (at + 4 <= |was| ==> reset == IsValid(FromBe(was[at..at + 4])))
    ensures Quiet(was, Mark(at, Flip(tag, reset)))
  {
    hide FromBe, IsValid, Flip, Words.Xor;
    if at + 4 <= |was| {
      ResetBit(FromBe(was[at..at + 4]), tag);
    }
  }

  function Footer(crc: bv32, prev: bv32, tag: bv32): (f: seq<byte>)
    ensures |f| == 8
  {
    var word := ToBe(Words.Xor(tag, prev));
    word + ToLe(Crc.Crc(crc, word))
  }

  lemma FooterIsSegment(blk: seq<byte>, crc: bv32, m: Mark, at: nat, reset: bool)
    requires m.at + 8 <= at <= |blk| && at - m.at - 4 <= 0x3fe
    requires var size := at - m.at - 4; blk[m.at..m.at + 8] == Footer(crc, m.tag, CrcWord(reset, size))
    ensures var size := at - m.at - 4; Segment(blk, crc, m, Mark(at, Flip(CrcWord(reset, size), reset)))
  {
    hide ToBe, ToLe, FromBe, FromLe, Words.Xor, Crc.Crc, CrcWord;
    var tag := CrcWord(reset, at - m.at - 4);
    var word := ToBe(Words.Xor(tag, m.tag));
    var f := Footer(crc, m.tag, tag);
    assert blk[m.at..m.at + 4] == blk[m.at..m.at + 8][..4] == word;
    assert blk[m.at + 4..m.at + 8] == blk[m.at..m.at + 8][4..] == ToLe(Crc.Crc(crc, word));
    TagOfBytes(tag, m.tag);
    FromLeToLe(Crc.Crc(crc, word));
  }

  // State of the padding loop: the marks so far, over the block as it was before the first.
  ghost predicate Padding(was: seq<byte>, blk: seq<byte>, crc: bv32, marks: seq<Mark>, fin: nat) {
    && marks != [] && Sealed(blk, crc, marks) && Crash.AllQuiet(was, marks) && AllSpaced(marks, fin)
    && |was| == |blk| && fin <= |blk|
    && marks[0].at <= marks[|marks| - 1].at <= fin
    && blk[..marks[0].at] == was[..marks[0].at]
    && blk[marks[|marks| - 1].at..] == was[marks[|marks| - 1].at..]
  }

  lemma PaddingSnoc(was: seq<byte>, blk: seq<byte>, blk': seq<byte>, crc: bv32, marks: seq<Mark>, next: Mark, fin: nat)
    requires Padding(was, blk, crc, marks, fin)
    requires var m := marks[|marks| - 1];
             && m.at + 8 <= fin && next.at == NextOff(m.at, fin) && next.at <= fin
             && |blk'| == |blk| && blk'[..m.at] == blk[..m.at]
             && Segment(blk', if |marks| == 1 then crc else NULL_WORD, m, next)
    requires Quiet(was, next) && blk'[..marks[0].at] == was[..marks[0].at] && blk'[next.at..] == was[next.at..]
    ensures Padding(was, blk', crc, marks + [next], fin)
  {
    hide Sealed, Segment, Crash.AllQuiet, NextOff, AllSpaced, Quiet;
    var m := marks[|marks| - 1];
    SegmentBounds(blk', if |marks| == 1 then crc else NULL_WORD, m, next);
    SealedFrame(blk, blk', crc, marks, m.at);
    SealedSnoc(blk', crc, marks, next);
    QuietSnoc(was, marks, next);
    SpacedSnoc(marks, next, fin);
  }

  lemma PaddingStep(was: seq<byte>, blk: seq<byte>, blk': seq<byte>, crc: bv32, marks: seq<Mark>, fin: nat, m: Mark,
          n: nat, reset: bool)
    requires Padding(was, blk, crc, marks, fin) && m == marks[|marks| - 1]
    requires m.at + 8 <= fin && n == NextOff(m.at, fin) && m.at + 8 <= n <= fin && n - m.at - 4 <= 0x3fe
    requires n + 4 <= |blk| ==> reset == IsValid(FromBe(blk[n..n + 4]))
    requires var seed := if |marks| == 1 then crc else NULL_WORD;
             blk' == Patch(blk, m.at, Footer(seed, m.tag, CrcWord(reset, n - m.at - 4)))
    ensures Padding(was, blk', crc, marks + [Mark(n, Flip(CrcWord(reset, n - m.at - 4), reset))], fin)
  {
    hide *;
    PaddingParts(was, blk, crc, marks, fin);
    var tag := CrcWord(reset, n - m.at - 4);
    var seed := if |marks| == 1 then crc else NULL_WORD;
    PatchEdges(was, blk, marks[0].at, m.at, Footer(seed, m.tag, tag), n);
    FooterIsSegment(blk', seed, m, n, reset);
    CrcWordFields(reset, n - m.at - 4);
    if n + 4 <= |was| {
      LaterSlice(was, blk, m.at, n, n + 4);
    }
    ResetMakesQuiet(was, n, tag, reset);
    PaddingSnoc(was, blk, blk', crc, marks, Mark(n, Flip(tag, reset)), fin);
  }

  lemma PaddingParts(was: seq<byte>, blk: seq<byte>, crc: bv32, marks: seq<Mark>, fin: nat)
    requires Padding(was, blk, crc, marks, fin)
    ensures marks != [] && |was| == |blk| && marks[0].at <= marks[|marks| - 1].at <= fin <= |blk|
    ensures blk[..marks[0].at] == was[..marks[0].at]
    ensures blk[marks[|marks| - 1].at..] == was[marks[|marks| - 1].at..]
  {
    hide Sealed, Crash.AllQuiet, AllSpaced;
  }

  // Patching at the end of what is done changes neither what comes before nor what is
  // beyond the end of the patch.
  lemma PatchEdges<T>(was: seq<T>, s: seq<T>, first: nat, at: nat, t: seq<T>, n: nat)
    requires first <= at && at + |t| <= n <= |s| == |was|
    requires s[..first] == was[..first] && s[at..] == was[at..]
    ensures var r := Patch(s, at, t);
            && |r| == |s| && r[..at] == s[..at] && r[at..at + |t|] == t
            && r[..first] == was[..first] && r[n..] == was[n..]
  {
    var r := Patch(s, at, t);
    PatchParts(s, at, t);
    SameSlice(r, s, at, 0, first);
    assert r[..first] == r[0..first] && s[..first] == s[0..first];
    LaterSlice(r, s, at + |t|, n, |s|);
    LaterSlice(s, was, at, n, |s|);
    assert r[n..] == r[n..|s|] && s[n..] == s[n..|s|] && was[n..] == was[n..|s|];
  }

  lemma SealedSnoc(blk: seq<byte>, crc: bv32, marks: seq<Mark>, n: Mark)
    requires marks != [] && Sealed(blk, crc, marks)
    requires Segment(blk, if |marks| == 1 then crc else NULL_WORD, marks[|marks| - 1], n)
    ensures Sealed(blk, crc, marks + [n])
  {
    hide Segment;
    var all := marks + [n];
    forall i: nat | i + 1 < |all|
      ensures SegmentAt(blk, crc, all, i)
    {
      if i + 1 < |marks| {
        assert SegmentAt(blk, crc, marks, i);
      }
    }
  }

  lemma QuietSnoc(was: seq<byte>, marks: seq<Mark>, n: Mark)
    requires Crash.AllQuiet(was, marks) && Quiet(was, n)
    ensures Crash.AllQuiet(was, marks + [n])
  {
    hide Quiet;
  }

  lemma SpacedSnoc(marks: seq<Mark>, n: Mark, fin: nat)
    requires marks != [] && AllSpaced(marks, fin)
    requires marks[|marks| - 1].at + 8 <= fin && n.at == NextOff(marks[|marks| - 1].at, fin)
    ensures AllSpaced(marks + [n], fin)
  {
    hide NextOff;
    var all := marks + [n];
    forall i: nat | i + 1 < |all|
      ensures Spaced(all, i, fin)
    {
      if i + 1 < |marks| {
        assert Spaced(marks, i, fin);
      }
    }
  }

  // ---- checking what was written ------------------------------------------------------------------

  // A sealed segment checks to zero, from the running checksum over what comes before it.
  lemma SegmentResidue(blk: seq<byte>, crc: bv32, m: Mark, n: Mark)
    requires Segment(blk, crc, m, n)
    ensures m.at + 8 <= |blk| && Crc.Crc(crc, blk[m.at..m.at + 8]) == 0
  {
    hide Follows, TagAt, Crc.Crc, FromLe, ToLe;
    SegmentBounds(blk, crc, m, n);
    var word, check := blk[m.at..m.at + 4], blk[m.at + 4..m.at + 8];
    ToLeFromLe(check);
    Crc.Residue(crc, word);
    assert blk[m.at..m.at + 8] == word + check;
  }

  lemma FirstResidue(blk: seq<byte>, crc: bv32, seed: bv32, begin: nat, m: Mark, n: Mark)
    requires begin <= m.at && Segment(blk, crc, m, n) && m.at <= |blk| && crc == Crc.Crc(seed, blk[begin..m.at])
    ensures m.at + 8 <= |blk| && Crc.Crc(seed, blk[begin..m.at + 8]) == 0
  {
    hide Segment, Crc.Crc;
    SegmentResidue(blk, crc, m, n);
    Crc.CrcConcat(seed, blk[begin..m.at], blk[m.at..m.at + 8]);
    assert blk[begin..m.at + 8] == blk[begin..m.at] + blk[m.at..m.at + 8];
  }

  // What the verification of a commit covers: from its first byte, which for the first
  // commit is the revision count.
  function Begin(h: seq<Commit>): nat {
    if h == [] then 0 else End(h).at
  }

  // An unfinished commit: the attributes so far, after the commits of h.
  ghost predicate Written(blk: seq<byte>, h: seq<Commit>, items: seq<Item>, off: nat, ptag: bv32, crc: bv32) {
    var e := End(h);
    var bytes := Encode(e.tag, items);
    && Holds(blk, h) && AllStorable(items)
    && off == e.at + |bytes| <= |blk| && blk[e.at..off] == bytes
    && ptag == LastWord(e.tag, items) && crc == Crc.Crc(Seed(blk, h), bytes)
  }

  // ---- the writer -----------------------------------------------------------------------------------

  class Writer {
    const blk: array<byte>
    const begin: nat
    const end: nat
    var off: nat
    var ptag: bv32
    var crc: bv32
    ghost const h: seq<Commit>
    ghost var items: seq<Item>

    ghost predicate Valid()
      reads this, blk
    {
      && blk.Length >= 12 && end == blk.Length - 8
      && begin == Begin(h) && Written(blk[..], h, items, off, ptag, crc)
    }

    lemma ValidParts()
      requires Valid()
      ensures blk.Length >= 12 && end == blk.Length - 8 && begin == Begin(h)
      ensures Written(blk[..], h, items, off, ptag, crc)
    {
      hide Written, Begin;
    }

    // Appending to a block whose commits are known.
    constructor Append(blk: array<byte>, off: nat, etag: bv32, ghost h: seq<Commit>)
      requires blk.Length >= 12 && h != [] && Holds(blk[..], h)
      requires off == End(h).at <= blk.Length && etag == End(h).tag
      ensures Valid() && this.blk == blk && this.h == h && items == []
    {
      this.blk, this.off, this.ptag, this.crc := blk, off, etag, NULL_WORD;
      this.begin, this.end := off, blk.Length - 8;
      this.h, this.items := h, [];
      new;
      NothingWritten(NULL_WORD);
    }

    // Starting an erased block, with its revision count.
    constructor Compact(blk: array<byte>, rev: bv32)
      requires blk.Length >= 12
      modifies blk
      ensures Valid() && this.blk == blk && h == [] && items == []
      ensures blk[..] == ToLe(rev) + old(blk[4..])
    {
      this.blk, this.off, this.ptag := blk, 4, NULL_WORD;
      this.begin, this.end := 0, blk.Length - 8;
      this.h, this.items := [], [];
      this.crc := Crc.Crc(NULL_WORD, ToLe(rev));
      new;
      hide ToLe, Crc.Crc;
      var header := ToLe(rev);
      Program(0, header);
      assert blk[..4] == header;
      assert blk[..][..4] == header;
      NothingWritten(Crc.Crc(NULL_WORD, header));
    }

    method Program(at: nat, data: seq<byte>)
      requires at + |data| <= blk.Length
      modifies blk
      ensures blk[..] == Patch(old(blk[..]), at, data)
    {
      ghost var was := blk[..];
      PatchNone(was, at, data);
      for i := 0 to |data|
        invariant blk[..] == Patch(was, at, data[..i])
      {
        hide Patch;
        blk[at + i] := data[i];
        PatchNext(was, at, data, i);
      }
      assert data[..|data|] == data;
    }

    // lfs_dir_commitattr: the attribute goes in if it fits before the end.
    method Attr(x: Item) returns (ok: bool)
      requires Valid() && Storable(x)
      modifies this, blk
      ensures Valid()
      ensures ok <==> old(off) + x.tag.Dsize() <= end
      ensures items == old(items) + if ok then [x] else []
      ensures blk[..][..old(off)] == old(blk[..])[..old(off)] && blk[..][off..] == old(blk[..])[off..]
      ensures !ok ==> off == old(off)
      ensures ok ==> off == old(off) + x.tag.Dsize()
    {
      hide Written, Storable, Begin;
      if off + x.tag.Dsize() > end {
        return false;
      }
      Put(x);
      items := items + [x];
      return true;
    }

    // lfs_dir_commitprog
    method Prog(data: seq<byte>)
      requires off + |data| <= blk.Length
      modifies this`off, this`crc, blk
      ensures blk[..] == Patch(old(blk[..]), old(off), data)
      ensures off == old(off) + |data| && crc == Crc.Crc(old(crc), data)
    {
      hide *;
      Program(off, data);
      off, crc := off + |data|, Crc.Crc(crc, data);
    }

    method Put(x: Item)
      requires Written(blk[..], h, items, off, ptag, crc) && Storable(x) && off + x.tag.Dsize() <= blk.Length
      modifies this`off, this`ptag, this`crc, blk
      ensures Written(blk[..], h, items + [x], off, ptag, crc) && off == old(off) + x.tag.Dsize()
      ensures blk[..][..old(off)] == old(blk[..])[..old(off)] && blk[..][off..] == old(blk[..])[off..]
    {
      hide *;
      ItemSize(x);
      ghost var was, at := blk[..], off;
      var word := ToBe(Words.Xor(Word(x), ptag));
      WroteItem(was, h, items, off, ptag, crc, word, x);
      Prog(word);
      Prog(x.data);
      ptag := Word(x);
    }

    // lfs_dir_commitcrc: seals the commit, and reads it all back.
    method Seal(progSize: nat) returns (ok: bool, ghost c: Commit)
      requires Valid() && progSize > 0 && blk.Length % progSize == 0 && off <= end
      modifies this, blk
      ensures ok
      ensures c.items == old(items) && Holds(blk[..], h + [c])
      ensures Mark(off, ptag) == End(h + [c]) && off == AlignUp(old(off) + 8, progSize) <= blk.Length
      ensures Crash.AllQuiet(old(blk[..]), c.marks) && Quiet(blk[..], End(h + [c]))
      ensures blk[..][..old(off)] == old(blk[..])[..old(off)] && blk[..][off..] == old(blk[..])[off..]
    {
      hide *;
      ValidParts();
      var first := off;
      var fin := AlignUp(first + 8, progSize);
      AlignUpWithin(first + 8, progSize, blk.Length);
      ghost var was, crc0 := blk[..], crc;
      ghost var marks := [Mark(off, ptag)];
      PaddingStart(was, crc0, Mark(off, ptag), fin);
      while off < fin
        invariant items == old(items) && Padding(was, blk[..], crc0, marks, fin)
        invariant marks != [] && marks[0] == Mark(first, old(ptag)) && marks[|marks| - 1] == Mark(off, ptag)
        invariant crc == if |marks| == 1 then crc0 else NULL_WORD
        invariant if off == fin then |marks| >= 2 else off + 8 <= fin
        decreases fin - off
      {
        marks := Pad(fin, was, crc0, marks);
      }
      c := Commit(items, marks);
      CommitWritten(was, blk[..], h, c, first, old(ptag), crc0, fin);
      ok := Verify(first, fin, h, c);
    }

    // One round of the padding loop: a checksum tag, up to the next program unit or the
    // most its size field holds.
    method Pad(fin: nat, ghost was: seq<byte>, ghost crc0: bv32, ghost marks: seq<Mark>)
      returns (ghost marks': seq<Mark>)
      requires Padding(was, blk[..], crc0, marks, fin)
      requires marks != [] && marks[|marks| - 1] == Mark(off, ptag) && off + 8 <= fin <= blk.Length
      requires crc == if |marks| == 1 then crc0 else NULL_WORD
      modifies this`off, this`ptag, this`crc, blk
      ensures Padding(was, blk[..], crc0, marks', fin)
      ensures |marks'| == |marks| + 1 && marks'[0] == marks[0] && marks'[|marks'| - 1] == Mark(off, ptag)
      ensures crc == NULL_WORD && old(off) < off && (off == fin || off + 8 <= fin)
    {
      hide *;
      var p := off + 4;
      var noff := Min(fin - p, 0x3fe) + p;
      if noff < fin {
        noff := Min(noff, fin - 8);
      }
      NextOffIs(off, fin);
      NextOffBounds(off, fin);
      // the erased state of the next program unit
      var erased := NULL_WORD;
      var before := blk[..];
      if noff + 4 <= blk.Length {
        erased := FromBe(before[noff..noff + 4]);
      }
      var reset := IsValid(erased);
      var tag := CrcWord(reset, noff - p);
      var word := ToBe(Words.Xor(tag, ptag));
      crc := Crc.Crc(crc, word);
      FooterIs(if |marks| == 1 then crc0 else NULL_WORD, ptag, tag);
      Program(off, word + ToLe(crc));
      PaddingStep(was, before, blk[..], crc0, marks, fin, Mark(off, ptag), noff, reset);
      off, ptag, crc := noff, Flip(tag, reset), NULL_WORD;
      marks' := marks + [Mark(off, ptag)];
    }

    // The second half of lfs_dir_commitcrc: the checksums are found where they were put.
    method Verify(first: nat, fin: nat, ghost h: seq<Commit>, ghost c: Commit) returns (ok: bool)
      requires Holds(blk[..], h + [c]) && |c.marks| >= 2 && AllSpaced(c.marks, fin)
      requires begin == Begin(h) && c.marks[0].at == first && c.marks[|c.marks| - 1].at == fin <= blk.Length
      ensures ok
    {
      hide Holds, Sealed, AllSpaced, NextOff, Crc.Crc;
      var o, n := begin, first + 4;
      ghost var i := 0;
      MarkBounds(blk[..], h, c);
      while o < fin
        invariant i < |c.marks|
        invariant o == if i == 0 then begin else c.marks[i].at
        invariant n == c.marks[i].at + 4
        invariant i + 1 < |c.marks| || o == fin
        decreases |c.marks| - i
      {
        SegmentChecks(blk[..], h, c, i);
        assert blk[o..n + 4] == blk[..][o..n + 4];
        var crc := Crc.Compute(NULL_WORD, blk[o..n + 4]);
        if crc != 0 {
          return false;
        }
        NextMark(c.marks, fin, i);
        o := Min(fin - n, 0x3fe) + n;
        if o < fin {
          o := Min(o, fin - 8);
        }
        i := i + 1;
        n := o + 4;
      }
      return true;
    }
  }

  // ---- what the methods need ---------------------------------------------------------------------------

  lemma NothingWritten(crc: bv32)
    ensures forall prev :: Encode(prev, []) == [] && LastWord(prev, []) == prev
    ensures Crc.Crc(crc, []) == crc
  {
  }

  lemma NextOffIs(off: nat, fin: nat)
    requires off + 8 <= fin
    ensures var p := off + 4;
            var n := Min(fin - p, 0x3fe) + p;
            NextOff(off, fin) == if n < fin then Min(n, fin - 8) else n
  {
  }

  lemma FooterIs(crc: bv32, prev: bv32, tag: bv32)
    ensures var word := ToBe(Words.Xor(tag, prev)); Footer(crc, prev, tag) == word + ToLe(Crc.Crc(crc, word))
  {
  }

  lemma WroteItem(was: seq<byte>, h: seq<Commit>, items: seq<Item>, off: nat, ptag: bv32, crc: bv32, word: seq<byte>,
          x: Item)
    requires Written(was, h, items, off, ptag, crc) && Storable(x) && off + x.tag.Dsize() <= |was|
    requires word == ToBe(Words.Xor(Word(x), ptag))
    ensures var now, to := Patch(Patch(was, off, word), off + 4, x.data), off + x.tag.Dsize();
            && Written(now, h, items + [x], to, Word(x), Crc.Crc(Crc.Crc(crc, word), x.data))
            && now[..off] == was[..off] && now[to..] == was[to..]
  {
    hide *;
    ItemLength(ptag, x);
    ItemBytesAre(ptag, x);
    var e, to := End(h), off + x.tag.Dsize();
    var now := Patch(Patch(was, off, word), off + 4, x.data);
    var bytes := Encode(e.tag, items);
    WrittenParts(was, h, items, off, ptag, crc);
    WroteBytes(was, e.at, off, bytes, word, x.data);
    HoldsFrame(was, now, h);
    EncodeSnoc(e.tag, items, x);
    Crc.CrcConcat(Seed(was, h), bytes, word + x.data);
    Crc.CrcConcat(crc, word, x.data);
    StorableSnoc(items, x);
    IsWritten(now, h, items + [x], to);
  }

  lemma ItemSize(x: Item)
    requires Storable(x)
    ensures x.tag.Dsize() == 4 + |x.data|
  {
  }

  lemma IsWritten(blk: seq<byte>, h: seq<Commit>, items: seq<Item>, off: nat)
    requires Holds(blk, h) && AllStorable(items)
    requires var e := End(h); off == e.at + |Encode(e.tag, items)| <= |blk| && blk[e.at..off] == Encode(e.tag, items)
    ensures |blk| >= 4
    ensures Written(blk, h, items, off, LastWord(End(h).tag, items), Crc.Crc(Seed(blk, h), Encode(End(h).tag, items)))
  {
    HasHeader(blk, h);
    hide Holds, Encode, AllStorable, LastWord, Crc.Crc;
  }

  lemma StorableSnoc(items: seq<Item>, x: Item)
    requires AllStorable(items) && Storable(x)
    ensures AllStorable(items + [x])
  {
    hide Storable;
  }

  lemma ItemBytesAre(prev: bv32, x: Item)
    ensures ItemBytes(prev, x) == ToBe(Words.Xor(Word(x), prev)) + x.data
  {
    hide Word, ToBe;
  }

  lemma WrittenParts(blk: seq<byte>, h: seq<Commit>, items: seq<Item>, off: nat, ptag: bv32, crc: bv32)
    requires Written(blk, h, items, off, ptag, crc)
    ensures |blk| >= 4 && Holds(blk, h) && AllStorable(items)
    ensures var e := End(h);
            && off == e.at + |Encode(e.tag, items)| <= |blk| && blk[e.at..off] == Encode(e.tag, items)
            && ptag == LastWord(e.tag, items) && crc == Crc.Crc(Seed(blk, h), Encode(e.tag, items))
  {
    HasHeader(blk, h);
    hide Holds, Encode, AllStorable, LastWord, Crc.Crc;
  }

  lemma WroteBytes<T>(was: seq<T>, from: nat, off: nat, bytes: seq<T>, word: seq<T>, data: seq<T>)
    requires |word| == 4 && off == from + |bytes| && off + 4 + |data| <= |was| && was[from..off] == bytes
    ensures var now, to := Patch(Patch(was, off, word), off + 4, data), off + 4 + |data|;
            && |now| == |was| && now[..off] == was[..off] && now[to..] == was[to..] && now[..from] == was[..from]
            && now[from..to] == bytes + (word + data)
  {
    PatchTwice(was, off, word, data);
    hide *;
    var now, to := Patch(Patch(was, off, word), off + 4, data), off + 4 + |data|;
    SameSlice(now, was, off, 0, from);
    assert now[..from] == now[0..from] && was[..from] == was[0..from];
    SameSlice(now, was, off, from, off);
    assert now[from..to] == now[from..off] + now[off..to];
  }

  lemma HasHeader(blk: seq<byte>, h: seq<Commit>)
    requires Holds(blk, h)
    ensures |blk| >= 4
  {
    hide Committed;
  }

  lemma PatchTwice<T>(s: seq<T>, at: nat, t: seq<T>, u: seq<T>)
    requires at + |t| + |u| <= |s|
    ensures var r, to := Patch(Patch(s, at, t), at + |t|, u), at + |t| + |u|;
            |r| == |s| && r[..at] == s[..at] && r[at..to] == t + u && r[to..] == s[to..]
  {
    assert Patch(Patch(s, at, t), at + |t|, u) == s[..at] + (t + u) + s[at + |t| + |u|..];
  }

  lemma PaddingStart(was: seq<byte>, crc: bv32, m: Mark, fin: nat)
    requires m.at <= fin <= |was|
    ensures Padding(was, was, crc, [m], fin)
  {
  }

  lemma CommitWritten(was: seq<byte>, now: seq<byte>, h: seq<Commit>, c: Commit, off: nat, ptag: bv32, crc: bv32,
          fin: nat)
    requires Written(was, h, c.items, off, ptag, crc)
    requires Padding(was, now, crc, c.marks, fin)
    requires |c.marks| >= 2 && c.marks[0] == Mark(off, ptag) && c.marks[|c.marks| - 1].at == fin
    ensures Holds(now, h + [c]) && End(h + [c]) == c.marks[|c.marks| - 1] && AllSpaced(c.marks, fin)
    ensures Crash.AllQuiet(was, c.marks) && Quiet(now, End(h + [c]))
    ensures now[..off] == was[..off] && now[fin..] == was[fin..]
  {
    hide Encode, Sealed, AllStorable, LastWord, Crc.Crc, AllSpaced, Quiet;
    var e := End(h);
    SameSlice(now, was, off, 0, e.at);
    assert now[..e.at] == now[0..e.at] && was[..e.at] == was[0..e.at];
    HoldsFrame(was, now, h);
    SameSlice(now, was, off, e.at, off);
    SnocPrefix(h, c);
    var m := c.marks[|c.marks| - 1];
    assert Quiet(was, m);
    Crash.QuietFrame(was, now, fin, m);
  }

  lemma MarkBounds(blk: seq<byte>, h: seq<Commit>, c: Commit)
    requires Holds(blk, h + [c]) && |c.marks| >= 2
    ensures Begin(h) <= c.marks[0].at && c.marks[0].at + 8 <= c.marks[|c.marks| - 1].at <= |blk|
  {
    hide Committed;
    SnocPrefix(h, c);
    Bounds(blk, h + [c]);
  }

  // The attributes of a commit, with the revision count before the first one.
  lemma SeedIs(blk: seq<byte>, h: seq<Commit>, bytes: seq<byte>)
    requires |blk| >= 4
    ensures Crc.Crc(Seed(blk, h), bytes) == Crc.Crc(NULL_WORD, (if h == [] then blk[..4] else []) + bytes)
  {
    hide Crc.Crc;
    if h == [] {
      Crc.CrcConcat(NULL_WORD, blk[..4], bytes);
    } else {
      assert [] + bytes == bytes;
    }
  }

  lemma LastCommit(blk: seq<byte>, h: seq<Commit>, c: Commit, i: nat)
    requires Holds(blk, h + [c]) && i + 1 < |c.marks|
    ensures var e := End(h);
            var bytes := Encode(e.tag, c.items);
            && |blk| >= 4 && 4 <= e.at && e.at + |bytes| == c.marks[0].at <= |blk| && blk[e.at..c.marks[0].at] == bytes
            && Segment(blk, if i == 0 then Crc.Crc(Seed(blk, h), bytes) else NULL_WORD, c.marks[i], c.marks[i + 1])
  {
    hide Segment, Encode, AllStorable, LastWord, Crc.Crc, End;
    SnocPrefix(h, c);
    Bounds(blk, h);
    assert SegmentAt(blk, Crc.Crc(Seed(blk, h), Encode(End(h).tag, c.items)), c.marks, i);
  }

  lemma FirstBytes(blk: seq<byte>, h: seq<Commit>, at: nat)
    requires 4 <= End(h).at <= at <= |blk|
    ensures Begin(h) <= at && blk[Begin(h)..at] == (if h == [] then blk[..4] else []) + blk[End(h).at..at]
  {
    if h == [] {
      assert blk[0..at] == blk[..4] + blk[4..at];
    } else {
      assert [] + blk[End(h).at..at] == blk[End(h).at..at];
    }
  }

  lemma SegmentChecks(blk: seq<byte>, h: seq<Commit>, c: Commit, i: nat)
    requires Holds(blk, h + [c]) && i + 1 < |c.marks|
    ensures var o := if i == 0 then Begin(h) else c.marks[i].at;
            o <= c.marks[i].at && c.marks[i].at + 8 <= |blk| && Crc.Crc(NULL_WORD, blk[o..c.marks[i].at + 8]) == 0
  {
    hide *;
    LastCommit(blk, h, c, i);
    var m, n := c.marks[i], c.marks[i + 1];
    if i == 0 {
      var bytes := Encode(End(h).tag, c.items);
      SeedIs(blk, h, bytes);
      FirstBytes(blk, h, m.at);
      FirstResidue(blk, Crc.Crc(Seed(blk, h), bytes), NULL_WORD, Begin(h), m, n);
    } else {
      SegmentResidue(blk, NULL_WORD, m, n);
    }
  }

  lemma NextMark(marks: seq<Mark>, fin: nat, i: nat)
    requires AllSpaced(marks, fin) && i + 1 < |marks| && marks[|marks| - 1].at == fin
    ensures var p := marks[i].at + 4;
            && p + 4 <= fin
            && var n := Min(fin - p, 0x3fe) + p; marks[i + 1].at == if n < fin then Min(n, fin - 8) else n
    ensures i + 2 < |marks| || marks[i + 1].at == fin
  {
    assert Spaced(marks, i, fin);
  }
}
