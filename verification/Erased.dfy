// What a fetch says about the rest of a block that an append has left torn: it may be appended
// to when the rest is taken to be erased.
module Erased {
  import opened Tags
  import opened Log
  import opened Block
  import opened Crash
  import opened Util
  import opened Committing
  import Crc
  import Words

  // Of a block that is programmed up to p: where the rest is taken to be erased, it has not
  // been programmed exactly when the word that follows the last commit is invalid; and a word
  // that is valid all the same was programmed in part, and claims more bytes than there are.
  predicate Judged(blk: seq<byte>, p: nat, s: Outcome) {
    s.erased ==>
      && s.found.off + 4 <= |blk|
      && var w := TagAt(blk, s.found.off, s.found.etag);
      && (p <= s.found.off <==> !IsValid(w))
      && (s.found.off < p ==> p < s.found.off + 4 && s.found.off + Unpack(w).Dsize() > |blk|)
  }

  // ---- words that were programmed in part ---------------------------------------------------------

  // The validity bit is in the first byte.
  lemma FirstByte(a: seq<byte>, b: seq<byte>, t: bv32)
    requires |a| == 4 && |b| == 4 && a[0] == b[0]
    ensures IsValid(Words.Xor(FromBe(a), t)) <==> IsValid(Words.Xor(FromBe(b), t))
  {
    TopBits(a[0], a[1], a[2], a[3], b[1], b[2], b[3], t);
  }

  lemma TopBits(x: byte, a1: byte, a2: byte, a3: byte, b1: byte, b2: byte, b3: byte, t: bv32)
    ensures IsValid(((x as bv32 << 24) | (a1 as bv32 << 16) | (a2 as bv32 << 8) | (a3 as bv32)) ^ t)
       <==> IsValid(((x as bv32 << 24) | (b1 as bv32 << 16) | (b2 as bv32 << 8) | (b3 as bv32)) ^ t)
  {
  }

  lemma PartlyValid(torn: seq<byte>, now: seq<byte>, p: nat, at: nat, t: bv32)
    requires |torn| == |now| && p <= |now| && torn[..p] == now[..p] && at < p && at + 4 <= |now|
    ensures IsValid(TagAt(torn, at, t)) <==> IsValid(TagAt(now, at, t))
  {
    assert torn[at] == torn[..p][at] == now[at];
    assert torn[at..at + 4][0] == now[at..at + 4][0];
    hide FromBe, IsValid, Words.Xor;
    FirstByte(torn[at..at + 4], now[at..at + 4], t);
  }

  // ---- steps of the scan ------------------------------------------------------------------------------

  // A step that finds nothing new was not one over a checksum tag.
  lemma NothingNew(blk: seq<byte>, progSize: nat, c: Cursor)
    requires progSize > 0 && Step(blk, progSize, c).Go? && c.found.off <= c.at
    requires Step(blk, progSize, c).next.found == c.found
    ensures !IsCrc(Step(blk, progSize, c).next.ptag)
  {
    StepAdvances(blk, progSize, c);
    hide Unpack, IsValid, TagAt, Crc.Crc, FromLe, Flip, IsCrc;
  }

  // Where the scan stops on an attribute, the rest is not taken to be erased.
  lemma StopsAfterItem(blk: seq<byte>, progSize: nat, c: Cursor)
    requires progSize > 0 && !IsCrc(c.ptag) && Step(blk, progSize, c).Stop?
    ensures !Step(blk, progSize, c).erased
  {
    hide Unpack, IsValid, TagAt, Crc.Crc, FromLe, Flip, IsCrc;
  }

  lemma ScanIs(blk: seq<byte>, progSize: nat, c: Cursor)
    requires progSize > 0
    ensures var step := Step(blk, progSize, c);
            && (step.Go? ==>
                  c.at + 4 <= step.next.at <= |blk| && Scan(blk, progSize, c) == Scan(blk, progSize, step.next))
            && (step.Stop? ==> Scan(blk, progSize, c) == Outcome(c.found, step.erased))
  {
    StepAdvances(blk, progSize, c);
    hide Step;
  }

  lemma SealIs(blk: seq<byte>, progSize: nat, p: nat, c: Cursor)
    requires progSize > 0 && NoFalseSeal(blk, progSize, p, c) && Step(blk, progSize, c).Go?
    ensures var next := Step(blk, progSize, c).next;
            (p < c.at + 4 ==> next.found == c.found) && NoFalseSeal(blk, progSize, p, next)
  {
    hide Step;
  }

  // Beyond an attribute that was not completely programmed the scan never stops at a commit.
  lemma {:induction false} BeyondItem(blk: seq<byte>, progSize: nat, p: nat, c: Cursor)
    requires progSize > 0 && p < c.at + 4 && NoFalseSeal(blk, progSize, p, c) && !IsCrc(c.ptag) && c.found.off <= c.at
    ensures !Scan(blk, progSize, c).erased
    decreases |blk| - c.at
  {
    hide *;
    ScanIs(blk, progSize, c);
    if Step(blk, progSize, c).Go? {
      SealIs(blk, progSize, p, c);
      NothingNew(blk, progSize, c);
      BeyondItem(blk, progSize, p, Step(blk, progSize, c).next);
    } else {
      StopsAfterItem(blk, progSize, c);
    }
  }

  // ---- at the end of a commit --------------------------------------------------------------------------

  // The scan has just found a commit, and what follows has been programmed in part at most.
  lemma AtSeal(was: seq<byte>, now: seq<byte>, torn: seq<byte>, progSize: nat, p: nat, c: Cursor)
    requires progSize > 0 && Torn(was, now, torn, p) && NoFalseSeal(torn, progSize, p, c)
    requires c.found.off == c.at && c.found.etag == c.ptag && p < c.at + 4 && Quiet(was, Mark(c.at, c.ptag))
    requires c.at < p ==> c.at + 4 <= |now| && IsValid(TagAt(now, c.at, c.ptag))
    ensures Judged(torn, p, Scan(torn, progSize, c))
  {
    hide *;
    TornIs(was, now, torn, p);
    ScanIs(torn, progSize, c);
    if p <= c.at {
      QuietFrame(was, torn, p, Mark(c.at, c.ptag));
      QuietJudged(torn, progSize, p, c);
    } else {
      PartlyValid(torn, now, p, c.at, c.ptag);
      if Step(torn, progSize, c).Go? {
        SealIs(torn, progSize, p, c);
        NothingNew(torn, progSize, c);
        BeyondItem(torn, progSize, p, Step(torn, progSize, c).next);
        NotErasedIsJudged(torn, p, Scan(torn, progSize, c));
      } else {
        TooLong(torn, progSize, p, c);
      }
    }
  }

  lemma TornIs(was: seq<byte>, now: seq<byte>, torn: seq<byte>, p: nat)
    ensures Torn(was, now, torn, p) <==>
              |was| == |now| == |torn| && p <= |now| && torn[..p] == now[..p] && torn[p..] == was[p..]
  {
  }

  lemma NotErasedIsJudged(blk: seq<byte>, p: nat, s: Outcome)
    requires !s.erased
    ensures Judged(blk, p, s)
  {
    hide TagAt, IsValid, Unpack;
  }

  lemma QuietJudged(blk: seq<byte>, progSize: nat, p: nat, c: Cursor)
    requires progSize > 0 && Quiet(blk, Mark(c.at, c.ptag)) && p <= c.at
    requires c.found.off == c.at && c.found.etag == c.ptag
    ensures Step(blk, progSize, c).Stop? && Judged(blk, p, Outcome(c.found, Step(blk, progSize, c).erased))
  {
    hide Unpack, IsValid, TagAt, Crc.Crc, FromLe, Flip, IsCrc;
  }

  lemma TooLong(blk: seq<byte>, progSize: nat, p: nat, c: Cursor)
    requires progSize > 0 && c.at < p < c.at + 4 <= |blk| && IsValid(TagAt(blk, c.at, c.ptag))
    requires c.found.off == c.at && c.found.etag == c.ptag && Step(blk, progSize, c).Stop?
    ensures Judged(blk, p, Outcome(c.found, Step(blk, progSize, c).erased))
  {
    hide Unpack, IsValid, TagAt, Crc.Crc, FromLe, Flip, IsCrc;
  }

  // ---- within the attributes ---------------------------------------------------------------------------

  // A tear within the attributes, behind their first tag.
  lemma {:induction false} TornItemsJudged(torn: seq<byte>, now: seq<byte>, progSize: nat, p: nat, c: Cursor,
          items: seq<Item>)
    requires progSize > 0 && AllStorable(items) && |torn| == |now| && c.found.off <= c.at
    requires var n := |Encode(c.ptag, items)|;
             c.at + 4 <= p < c.at + n + 4 && c.at + n <= |now| && now[c.at..c.at + n] == Encode(c.ptag, items)
    requires p <= |now| && torn[..p] == now[..p] && NoFalseSeal(torn, progSize, p, c)
    ensures !Scan(torn, progSize, c).erased
    decreases |items|
  {
    hide *;
    if items == [] {
      NoItems(c.ptag);
    } else {
      var init, x := items[..|items| - 1], items[|items| - 1];
      assert items == init + [x];
      StorableInit(items);
      EncodeSnoc(c.ptag, init, x);
      PastIs(c, init);
      var d := Past(c, init);
      ItemLength(d.ptag, x);
      Slices(now, c.at, Encode(c.ptag, init), ItemBytes(d.ptag, x));
      if p < d.at + 4 {
        TornItemsJudged(torn, now, progSize, p, c, init);
      } else {
        SameSlice(torn, now, p, c.at, d.at);
        ScanItems(torn, progSize, c, init);
        Onwards(torn, progSize, p, c, d);
        SameSlice(torn, now, p, d.at, d.at + 4);
        TagIsThere(x);
        Head(now, d.at, x.tag.Dsize(), 4);
        StepTag(torn, progSize, d, x);
        SealIs(torn, progSize, p, d);
        NothingNew(torn, progSize, d);
        ScanIs(torn, progSize, d);
        BeyondItem(torn, progSize, p, Step(torn, progSize, d).next);
      }
    }
  }

  // ---- at the checksum tags ----------------------------------------------------------------------------

  lemma SealValid(now: seq<byte>, crc: bv32, m: Mark, n: Mark)
    requires Segment(now, crc, m, n)
    ensures m.at + 4 <= |now| && IsValid(TagAt(now, m.at, m.tag)) && IsCrc(n.tag)
  {
    hide Unpack, IsValid, TagAt, Crc.Crc, FromLe, Flip, IsCrc, Follows;
    FollowsFields(TagAt(now, m.at, m.tag), n.tag, n.at - m.at - 4);
  }

  // A checksum tag that was programmed: either its checksum was not, or it is found.
  lemma SealStops(torn: seq<byte>, now: seq<byte>, progSize: nat, c: Cursor, n: Mark)
    requires progSize > 0 && |torn| == |now| && Segment(now, c.crc, Mark(c.at, c.ptag), n)
    requires torn[c.at..c.at + 4] == now[c.at..c.at + 4]
    ensures Step(torn, progSize, c).Stop? ==> !Step(torn, progSize, c).erased
  {
    hide Unpack, IsValid, TagAt, Crc.Crc, FromLe, Flip, IsCrc, Follows;
    SameTag(torn, now, c.at, c.ptag);
    FollowsFields(TagAt(now, c.at, c.ptag), n.tag, n.at - c.at - 4);
  }

  lemma {:induction false} TornSealsJudged(was: seq<byte>, now: seq<byte>, torn: seq<byte>, progSize: nat, p: nat,
          crc: bv32, marks: seq<Mark>, i: nat, log: seq<Item>)
    requires progSize > 0 && Torn(was, now, torn, p) && Sealed(now, crc, marks) && AllQuiet(was, marks)
    requires 0 < i < |marks| && p <= marks[|marks| - 1].at
    requires NoFalseSeal(torn, progSize, p, SealCursor(marks[i], log))
    ensures Judged(torn, p, Scan(torn, progSize, SealCursor(marks[i], log)))
    decreases |marks| - i
  {
    hide *;
    var m, c := marks[i], SealCursor(marks[i], log);
    TornIs(was, now, torn, p);
    SealCursorIs(m, log);
    QuietAt(was, marks, i);
    if m.at < p {
      SealedAt(now, crc, marks, i);
      SealValid(now, NULL_WORD, m, marks[i + 1]);
    }
    if p < m.at + 4 {
      AtSeal(was, now, torn, progSize, p, c);
    } else {
      var n := marks[i + 1];
      SegmentBounds(now, NULL_WORD, m, n);
      SameSlice(torn, now, p, m.at, m.at + 4);
      StepTornSegment(torn, now, progSize, c, n);
      SealStops(torn, now, progSize, c, n);
      ScanIs(torn, progSize, c);
      if Step(torn, progSize, c).Go? {
        SealIs(torn, progSize, p, c);
        SealCursorIs(n, log);
        TornSealsJudged(was, now, torn, progSize, p, crc, marks, i + 1, log);
      } else {
        NotErasedIsJudged(torn, p, Scan(torn, progSize, c));
      }
    }
  }

  lemma SealCursorIs(m: Mark, log: seq<Item>)
    ensures SealCursor(m, log) == Cursor(m.at, m.tag, NULL_WORD, log, Found(m.at, m.tag, log))
  {
  }

  lemma QuietAt(was: seq<byte>, marks: seq<Mark>, i: nat)
    requires AllQuiet(was, marks) && 0 < i < |marks|
    ensures Quiet(was, marks[i])
  {
    hide Quiet;
  }

  lemma SealedAt(now: seq<byte>, crc: bv32, marks: seq<Mark>, i: nat)
    requires Sealed(now, crc, marks) && i < |marks|
    ensures i + 1 < |marks| ==> Segment(now, if i == 0 then crc else NULL_WORD, marks[i], marks[i + 1])
  {
    hide Segment;
    assert i + 1 < |marks| ==> SegmentAt(now, crc, marks, i);
  }

  // From the end of the attributes on, once their first checksum tag has been programmed.
  lemma TornFirstSealJudged(was: seq<byte>, now: seq<byte>, torn: seq<byte>, progSize: nat, p: nat, s: Cursor,
          marks: seq<Mark>)
    requires progSize > 0 && Torn(was, now, torn, p) && AllQuiet(was, marks) && |marks| >= 2
    requires marks[0] == Mark(s.at, s.ptag) && Sealed(now, s.crc, marks)
    requires s.at + 4 <= p <= marks[|marks| - 1].at && NoFalseSeal(torn, progSize, p, s)
    ensures Judged(torn, p, Scan(torn, progSize, s))
  {
    hide *;
    var n := marks[1];
    TornIs(was, now, torn, p);
    SealedAt(now, s.crc, marks, 0);
    SegmentBounds(now, s.crc, marks[0], n);
    SameSlice(torn, now, p, s.at, s.at + 4);
    StepTornSegment(torn, now, progSize, s, n);
    SealStops(torn, now, progSize, s, n);
    ScanIs(torn, progSize, s);
    if Step(torn, progSize, s).Go? {
      SealIs(torn, progSize, p, s);
      SealCursorIs(n, s.pending);
      TornSealsJudged(was, now, torn, progSize, p, s.crc, marks, 1, s.pending);
    } else {
      NotErasedIsJudged(torn, p, Scan(torn, progSize, s));
    }
  }

  // ---- a torn append -----------------------------------------------------------------------------------

  // The first word of a commit is valid.
  lemma FirstWordValid(now: seq<byte>, c: Cursor, items: seq<Item>, marks: seq<Mark>)
    requires AllStorable(items) && |marks| >= 2 && marks[0] == Mark(Past(c, items).at, Past(c, items).ptag)
    requires c.at + |Encode(c.ptag, items)| <= |now|
    requires now[c.at..c.at + |Encode(c.ptag, items)|] == Encode(c.ptag, items)
    requires Sealed(now, Past(c, items).crc, marks)
    ensures c.at + 4 <= |now| && IsValid(TagAt(now, c.at, c.ptag))
  {
    hide *;
    if items == [] {
      NoItems(c.ptag);
      PastIs(c, items);
      SealedAt(now, Past(c, items).crc, marks, 0);
      SealValid(now, Past(c, items).crc, marks[0], marks[1]);
    } else {
      FirstItem(c.ptag, items);
      FirstItemValid(now, c, items);
    }
  }

  lemma {:induction false} FirstItem(prev: bv32, items: seq<Item>)
    requires items != [] && AllStorable(items)
    ensures var bytes := Encode(prev, items);
            |bytes| >= 4 && Storable(items[0]) && bytes[..4] == ItemBytes(prev, items[0])[..4]
            && |ItemBytes(prev, items[0])| >= 4
    decreases |items|
  {
    var init, x := items[..|items| - 1], items[|items| - 1];
    assert items == init + [x];
    hide Encode, ItemBytes, Storable, LastWord;
    StorableInit(items);
    EncodeSnoc(prev, init, x);
    ItemLength(LastWord(prev, init), x);
    TagIsThere(x);
    if init == [] {
      NoItems(prev);
      assert [] + ItemBytes(prev, x) == ItemBytes(prev, x);
    } else {
      FirstItem(prev, init);
      FirstFour(Encode(prev, init), ItemBytes(LastWord(prev, init), x));
    }
  }

  lemma FirstFour(a: seq<byte>, b: seq<byte>)
    requires |a| >= 4
    ensures (a + b)[..4] == a[..4]
  {
  }

  lemma FirstItemValid(now: seq<byte>, c: Cursor, items: seq<Item>)
    requires items != [] && Storable(items[0]) && |Encode(c.ptag, items)| >= 4
    requires Encode(c.ptag, items)[..4] == ItemBytes(c.ptag, items[0])[..4] && |ItemBytes(c.ptag, items[0])| >= 4
    requires c.at + |Encode(c.ptag, items)| <= |now|
    requires now[c.at..c.at + |Encode(c.ptag, items)|] == Encode(c.ptag, items)
    ensures c.at + 4 <= |now| && IsValid(TagAt(now, c.at, c.ptag))
  {
    var x := items[0];
    Head(now, c.at, |Encode(c.ptag, items)|, 4);
    assert ItemBytes(c.ptag, x)[..4] == ToBe(Words.Xor(Word(x), c.ptag));
    hide Encode, ItemBytes, Pack, Unpack, IsValid, ToBe, FromBe, Words.Xor;
    TagOfBytes(Word(x), c.ptag);
    UnpackPack(x.tag);
  }

  lemma CommittedIs(now: seq<byte>, h: seq<Commit>, c: Commit)
    requires Holds(now, h + [c])
    ensures |now| >= 4 && |c.marks| >= 2 && AllStorable(c.items) && Holds(now, h)
    ensures var e := End(h);
            var bytes := Encode(e.tag, c.items);
            && e.at + |bytes| <= |now| && now[e.at..e.at + |bytes|] == bytes
            && c.marks[0] == Mark(e.at + |bytes|, LastWord(e.tag, c.items))
            && Sealed(now, Crc.Crc(Seed(now, h), bytes), c.marks)
            && End(h + [c]) == c.marks[|c.marks| - 1]
  {
    hide *;
    SnocPrefix(h, c);
    HoldsLast(now, h + [c]);
    CommittedParts(now, End(h).at, End(h).tag, Seed(now, h), c);
    EndOfLast(h + [c]);
  }

  lemma HoldsLast(blk: seq<byte>, h: seq<Commit>)
    requires Holds(blk, h) && h != []
    ensures var init := h[..|h| - 1];
            |blk| >= 4 && Holds(blk, init) && Committed(blk, End(init).at, End(init).tag, Seed(blk, init), h[|h| - 1])
  {
    hide Committed, End, Seed;
  }

  lemma CommittedParts(blk: seq<byte>, at: nat, ptag: bv32, crc: bv32, c: Commit)
    requires Committed(blk, at, ptag, crc, c)
    ensures var bytes := Encode(ptag, c.items);
            && AllStorable(c.items) && |c.marks| >= 2
            && at + |bytes| <= |blk| && blk[at..at + |bytes|] == bytes
            && c.marks[0] == Mark(at + |bytes|, LastWord(ptag, c.items)) && Sealed(blk, Crc.Crc(crc, bytes), c.marks)
  {
    hide Encode, AllStorable, Sealed, LastWord, Crc.Crc;
  }

  lemma EndOfLast(h: seq<Commit>)
    requires h != []
    ensures var marks := h[|h| - 1].marks; marks != [] ==> End(h) == marks[|marks| - 1]
  {
  }

  lemma CursorIs(blk: seq<byte>, h: seq<Commit>)
    requires |blk| >= 4 && h != []
    ensures var c := CursorAfter(blk, h);
            && c.at == End(h).at && c.ptag == End(h).tag && c.crc == Seed(blk, h)
            && c.found == Found(End(h).at, End(h).tag, LogOf(h))
  {
    hide LogOf, Crc.Crc, End;
  }

  // The scan gets as far as the commits of before.
  lemma AtHistory(was: seq<byte>, now: seq<byte>, torn: seq<byte>, progSize: nat, p: nat, h: seq<Commit>, c: Commit)
    requires progSize > 0 && h != [] && Holds(now, h + [c]) && Torn(was, now, torn, p) && End(h).at <= p && |torn| >= 4
    ensures var s := CursorAfter(torn, h);
            && ScanBlock(torn, progSize) == Scan(torn, progSize, s) && Reaches(torn, progSize, Start(torn), s)
            && s.at + 4 <= |torn| && IsCrc(s.ptag) && IsValid(TagAt(now, s.at, s.ptag))
  {
    hide *;
    TornIs(was, now, torn, p);
    CommittedIs(now, h, c);
    Bounds(now, h);
    var k := End(h).at;
    SameSlice(now, torn, p, 0, k);
    Head(now, 0, |now|, k);
    Head(torn, 0, |torn|, k);
    Whole(now);
    Whole(torn);
    HoldsFrame(now, torn, h);
    ScanHistory(torn, progSize, h);
    var s := CursorAfter(torn, h);
    CursorIs(torn, h);
    ScanBlockIs(torn, progSize);
    ReachesScan(torn, progSize, Start(torn), s);
    PastIs(s, c.items);
    SameSeed(now, torn, h);
    FirstWordValid(now, s, c.items, c.marks);
  }

  // Power lost at any byte of an append: if the next fetch takes the rest of the block to be
  // erased, nothing after the commits it has found was programmed, exactly when the next word
  // is invalid. Otherwise that word has been programmed in part, in its first byte at least,
  // and says that it is longer than the block.
  lemma TornIsJudged(was: seq<byte>, now: seq<byte>, torn: seq<byte>, progSize: nat, p: nat, h: seq<Commit>, c: Commit)
    requires progSize > 0 && h != [] && Holds(now, h + [c]) && Torn(was, now, torn, p)
    requires End(h).at <= p <= End(h + [c]).at && AllQuiet(was, c.marks) && Quiet(was, End(h))
    requires |torn| >= 4 && NoFalseSeal(torn, progSize, p, Start(torn))
    ensures Judged(torn, p, ScanBlock(torn, progSize))
  {
    hide *;
    TornIs(was, now, torn, p);
    CommittedIs(now, h, c);
    AtHistory(was, now, torn, progSize, p, h, c);
    var k, s := End(h).at, CursorAfter(torn, h);
    Onwards(torn, progSize, p, Start(torn), s);
    CursorIs(torn, h);
    var d := Past(s, c.items);
    PastIs(s, c.items);
    SameSeed(now, torn, h);
    if p < k + 4 {
      EndIsMark(h);
      AtSeal(was, now, torn, progSize, p, s);
    } else if p < d.at + 4 {
      TornItemsJudged(torn, now, progSize, p, s, c.items);
      NotErasedIsJudged(torn, p, Scan(torn, progSize, s));
    } else {
      SameSlice(torn, now, p, k, d.at);
      ScanItems(torn, progSize, s, c.items);
      ReachesScan(torn, progSize, s, d);
      Onwards(torn, progSize, p, s, d);
      TornFirstSealJudged(was, now, torn, progSize, p, d, c.marks);
    }
  }

  // When only a part of the next word was programmed: exactly when that word, as it is then,
  // claims more bytes than there are, and the commits end at a program unit.
  lemma TornWord(was: seq<byte>, now: seq<byte>, torn: seq<byte>, progSize: nat, p: nat, h: seq<Commit>, c: Commit)
    requires progSize > 0 && h != [] && Holds(now, h + [c]) && Torn(was, now, torn, p)
    requires |torn| >= 4 && NoFalseSeal(torn, progSize, p, Start(torn)) && End(h).at < p < End(h).at + 4
    ensures End(h).at + 4 <= |torn|
    ensures var s := ScanBlock(torn, progSize);
            && (s.erased ==> s.found.off == End(h).at)
            && (s.erased <==>
                  && End(h).at % progSize == 0
                  && End(h).at + Unpack(TagAt(torn, End(h).at, End(h).tag)).Dsize() > |torn|)
  {
    hide *;
    AtHistory(was, now, torn, progSize, p, h, c);
    TornIs(was, now, torn, p);
    var s := CursorAfter(torn, h);
    Onwards(torn, progSize, p, Start(torn), s);
    CursorIs(torn, h);
    PartlyValid(torn, now, p, s.at, s.ptag);
    WordJudged(torn, progSize, s);
    ScanIs(torn, progSize, s);
    if Step(torn, progSize, s).Go? {
      SealIs(torn, progSize, p, s);
      NothingNew(torn, progSize, s);
      BeyondItem(torn, progSize, p, Step(torn, progSize, s).next);
    }
  }

  lemma WordJudged(blk: seq<byte>, progSize: nat, c: Cursor)
    requires progSize > 0 && c.at + 4 <= |blk| && IsValid(TagAt(blk, c.at, c.ptag)) && IsCrc(c.ptag)
    requires c.found.off == c.at
    ensures c.at + Unpack(TagAt(blk, c.at, c.ptag)).Dsize() > |blk| ==>
              Step(blk, progSize, c) == Stop(c.at % progSize == 0)
    ensures Step(blk, progSize, c).Stop? && Step(blk, progSize, c).erased ==>
              c.at % progSize == 0 && c.at + Unpack(TagAt(blk, c.at, c.ptag)).Dsize() > |blk|
  {
    hide Unpack, IsValid, TagAt, Crc.Crc, FromLe, Flip, IsCrc;
  }

  lemma EndIsMark(h: seq<Commit>)
    ensures Mark(End(h).at, End(h).tag) == End(h)
  {
    hide End;
  }

  lemma SameSeed(now: seq<byte>, torn: seq<byte>, h: seq<Commit>)
    requires |now| >= 4 && |torn| >= 4 && h != []
    ensures Seed(now, h) == Seed(torn, h)
  {
    hide Crc.Crc;
  }

  lemma ScanBlockIs(blk: seq<byte>, progSize: nat)
    requires |blk| >= 4 && progSize > 0
    ensures ScanBlock(blk, progSize) == Scan(blk, progSize, Start(blk))
  {
    hide Scan, Start;
  }

  lemma Whole(s: seq<byte>)
    ensures s[0..0 + |s|] == s
  {
  }

  // ---- program units of a word or more -----------------------------------------------------------------

  lemma {:induction false} ErasedIsAligned(blk: seq<byte>, progSize: nat, c: Cursor)
    requires progSize > 0
    ensures Scan(blk, progSize, c).erased ==> Scan(blk, progSize, c).found.off % progSize == 0
    decreases |blk| - c.at
  {
    ScanIs(blk, progSize, c);
    StopIsAligned(blk, progSize, c);
    hide *;
    if Step(blk, progSize, c).Go? {
      ErasedIsAligned(blk, progSize, Step(blk, progSize, c).next);
    }
  }

  lemma StopIsAligned(blk: seq<byte>, progSize: nat, c: Cursor)
    requires progSize > 0
    ensures Step(blk, progSize, c).Stop? && Step(blk, progSize, c).erased ==> c.found.off % progSize == 0
  {
    hide Unpack, IsValid, TagAt, Crc.Crc, FromLe, Flip, IsCrc;
  }

  // When power is lost between program units of four bytes or more, no word is programmed in
  // part, and what is taken to be erased is.
  lemma ErasedIsErased(was: seq<byte>, now: seq<byte>, torn: seq<byte>, progSize: nat, p: nat, h: seq<Commit>,
                       c: Commit)
    requires progSize >= 4 && p % progSize == 0 && h != [] && Holds(now, h + [c]) && Torn(was, now, torn, p)
    requires End(h).at <= p <= End(h + [c]).at && AllQuiet(was, c.marks) && Quiet(was, End(h))
    requires |torn| >= 4 && NoFalseSeal(torn, progSize, p, Start(torn))
    ensures ScanBlock(torn, progSize).erased ==> p <= ScanBlock(torn, progSize).found.off
  {
    hide *;
    TornIsJudged(was, now, torn, progSize, p, h, c);
    ScanBlockIs(torn, progSize);
    ErasedIsAligned(torn, progSize, Start(torn));
    var s := ScanBlock(torn, progSize);
    JudgedIs(torn, p, s);
    if s.erased && s.found.off < p {
      Units(s.found.off, p, progSize);
    }
  }

  lemma JudgedIs(blk: seq<byte>, p: nat, s: Outcome)
    requires Judged(blk, p, s)
    ensures s.erased && s.found.off < p ==> p < s.found.off + 4
  {
    hide TagAt, IsValid, Unpack;
  }

  lemma Units(a: nat, b: nat, n: nat)
    requires n > 0 && a % n == 0 && b % n == 0 && a < b
    ensures a + n <= b
  {
    var i, j := a / n, b / n;
    WholeUnits(a, n);
    WholeUnits(b, n);
    Less(i, j, n);
    TimesMonotone(i + 1, j, n);
    OneUnitMore(i, n);
  }

  lemma WholeUnits(a: nat, n: nat)
    requires n > 0 && a % n == 0
    ensures a == (a / n) * n
  {
  }

  lemma OneUnitMore(i: int, n: nat)
    ensures (i + 1) * n == i * n + n
  {
  }

  lemma Less(i: int, j: int, n: nat)
    requires i * n < j * n
    ensures i < j
  {
    if j <= i {
      TimesMonotone(j, i, n);
    }
  }

  lemma TimesMonotone(j: int, i: int, n: nat)
    requires j <= i
    ensures j * n <= i * n
  {
    assert i * n == j * n + (i - j) * n;
  }

  // ---- an example -------------------------------------------------------------------------------------

  // In a block of 32 bytes, with program units of one, an attribute is appended to a commit that
  // ends at byte 12. Power is lost when one byte of its tag has been programmed, and the tag as
  // it is then claims 1019 bytes.
  method TornByte() returns (torn: seq<byte>, ghost was: seq<byte>, ghost now: seq<byte>, ghost h: seq<Commit>,
                             ghost c: Commit)
    ensures h != [] && Holds(was, h) && Holds(now, h + [c]) && Torn(was, now, torn, 13)
    ensures |torn| == 32 && ScanBlock(torn, 1).erased && ScanBlock(torn, 1).found.off == 12
  {
    hide *;
    var blk := new byte[32](i => 0xff);
    ghost var blank := blk[..];
    var w := new Writer.Compact(blk, 1);
    WriterAt(w);
    StartsAtFour();
    UnitsOfOne(4, 32);
    ghost var first;
    var ok;
    ok, first := w.Seal(1);
    was, h := blk[..], [first];
    assert [] + [first] == h;
    var v := new Writer.Append(blk, w.off, w.ptag, h);
    WriterAt(v);
    SmallStorable();
    var before := blk[..];
    ok := v.Attr(SMALL);
    UnitsOfOne(16, 32);
    ok, c := v.Seal(1);
    now := blk[..];
    torn := blk[..][..13] + before[13..];
    OnesStay(blank, before, 12);
    SplicedIs(was, now, torn, 13);
    OneByte(was, now, torn, h, c);
  }

  lemma OnesStay(blank: seq<byte>, blk: seq<byte>, at: nat)
    requires |blank| == |blk| == 32 && at <= 32 && (forall i :: 0 <= i < 32 ==> blank[i] == 0xff)
    requires blk[at..] == blank[at..]
    ensures forall i :: at <= i < 32 ==> blk[i] == 0xff
  {
    forall i | at <= i < 32
      ensures blk[i] == 0xff
    {
      assert blk[i] == blk[at..][i - at] == blank[at..][i - at] == blank[i];
    }
  }

  lemma SplicedIs(was: seq<byte>, now: seq<byte>, torn: seq<byte>, p: nat)
    requires |was| == |now| && p <= |now| && torn == now[..p] + was[p..]
    ensures Torn(was, now, torn, p) && |torn| == |now|
  {
    assert torn[..p] == now[..p] && torn[p..] == was[p..];
  }

  lemma OneByte(was: seq<byte>, now: seq<byte>, torn: seq<byte>, h: seq<Commit>, c: Commit)
    requires |h| == 1 && Holds(was, h) && Holds(now, h + [c]) && Torn(was, now, torn, 13) && End(h).at == 12
    requires |torn| == 32 && forall i :: 12 <= i < 32 ==> was[i] == 0xff
    ensures ScanBlock(torn, 1).erased && ScanBlock(torn, 1).found.off == 12
  {
    hide *;
    TornIs(was, now, torn, 13);
    AtHistory(was, now, torn, 1, 13, h, c);
    var s := CursorAfter(torn, h);
    CursorIs(torn, h);
    PartlyValid(torn, now, 13, 12, s.ptag);
    OnlySeal(was, h);
    assert torn[13] == torn[13..][0] == was[13..][0] && torn[14] == torn[13..][1] == was[13..][1];
    assert torn[15] == torn[13..][2] == was[13..][2];
    OnesClaim(torn[12..16], s.ptag);
    TagIs(torn, 12, s.ptag);
    WordJudged(torn, 1, s);
    ScanIs(torn, 1, s);
  }

  lemma TagIs(blk: seq<byte>, at: nat, t: bv32)
    requires at + 4 <= |blk|
    ensures TagAt(blk, at, t) == Words.Xor(FromBe(blk[at..at + 4]), t)
  {
    hide FromBe, Words.Xor;
  }

  // A checksum that ends at byte 12 of a block is the first thing in it.
  lemma OnlySeal(blk: seq<byte>, h: seq<Commit>)
    requires |h| == 1 && Holds(blk, h) && End(h).at == 12
    ensures Unpack(End(h).tag).size == 4
  {
    hide *;
    assert h == [] + [h[0]];
    CommittedIs(blk, [], h[0]);
    var marks, crc := h[0].marks, Crc.Crc(Seed(blk, []), Encode(End([]).tag, h[0].items));
    var i := |marks| - 2;
    StartsAtFour();
    if i > 0 {
      MarksGrow(blk, crc, marks, 0, i);
    }
    MarksGrow(blk, crc, marks, i, i + 1);
    SealedAt(blk, crc, marks, i);
    SealSize(blk, if i == 0 then crc else NULL_WORD, marks[i], marks[i + 1]);
  }

  lemma StartsAtFour()
    ensures End([]).at == 4
  {
  }

  lemma SealSize(blk: seq<byte>, crc: bv32, m: Mark, n: Mark)
    requires Segment(blk, crc, m, n)
    ensures Unpack(n.tag).size == n.at - m.at - 4
  {
    hide Unpack, IsValid, TagAt, Crc.Crc, FromLe, Flip, IsCrc, Follows;
    FollowsFields(TagAt(blk, m.at, m.tag), n.tag, n.at - m.at - 4);
  }

  lemma OnesClaim(s: seq<byte>, t: bv32)
    requires |s| == 4 && s[1] == 0xff && s[2] == 0xff && s[3] == 0xff && Unpack(t).size == 4
    ensures Unpack(Words.Xor(FromBe(s), t)).Dsize() == 1023
  {
    SameField10(SizeBits(t), 4);
    OnesBits(s[0], t);
  }

  lemma OnesBits(b: byte, t: bv32)
    ensures SizeBits(((b as bv32 << 24) | (0xff as bv32 << 16) | (0xff as bv32 << 8) | (0xff as bv32)) ^ t)
         == 0x3ff ^ SizeBits(t)
  {
  }

  lemma WriterAt(w: Writer)
    requires w.Valid() && w.items == []
    ensures w.off == End(w.h).at && w.end == w.blk.Length - 8
  {
    hide Holds, End, AllStorable, Crc.Crc, Seed;
  }

  const SMALL := Item(RawTag.Tag(TYPE_USERATTR, 0, 0), [])

  lemma SmallStorable()
    ensures Storable(SMALL) && SMALL.tag.Dsize() == 4
  {
  }

  lemma UnitsOfOne(a: nat, b: nat)
    ensures AlignUp(a + 8, 1) == a + 8 && b % 1 == 0
  {
  }
}
