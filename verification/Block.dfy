// The bytes of a metadata block: a revision count, then commits. A commit is a run of
// attributes, each tag exclusive-ored with the tag before it, sealed by checksum tags
// that also pad it to a program unit.
module Block {
  import opened Tags
  import opened Log
  import opened Util
  import Crc
  import Words

  // ---- reading forwards: the scan of lfs_dir_fetchmatch ---------------------------------------

  // What the last good checksum vouches for; off is zero until there has been one.
  datatype Found = Found(off: nat, etag: bv32, log: seq<Item>)

  datatype Cursor = Cursor(at: nat, ptag: bv32, crc: bv32, pending: seq<Item>, found: Found)

  datatype Move = Go(next: Cursor) | Stop(erased: bool)

  datatype Outcome = Outcome(found: Found, erased: bool)

  predicate IsCrc(w: bv32) {
    Kind(Unpack(w).type3) == TYPE_CRC
  }

  // A checksum tag with an odd chunk flips the validity bit of what comes next.
  function Flip(w: bv32, reset: bool): bv32 {
    if reset then Words.Xor(w, 0x8000_0000) else w
  }

  function TagAt(blk: seq<byte>, at: nat, ptag: bv32): bv32
    requires at + 4 <= |blk|
  {
    Words.Xor(FromBe(blk[at..at + 4]), ptag)
  }

  // One round of the scan. Reading past the end of the block reads as corruption.
  function Step(blk: seq<byte>, progSize: nat, c: Cursor): Move
    requires progSize > 0
  {
    if c.at + 4 > |blk| then Stop(false)
    else
      var tag := TagAt(blk, c.at, c.ptag);
      var crc := Crc.Crc(c.crc, blk[c.at..c.at + 4]);
      var next := c.at + Unpack(tag).Dsize();
      if !IsValid(tag) || next > |blk| then Stop(IsCrc(c.ptag) && c.found.off % progSize == 0)
      else if IsCrc(tag) then
        if c.at + 8 > |blk| || FromLe(blk[c.at + 4..c.at + 8]) != crc then Stop(false)
        else
          var ptag := Flip(tag, Unpack(tag).type3 % 2 == 1);
          Go(Cursor(next, ptag, NULL_WORD, c.pending, Found(next, ptag, c.pending)))
      else
        var data := blk[c.at + 4..next];
        Go(Cursor(next, tag, Crc.Crc(crc, data), c.pending + [Item(Unpack(tag), data)], c.found))
  }

  lemma StepAdvances(blk: seq<byte>, progSize: nat, c: Cursor)
    requires progSize > 0
    ensures Step(blk, progSize, c).Go? ==> c.at + 4 <= Step(blk, progSize, c).next.at <= |blk|
  {
  }

  function Scan(blk: seq<byte>, progSize: nat, c: Cursor): Outcome
    requires progSize > 0
    decreases |blk| - c.at
  {
    StepAdvances(blk, progSize, c);
    match Step(blk, progSize, c)
    case Stop(erased) => Outcome(c.found, erased)
    case Go(next) => Scan(blk, progSize, next)
  }

  // The scan gets from one cursor to another.
  predicate Reaches(blk: seq<byte>, progSize: nat, c: Cursor, d: Cursor)
    requires progSize > 0
    decreases |blk| - c.at
  {
    StepAdvances(blk, progSize, c);
    c == d || (Step(blk, progSize, c).Go? && Reaches(blk, progSize, Step(blk, progSize, c).next, d))
  }

  lemma {:induction false} ReachesTrans(blk: seq<byte>, progSize: nat, c: Cursor, d: Cursor, e: Cursor)
    requires progSize > 0 && Reaches(blk, progSize, c, d) && Reaches(blk, progSize, d, e)
    ensures Reaches(blk, progSize, c, e)
    decreases |blk| - c.at
  {
    StepAdvances(blk, progSize, c);
    hide Step;
    if c != d {
      ReachesTrans(blk, progSize, Step(blk, progSize, c).next, d, e);
    }
  }

  lemma ReachesOne(blk: seq<byte>, progSize: nat, c: Cursor, d: Cursor)
    requires progSize > 0 && Step(blk, progSize, c) == Go(d)
    ensures Reaches(blk, progSize, c, d)
  {
    hide Step;
  }

  lemma {:induction false} ReachesScan(blk: seq<byte>, progSize: nat, c: Cursor, d: Cursor)
    requires progSize > 0 && Reaches(blk, progSize, c, d)
    ensures Scan(blk, progSize, c) == Scan(blk, progSize, d)
    decreases |blk| - c.at
  {
    StepAdvances(blk, progSize, c);
    hide Step;
    if c != d {
      ReachesScan(blk, progSize, Step(blk, progSize, c).next, d);
    }
  }

  const NOTHING := Found(0, NULL_WORD, [])

  function Start(blk: seq<byte>): Cursor
    requires |blk| >= 4
  {
    Cursor(4, NULL_WORD, Crc.Crc(NULL_WORD, blk[..4]), [], NOTHING)
  }

  function ScanBlock(blk: seq<byte>, progSize: nat): Outcome
    requires |blk| >= 4 && progSize > 0
  {
    Scan(blk, progSize, Start(blk))
  }

  // ---- the bytes of a commit -------------------------------------------------------------------

  // Attributes that can be laid out: every field in range, as many payload bytes as the
  // tag says, and not a checksum.
  predicate Storable(x: Item) {
    x.tag.InRange() && Kind(x.tag.type3) != TYPE_CRC && |x.data| == x.tag.PayloadSize()
  }

  predicate AllStorable(items: seq<Item>) {
    forall i :: 0 <= i < |items| ==> Storable(items[i])
  }

  function Word(x: Item): bv32 {
    if x.tag.InRange() then Pack(x.tag) else 0
  }

  function LastWord(prev: bv32, items: seq<Item>): bv32 {
    if items == [] then prev else Word(items[|items| - 1])
  }

  function ItemBytes(prev: bv32, x: Item): seq<byte> {
    ToBe(Words.Xor(Word(x), prev)) + x.data
  }

  function Encode(prev: bv32, items: seq<Item>): seq<byte> {
    if items == [] then []
    else
      var init := items[..|items| - 1];
      Encode(prev, init) + ItemBytes(LastWord(prev, init), items[|items| - 1])
  }

  // Where a checksum tag stands, and the word its own tag is exclusive-ored with.
  datatype Mark = Mark(at: nat, tag: bv32)

  // A commit: its attributes, and its checksum tags. Between two successive marks lie one
  // checksum tag, its checksum and padding; the last mark is the end of the commit.
  datatype Commit = Commit(items: seq<Item>, marks: seq<Mark>)

  function CrcTag(reset: bool, size: nat): Tag
    requires size <= 0x3fe
  {
    RawTag.Tag(TYPE_CRC + if reset then 1 else 0, NO_ID, size)
  }

  function CrcWord(reset: bool, size: nat): bv32
    requires size <= 0x3fe
  {
    Pack(CrcTag(reset, size))
  }

  predicate Follows(tag: bv32, next: bv32, size: nat)
    requires size <= 0x3fe
  {
    (tag == CrcWord(false, size) && next == tag) || (tag == CrcWord(true, size) && next == Flip(tag, true))
  }

  predicate Segment(blk: seq<byte>, crc: bv32, m: Mark, n: Mark) {
    && m.at + 8 <= n.at <= |blk| && n.at - m.at - 4 <= 0x3fe
    && Follows(TagAt(blk, m.at, m.tag), n.tag, n.at - m.at - 4)
    && FromLe(blk[m.at + 4..m.at + 8]) == Crc.Crc(crc, blk[m.at..m.at + 4])
  }

  predicate SegmentAt(blk: seq<byte>, crc: bv32, marks: seq<Mark>, i: nat)
    requires i + 1 < |marks|
  {
    Segment(blk, if i == 0 then crc else NULL_WORD, marks[i], marks[i + 1])
  }

  // crc is the running checksum over the attributes of the commit.
  ghost predicate Sealed(blk: seq<byte>, crc: bv32, marks: seq<Mark>) {
    forall i: nat :: i + 1 < |marks| ==> SegmentAt(blk, crc, marks, i)
  }

  ghost predicate Committed(blk: seq<byte>, at: nat, ptag: bv32, crc: bv32, c: Commit) {
    var bytes := Encode(ptag, c.items);
    && AllStorable(c.items) && |c.marks| >= 2
    && at + |bytes| <= |blk| && blk[at..at + |bytes|] == bytes
    && c.marks[0] == Mark(at + |bytes|, LastWord(ptag, c.items))
    && Sealed(blk, Crc.Crc(crc, bytes), c.marks)
  }

  // ---- a block as a history of commits ----------------------------------------------------------

  function End(h: seq<Commit>): Mark {
    if h == [] || h[|h| - 1].marks == [] then Mark(4, NULL_WORD)
    else var marks := h[|h| - 1].marks; marks[|marks| - 1]
  }

  function LogOf(h: seq<Commit>): seq<Item> {
    if h == [] then [] else LogOf(h[..|h| - 1]) + h[|h| - 1].items
  }

  // The checksum of the first commit also covers the revision count.
  function Seed(blk: seq<byte>, h: seq<Commit>): bv32
    requires |blk| >= 4
  {
    if h == [] then Crc.Crc(NULL_WORD, blk[..4]) else NULL_WORD
  }

  ghost predicate Holds(blk: seq<byte>, h: seq<Commit>)
  {
    |blk| >= 4 &&
    (h != [] ==>
      var init := h[..|h| - 1];
      Holds(blk, init) && Committed(blk, End(init).at, End(init).tag, Seed(blk, init), h[|h| - 1]))
  }

  function FoundAfter(h: seq<Commit>): Found {
    if h == [] then NOTHING else Found(End(h).at, End(h).tag, LogOf(h))
  }

  function CursorAfter(blk: seq<byte>, h: seq<Commit>): Cursor
    requires |blk| >= 4
  {
    Cursor(End(h).at, End(h).tag, Seed(blk, h), LogOf(h), FoundAfter(h))
  }

  // ---- the scan passes over what is laid out -------------------------------------------------------

  function Past(c: Cursor, items: seq<Item>): Cursor {
    var bytes := Encode(c.ptag, items);
    Cursor(c.at + |bytes|, LastWord(c.ptag, items), Crc.Crc(c.crc, bytes), c.pending + items, c.found)
  }

  lemma TagOfBytes(w: bv32, prev: bv32)
    ensures Words.Xor(FromBe(ToBe(Words.Xor(w, prev))), prev) == w
  {
    FromBeToBe(Words.Xor(w, prev));
    Words.XorTwice(w, prev);
    hide ToBe, FromBe, Words.Xor;
  }

  lemma StepItem(blk: seq<byte>, progSize: nat, c: Cursor, x: Item)
    requires progSize > 0 && Storable(x)
    requires c.at + x.tag.Dsize() <= |blk|
    requires blk[c.at..c.at + x.tag.Dsize()] == ItemBytes(c.ptag, x)
    ensures Step(blk, progSize, c)
         == Go(Cursor(c.at + x.tag.Dsize(), Word(x), Crc.Crc(c.crc, ItemBytes(c.ptag, x)), c.pending + [x], c.found))
  {
    hide Pack, Unpack, IsValid, ToBe, FromBe, Words.Xor, Crc.Crc, FromLe;
    var n := x.tag.Dsize();
    var word := ToBe(Words.Xor(Word(x), c.ptag));
    assert blk[c.at..c.at + 4] == word by {
      assert blk[c.at..c.at + 4] == blk[c.at..c.at + n][..4];
      assert ItemBytes(c.ptag, x)[..4] == word;
    }
    assert blk[c.at + 4..c.at + n] == x.data by {
      assert blk[c.at + 4..c.at + n] == blk[c.at..c.at + n][4..];
      assert ItemBytes(c.ptag, x)[4..] == x.data;
    }
    TagOfBytes(Word(x), c.ptag);
    UnpackPack(x.tag);
    Crc.CrcConcat(c.crc, word, x.data);
  }

  lemma EncodeSnoc(prev: bv32, items: seq<Item>, x: Item)
    ensures Encode(prev, items + [x]) == Encode(prev, items) + ItemBytes(LastWord(prev, items), x)
    ensures LastWord(prev, items + [x]) == Word(x)
  {
    hide ItemBytes, Word;
    SnocPrefix(items, x);
  }

  lemma Slices<T>(s: seq<T>, at: nat, a: seq<T>, b: seq<T>)
    requires at + |a + b| <= |s| && s[at..at + |a + b|] == a + b
    ensures s[at..at + |a|] == a && s[at + |a|..at + |a + b|] == b
  {
    assert s[at..at + |a|] == s[at..at + |a + b|][..|a|];
    assert s[at + |a|..at + |a + b|] == s[at..at + |a + b|][|a|..];
  }

  lemma PastSnoc(c: Cursor, items: seq<Item>, x: Item)
    requires Storable(x)
    ensures var d := Past(c, items);
            Past(c, items + [x])
            == Cursor(d.at + x.tag.Dsize(), Word(x), Crc.Crc(d.crc, ItemBytes(d.ptag, x)), d.pending + [x], d.found)
  {
    hide Encode, LastWord, ItemBytes, Word, Crc.Crc;
    EncodeSnoc(c.ptag, items, x);
    ItemLength(LastWord(c.ptag, items), x);
    Crc.CrcConcat(c.crc, Encode(c.ptag, items), ItemBytes(LastWord(c.ptag, items), x));
    assert c.pending + (items + [x]) == c.pending + items + [x];
  }

  lemma PastIs(c: Cursor, items: seq<Item>)
    ensures Past(c, items).at == c.at + |Encode(c.ptag, items)| && Past(c, items).ptag == LastWord(c.ptag, items)
    ensures Past(c, items).crc == Crc.Crc(c.crc, Encode(c.ptag, items))
    ensures Past(c, items).pending == c.pending + items && Past(c, items).found == c.found
  {
    hide Encode, LastWord, Crc.Crc;
  }

  lemma {:induction false} ScanItems(blk: seq<byte>, progSize: nat, c: Cursor, items: seq<Item>)
    requires progSize > 0 && AllStorable(items)
    requires c.at + |Encode(c.ptag, items)| <= |blk|
    requires blk[c.at..c.at + |Encode(c.ptag, items)|] == Encode(c.ptag, items)
    ensures Reaches(blk, progSize, c, Past(c, items))
    decreases |items|
  {
    hide *;
    if items == [] {
      NothingPast(c);
      ReachesSelf(blk, progSize, c);
    } else {
      var init, x := items[..|items| - 1], items[|items| - 1];
      assert items == init + [x];
      StorableInit(items);
      EncodeSnoc(c.ptag, init, x);
      PastIs(c, init);
      var d := Past(c, init);
      ItemLength(d.ptag, x);
      Slices(blk, c.at, Encode(c.ptag, init), ItemBytes(d.ptag, x));
      ScanItems(blk, progSize, c, init);
      StepItem(blk, progSize, d, x);
      PastSnoc(c, init, x);
      ReachesOne(blk, progSize, d, Past(c, items));
      ReachesTrans(blk, progSize, c, d, Past(c, items));
    }
  }

  lemma NothingPast(c: Cursor)
    ensures Past(c, []) == c
  {
    EmptyCrc(c.crc);
    assert c.pending + [] == c.pending;
  }

  lemma EmptyCrc(crc: bv32)
    ensures Crc.Crc(crc, []) == crc
  {
  }

  lemma ItemLength(prev: bv32, x: Item)
    requires Storable(x)
    ensures |ItemBytes(prev, x)| == x.tag.Dsize()
  {
  }

  lemma CrcWordFields(reset: bool, size: nat)
    requires size <= 0x3fe
    ensures IsValid(CrcWord(reset, size)) && IsCrc(CrcWord(reset, size))
    ensures Unpack(CrcWord(reset, size)) == CrcTag(reset, size)
  {
    UnpackPack(CrcTag(reset, size));
    hide Pack, Unpack, IsValid;
  }

  lemma FlipFields(w: bv32, reset: bool)
    ensures Unpack(Flip(w, reset)) == Unpack(w) && IsCrc(Flip(w, reset)) == IsCrc(w)
  {
    IgnoresTopBit(w);
    hide Unpack;
  }

  lemma FollowsFields(tag: bv32, next: bv32, size: nat)
    requires size <= 0x3fe && Follows(tag, next, size)
    ensures IsValid(tag) && IsCrc(tag) && IsCrc(next)
    ensures Unpack(tag) == Unpack(next) && Unpack(tag).size == size
    ensures next == Flip(tag, Unpack(tag).type3 % 2 == 1)
  {
    hide CrcWord, IsValid, IsCrc, Unpack;
    CrcWordFields(false, size);
    CrcWordFields(true, size);
    FlipFields(tag, true);
  }

  lemma StepSegment(blk: seq<byte>, progSize: nat, c: Cursor, n: Mark)
    requires progSize > 0 && Segment(blk, c.crc, Mark(c.at, c.ptag), n)
    ensures Step(blk, progSize, c) == Go(Cursor(n.at, n.tag, NULL_WORD, c.pending, Found(n.at, n.tag, c.pending)))
    ensures IsCrc(n.tag) && Unpack(n.tag).Dsize() == n.at - c.at
  {
    hide Unpack, IsValid, TagAt, Crc.Crc, FromLe, Flip, IsCrc, Follows;
    FollowsFields(TagAt(blk, c.at, c.ptag), n.tag, n.at - c.at - 4);
  }

  lemma {:induction false} ScanSeals(blk: seq<byte>, progSize: nat, c: Cursor, marks: seq<Mark>, i: nat)
    requires progSize > 0 && 0 < i < |marks|
    requires marks[0] == Mark(c.at, c.ptag) && Sealed(blk, c.crc, marks)
    ensures var m := marks[i];
            Reaches(blk, progSize, c, Cursor(m.at, m.tag, NULL_WORD, c.pending, Found(m.at, m.tag, c.pending)))
    ensures IsCrc(marks[i].tag)
    decreases i
  {
    hide Segment, Step, Reaches, IsCrc, Unpack;
    var m, n := marks[i - 1], marks[i];
    var e := Cursor(n.at, n.tag, NULL_WORD, c.pending, Found(n.at, n.tag, c.pending));
    assert SegmentAt(blk, c.crc, marks, i - 1);
    if i == 1 {
      StepSegment(blk, progSize, c, n);
      ReachesOne(blk, progSize, c, e);
    } else {
      var d := Cursor(m.at, m.tag, NULL_WORD, c.pending, Found(m.at, m.tag, c.pending));
      ScanSeals(blk, progSize, c, marks, i - 1);
      StepSegment(blk, progSize, d, n);
      ReachesOne(blk, progSize, d, e);
      ReachesTrans(blk, progSize, c, d, e);
    }
  }

  lemma ScanCommit(blk: seq<byte>, progSize: nat, h: seq<Commit>, i: nat)
    requires progSize > 0 && h != [] && Holds(blk, h) && 0 < i < |h[|h| - 1].marks|
    ensures var m := h[|h| - 1].marks[i];
            && Reaches(blk, progSize, CursorAfter(blk, h[..|h| - 1]),
                       Cursor(m.at, m.tag, NULL_WORD, LogOf(h), Found(m.at, m.tag, LogOf(h))))
            && IsCrc(m.tag)
  {
    hide Reaches, Encode, Sealed, IsCrc, AllStorable, LastWord, Crc.Crc;
    var init, c := h[..|h| - 1], h[|h| - 1];
    var s := CursorAfter(blk, init);
    var m := c.marks[i];
    ScanItems(blk, progSize, s, c.items);
    ScanSeals(blk, progSize, Past(s, c.items), c.marks, i);
    ReachesTrans(blk, progSize, s, Past(s, c.items),
      Cursor(m.at, m.tag, NULL_WORD, LogOf(h), Found(m.at, m.tag, LogOf(h))));
  }

  lemma {:induction false} ScanHistory(blk: seq<byte>, progSize: nat, h: seq<Commit>)
    requires progSize > 0 && Holds(blk, h)
    ensures Reaches(blk, progSize, Start(blk), CursorAfter(blk, h))
    ensures h != [] ==> IsCrc(End(h).tag)
    decreases |h|
  {
    hide Reaches, Committed, IsCrc, Crc.Crc;
    if h == [] {
      ReachesSelf(blk, progSize, Start(blk));
    } else {
      var init, marks := h[..|h| - 1], h[|h| - 1].marks;
      MarksOf(blk, h);
      ScanHistory(blk, progSize, init);
      ScanCommit(blk, progSize, h, |marks| - 1);
      ReachesTrans(blk, progSize, Start(blk), CursorAfter(blk, init), CursorAfter(blk, h));
    }
  }

  lemma ReachesSelf(blk: seq<byte>, progSize: nat, c: Cursor)
    requires progSize > 0
    ensures Reaches(blk, progSize, c, c)
  {
  }

  lemma MarksOf(blk: seq<byte>, h: seq<Commit>)
    requires h != [] && Holds(blk, h)
    ensures |h[|h| - 1].marks| >= 2
  {
    hide Sealed, Encode, AllStorable, LastWord;
  }

  // ---- nothing after the last commit ------------------------------------------------------------------

  // The word after the commits decodes as an invalid tag.
  predicate Quiet(blk: seq<byte>, m: Mark) {
    m.at + 4 <= |blk| ==> !IsValid(TagAt(blk, m.at, m.tag))
  }

  // A fetch of a block that holds a history finds all of it.
  lemma ScanFindsHistory(blk: seq<byte>, progSize: nat, h: seq<Commit>)
    requires progSize > 0 && h != [] && Holds(blk, h) && Quiet(blk, End(h))
    ensures ScanBlock(blk, progSize)
         == Outcome(Found(End(h).at, End(h).tag, LogOf(h)), End(h).at + 4 <= |blk| && End(h).at % progSize == 0)
  {
    ScanHistory(blk, progSize, h);
    ReachesScan(blk, progSize, Start(blk), CursorAfter(blk, h));
    hide Holds, Reaches, IsCrc, LogOf, End, TagAt, IsValid;
  }

  // ---- what a history depends on ------------------------------------------------------------------------

  lemma {:induction false} MarksGrow(blk: seq<byte>, crc: bv32, marks: seq<Mark>, i: nat, j: nat)
    requires Sealed(blk, crc, marks) && i < j < |marks|
    ensures marks[i].at + 8 <= marks[j].at <= |blk|
    decreases j
  {
    hide Segment;
    assert SegmentAt(blk, crc, marks, j - 1);
    SegmentBounds(blk, if j == 1 then crc else NULL_WORD, marks[j - 1], marks[j]);
    if i < j - 1 {
      MarksGrow(blk, crc, marks, i, j - 1);
    }
  }

  lemma SegmentBounds(blk: seq<byte>, crc: bv32, m: Mark, n: Mark)
    requires Segment(blk, crc, m, n)
    ensures m.at + 8 <= n.at <= |blk| && n.at - m.at - 4 <= 0x3fe
  {
    hide Follows, TagAt, Crc.Crc;
  }

  lemma {:induction false} Bounds(blk: seq<byte>, h: seq<Commit>)
    requires Holds(blk, h)
    ensures 4 <= End(h).at <= |blk|
    ensures h != [] ==>
              && |h[|h| - 1].marks| >= 2
              && End(h[..|h| - 1]).at <= h[|h| - 1].marks[0].at
              && h[|h| - 1].marks[0].at + 8 <= End(h).at
    decreases |h|
  {
    hide Encode, AllStorable, Sealed, LastWord, Crc.Crc;
    if h != [] {
      var init, c := h[..|h| - 1], h[|h| - 1];
      Bounds(blk, init);
      MarksGrow(blk, Crc.Crc(Seed(blk, init), Encode(End(init).tag, c.items)), c.marks, 0, |c.marks| - 1);
    }
  }

  lemma SegmentSame(a: seq<byte>, b: seq<byte>, crc: bv32, m: Mark, n: Mark)
    requires Segment(a, crc, m, n) && n.at <= |b| && m.at + 8 <= |b|
    requires a[m.at..m.at + 4] == b[m.at..m.at + 4] && a[m.at + 4..m.at + 8] == b[m.at + 4..m.at + 8]
    ensures Segment(b, crc, m, n)
  {
    hide Follows, TagAt, Crc.Crc, FromLe;
    SegmentBounds(a, crc, m, n);
    SameTag(a, b, m.at, m.tag);
  }

  lemma SegmentFrame(a: seq<byte>, b: seq<byte>, crc: bv32, m: Mark, n: Mark, k: nat)
    requires Segment(a, crc, m, n)
    requires m.at + 8 <= k <= |a| && k <= |b| && n.at <= |b| && a[..k] == b[..k]
    ensures Segment(b, crc, m, n)
  {
    hide Segment;
    SegmentBounds(a, crc, m, n);
    SameSlice(a, b, k, m.at, m.at + 4);
    SameSlice(a, b, k, m.at + 4, m.at + 8);
    SegmentSame(a, b, crc, m, n);
  }

  lemma SameTag(a: seq<byte>, b: seq<byte>, at: nat, prev: bv32)
    requires at + 4 <= |a| && at + 4 <= |b| && a[at..at + 4] == b[at..at + 4]
    ensures TagAt(a, at, prev) == TagAt(b, at, prev)
  {
  }

  lemma SealedFrame(a: seq<byte>, b: seq<byte>, crc: bv32, marks: seq<Mark>, k: nat)
    requires Sealed(a, crc, marks) && marks != [] && marks[|marks| - 1].at <= k
    requires k <= |a| && k <= |b| && a[..k] == b[..k]
    ensures Sealed(b, crc, marks)
  {
    hide Segment;
    forall i: nat | i + 1 < |marks|
      ensures SegmentAt(b, crc, marks, i)
    {
      assert SegmentAt(a, crc, marks, i);
      MarksGrow(a, crc, marks, i, i + 1);
      if i + 1 < |marks| - 1 {
        MarksGrow(a, crc, marks, i + 1, |marks| - 1);
      }
      SegmentFrame(a, b, if i == 0 then crc else NULL_WORD, marks[i], marks[i + 1], k);
    }
  }

  // A history is a matter of the bytes before its end.
  lemma {:induction false} HoldsFrame(a: seq<byte>, b: seq<byte>, h: seq<Commit>)
    requires Holds(a, h) && End(h).at <= |a| && End(h).at <= |b|
    requires a[..End(h).at] == b[..End(h).at]
    ensures Holds(b, h) && Seed(a, h) == Seed(b, h)
    decreases |h|
  {
    hide Encode, AllStorable, Sealed, LastWord, Crc.Crc;
    Bounds(a, h);
    var k := End(h).at;
    SameSlice(a, b, k, 0, 4);
    assert a[..4] == a[0..4] && b[..4] == b[0..4];
    if h != [] {
      var init, c := h[..|h| - 1], h[|h| - 1];
      Bounds(a, init);
      SameSlice(a, b, k, 0, End(init).at);
      assert a[..End(init).at] == a[0..End(init).at] && b[..End(init).at] == b[0..End(init).at];
      HoldsFrame(a, b, init);
      SameSlice(a, b, k, End(init).at, c.marks[0].at);
      SealedFrame(a, b, Crc.Crc(Seed(a, init), Encode(End(init).tag, c.items)), c.marks, k);
    }
  }

  // ---- reading backwards: the walk of lfs_dir_getslice ------------------------------------------------------

  function Clear(w: bv32): bv32 {
    Words.And(w, 0x7fff_ffff)
  }

  // The attributes met on the way from off, newest first; ntag is the tag that ends there.
  function Walk(blk: seq<byte>, off: nat, ntag: bv32): seq<Item>
    requires off <= |blk|
    decreases off
  {
    var t := Unpack(ntag);
    if off < 4 + t.Dsize() then []
    else
      var at := off - t.Dsize();
      (if IsCrc(ntag) then [] else [Item(t, blk[at + 4..off])]) + Walk(blk, at, Clear(TagAt(blk, at, ntag)))
  }

  // Taking out the word that a tag is stored as leaves the tag before it, whatever has
  // become of the validity bit.
  lemma PreviousTag(word: bv32, p: bv32, reset: bool)
    ensures Clear(Words.Xor(word, Flip(Words.Xor(word, p), reset))) == Clear(p)
  {
    TopCleared();
    hide Words.Xor, Words.And;
    var q := Words.Xor(word, p);
    Words.XorFlip(word, p);
    Words.XorTwice(p, word);
    Words.XorFlip(q, word);
    Words.XorAssoc(word, q, 0x8000_0000);
    Words.AndXor(p, 0x8000_0000, 0x7fff_ffff);
    Words.XorSelf(Words.And(p, 0x7fff_ffff));
  }

  lemma TopCleared()
    ensures Words.And(0x8000_0000, 0x7fff_ffff) == 0 && Words.And(0x7fff_ffff, 0x7fff_ffff) == 0x7fff_ffff
  {
  }

  lemma TagIgnoresTop(blk: seq<byte>, at: nat, w: bv32)
    requires at + 4 <= |blk|
    ensures Clear(TagAt(blk, at, Clear(w))) == Clear(TagAt(blk, at, w))
  {
    TopCleared();
    hide Words.Xor, Words.And, FromBe;
    var word := FromBe(blk[at..at + 4]);
    Words.AndXor(word, Clear(w), 0x7fff_ffff);
    Words.AndXor(word, w, 0x7fff_ffff);
    Words.AndAnd(w, 0x7fff_ffff, 0x7fff_ffff);
  }

  lemma WalkIgnoresTop(blk: seq<byte>, off: nat, w: bv32)
    requires off <= |blk|
    ensures Walk(blk, off, Clear(w)) == Walk(blk, off, w)
  {
    ClearFields(w);
    hide Unpack, TagAt, Clear, IsCrc;
    var t := Unpack(w);
    if off >= 4 + t.Dsize() {
      TagIgnoresTop(blk, off - t.Dsize(), w);
    }
  }

  lemma ClearFields(w: bv32)
    ensures Unpack(Clear(w)) == Unpack(w) && IsCrc(Clear(w)) == IsCrc(w)
  {
    IgnoresTopBit(w);
    assert Clear(w) == w & 0x7fff_ffff;
    hide Unpack, Clear;
  }

  lemma WalkStep(blk: seq<byte>, at: nat, prev: bv32, reset: bool, off: nat)
    requires 4 <= at && at + 4 <= off <= |blk|
    requires off == at + Unpack(TagAt(blk, at, prev)).Dsize()
    ensures var tag := TagAt(blk, at, prev);
            Walk(blk, off, Flip(tag, reset))
              == (if IsCrc(tag) then [] else [Item(Unpack(tag), blk[at + 4..off])]) + Walk(blk, at, prev)
  {
    hide Unpack, FromBe, Clear;
    var word, tag := FromBe(blk[at..at + 4]), TagAt(blk, at, prev);
    FlipFields(tag, reset);
    PreviousTag(word, prev, reset);
    WalkIgnoresTop(blk, at, prev);
    hide Flip, IsCrc, Words.Xor;
  }

  lemma WalkItem(blk: seq<byte>, at: nat, prev: bv32, x: Item)
    requires Storable(x) && 4 <= at && at + x.tag.Dsize() <= |blk|
    requires blk[at..at + x.tag.Dsize()] == ItemBytes(prev, x)
    ensures Walk(blk, at + x.tag.Dsize(), Word(x)) == [x] + Walk(blk, at, prev)
  {
    hide Pack, Unpack, IsValid, ToBe, FromBe, Words.Xor, Walk;
    var off := at + x.tag.Dsize();
    var word := ToBe(Words.Xor(Word(x), prev));
    assert blk[at..at + 4] == word by {
      assert blk[at..at + 4] == blk[at..off][..4];
      assert ItemBytes(prev, x)[..4] == word;
    }
    assert blk[at + 4..off] == x.data by {
      assert blk[at + 4..off] == blk[at..off][4..];
      assert ItemBytes(prev, x)[4..] == x.data;
    }
    TagOfBytes(Word(x), prev);
    UnpackPack(x.tag);
    WalkStep(blk, at, prev, false, off);
  }

  lemma {:induction false} WalkItems(blk: seq<byte>, at: nat, prev: bv32, items: seq<Item>)
    requires AllStorable(items) && 4 <= at && at + |Encode(prev, items)| <= |blk|
    requires blk[at..at + |Encode(prev, items)|] == Encode(prev, items)
    ensures Walk(blk, at + |Encode(prev, items)|, LastWord(prev, items)) == Reverse(items) + Walk(blk, at, prev)
    decreases |items|
  {
    hide *;
    if items == [] {
      NoItems(prev);
      NothingReversed<Item>();
      assert [] + Walk(blk, at, prev) == Walk(blk, at, prev);
    } else {
      var init, x := items[..|items| - 1], items[|items| - 1];
      assert items == init + [x];
      StorableInit(items);
      EncodeSnoc(prev, init, x);
      ItemLength(LastWord(prev, init), x);
      Slices(blk, at, Encode(prev, init), ItemBytes(LastWord(prev, init), x));
      WalkItems(blk, at, prev, init);
      WalkItem(blk, at + |Encode(prev, init)|, LastWord(prev, init), x);
      ReverseSnoc(init, x);
      assert [x] + (Reverse(init) + Walk(blk, at, prev)) == [x] + Reverse(init) + Walk(blk, at, prev);
    }
  }

  lemma NoItems(prev: bv32)
    ensures LastWord(prev, []) == prev && Encode(prev, []) == []
  {
  }

  lemma StorableInit(items: seq<Item>)
    requires AllStorable(items) && items != []
    ensures AllStorable(items[..|items| - 1]) && Storable(items[|items| - 1])
  {
    hide Storable;
  }

  lemma {:induction false} WalkSeals(blk: seq<byte>, crc: bv32, marks: seq<Mark>, i: nat)
    requires Sealed(blk, crc, marks) && i < |marks| && marks[i].at <= |blk| && 4 <= marks[0].at <= |blk|
    ensures Walk(blk, marks[i].at, marks[i].tag) == Walk(blk, marks[0].at, marks[0].tag)
    decreases i
  {
    hide Segment, Walk;
    if i > 0 {
      assert SegmentAt(blk, crc, marks, i - 1);
      if i > 1 {
        MarksGrow(blk, crc, marks, 0, i - 1);
      }
      WalkSegment(blk, if i == 1 then crc else NULL_WORD, marks[i - 1], marks[i]);
      WalkSeals(blk, crc, marks, i - 1);
    }
  }

  lemma WalkSegment(blk: seq<byte>, crc: bv32, m: Mark, n: Mark)
    requires Segment(blk, crc, m, n) && 4 <= m.at
    ensures Walk(blk, n.at, n.tag) == Walk(blk, m.at, m.tag)
  {
    hide Unpack, IsValid, TagAt, Crc.Crc, FromLe, Flip, IsCrc, Follows, Walk;
    var tag, size := TagAt(blk, m.at, m.tag), n.at - m.at - 4;
    FollowsFields(tag, n.tag, size);
    WalkStep(blk, m.at, m.tag, Unpack(tag).type3 % 2 == 1, n.at);
  }

  // The backward walk from where a fetch ended meets exactly the attributes of the log,
  // newest first.
  lemma {:induction false} WalkIsReversedLog(blk: seq<byte>, h: seq<Commit>)
    requires Holds(blk, h) && End(h).at <= |blk|
    ensures Walk(blk, End(h).at, End(h).tag) == Reverse(LogOf(h))
    decreases |h|
  {
    hide Encode, AllStorable, Sealed, LastWord, Walk, Crc.Crc;
    if h == [] {
      WalkStops(blk);
    } else {
      var init, c := h[..|h| - 1], h[|h| - 1];
      Bounds(blk, h);
      Bounds(blk, init);
      var crc := Crc.Crc(Seed(blk, init), Encode(End(init).tag, c.items));
      WalkSeals(blk, crc, c.marks, |c.marks| - 1);
      WalkItems(blk, End(init).at, End(init).tag, c.items);
      WalkIsReversedLog(blk, init);
      ReverseConcat(LogOf(init), c.items);
    }
  }

  lemma WalkStops(blk: seq<byte>)
    requires |blk| >= 4
    ensures Walk(blk, 4, NULL_WORD) == []
  {
    NullWordFields();
  }
}
