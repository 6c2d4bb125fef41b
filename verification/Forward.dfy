// The forward walk of lfs_dir_traverse over the bytes of a block: it meets the attributes
// that were committed, and a checksum tag at the end of every segment.
module Forward {
  import opened Wrappers
  import opened Tags
  import opened Log
  import opened Block
  import opened Compaction
  import opened Util
  import opened Traverse
  import Split
  import Crc
  import Words

  // Tags are compared with the validity bit set.
  function Marked(w: bv32): bv32 {
    Words.Or(w, 0x8000_0000)
  }

  // What is met from one place of a block on, up to the end of its commits.
  function Walked(blk: seq<byte>, at: nat, ptag: bv32, end: nat): seq<Item>
    requires end <= |blk|
    decreases |blk| - at
  {
    if at >= end || at + 4 > |blk| then []
    else
      var tag := Marked(TagAt(blk, at, ptag));
      var next := at + Unpack(tag).Dsize();
      if next > |blk| then []
      else [Item(Unpack(tag), blk[at + 4..next])] + Walked(blk, next, tag, end)
  }

  // The checksum tag between two marks, as an attribute: its payload is the checksum and
  // the padding.
  function SealItem(blk: seq<byte>, m: Mark, n: Mark): Item {
    if m.at + 4 <= n.at <= |blk| then Item(Unpack(TagAt(blk, m.at, m.tag)), blk[m.at + 4..n.at])
    else Item(RawTag.Tag(TYPE_CRC, NO_ID, 0), [])
  }

  function SealItems(blk: seq<byte>, marks: seq<Mark>, i: nat): seq<Item>
    requires i < |marks|
  {
    if i == 0 then [] else SealItems(blk, marks, i - 1) + [SealItem(blk, marks[i - 1], marks[i])]
  }

  // The log of a block with its checksum tags.
  function SealedLog(blk: seq<byte>, h: seq<Commit>): seq<Item> {
    if h == [] then []
    else
      var init, c := h[..|h| - 1], h[|h| - 1];
      SealedLog(blk, init) + c.items + if c.marks == [] then [] else SealItems(blk, c.marks, |c.marks| - 1)
  }

  // ---- the walk ignores validity bits --------------------------------------------------------

  lemma MarkedWord(w: bv32)
    ensures Clear(Marked(w)) == Clear(w) && Marked(Clear(w)) == Marked(w)
  {
    Words.TopSet(w);
    Words.TopSetAgain(w);
    hide Words.And, Words.Or;
  }

  lemma MarkedFields(w: bv32)
    ensures Unpack(Marked(w)) == Unpack(w)
  {
    MarkedWord(w);
    ClearFields(w);
    ClearFields(Marked(w));
    hide Unpack, Marked, Clear;
  }

  lemma TagMarked(blk: seq<byte>, at: nat, v: bv32, w: bv32)
    requires at + 4 <= |blk| && Clear(v) == Clear(w)
    ensures Marked(TagAt(blk, at, v)) == Marked(TagAt(blk, at, w))
  {
    hide *;
    TagIgnoresTop(blk, at, v);
    TagIgnoresTop(blk, at, w);
    MarkedWord(TagAt(blk, at, v));
    MarkedWord(TagAt(blk, at, w));
  }

  lemma WalkedSame(blk: seq<byte>, at: nat, v: bv32, w: bv32, end: nat)
    requires end <= |blk| && Clear(v) == Clear(w)
    ensures Walked(blk, at, v, end) == Walked(blk, at, w, end)
  {
    hide Unpack, TagAt, Marked, Clear;
    if at + 4 <= |blk| {
      TagMarked(blk, at, v, w);
    }
  }

  // One tag of the walk. The word that the next tag is exclusive-ored with may have its
  // validity bit flipped.
  lemma WalkedStep(blk: seq<byte>, at: nat, prev: bv32, next: bv32, to: nat, end: nat)
    requires at + 4 <= to <= end <= |blk| && to == at + Unpack(TagAt(blk, at, prev)).Dsize()
    requires Clear(next) == Clear(TagAt(blk, at, prev))
    ensures Walked(blk, at, prev, end)
         == [Item(Unpack(TagAt(blk, at, prev)), blk[at + 4..to])] + Walked(blk, to, next, end)
  {
    hide *;
    var tag := TagAt(blk, at, prev);
    MarkedFields(tag);
    MarkedWord(tag);
    WalkedIs(blk, at, prev, end);
    WalkedSame(blk, to, Marked(tag), next, end);
  }

  lemma WalkedIs(blk: seq<byte>, at: nat, ptag: bv32, end: nat)
    requires at + 4 <= end <= |blk|
    ensures var tag := Marked(TagAt(blk, at, ptag));
            at + Unpack(tag).Dsize() <= |blk| ==>
              Walked(blk, at, ptag, end)
              == [Item(Unpack(tag), blk[at + 4..at + Unpack(tag).Dsize()])]
                 + Walked(blk, at + Unpack(tag).Dsize(), tag, end)
  {
    hide Unpack, TagAt, Marked;
  }

  lemma FlipCleared(w: bv32, reset: bool)
    ensures Clear(Flip(w, reset)) == Clear(w)
  {
    Words.TopFlipped(w);
    hide Words.And, Words.Xor;
  }

  // ---- attributes -----------------------------------------------------------------------------

  lemma WalkedItem(blk: seq<byte>, at: nat, prev: bv32, x: Item, end: nat)
    requires Storable(x) && at + x.tag.Dsize() <= end <= |blk|
    requires blk[at..at + x.tag.Dsize()] == ItemBytes(prev, x)
    ensures Walked(blk, at, prev, end) == [x] + Walked(blk, at + x.tag.Dsize(), Word(x), end)
  {
    hide Pack, Unpack, IsValid, ToBe, FromBe, Words.Xor, Walked;
    var off := at + x.tag.Dsize();
    var word := ToBe(Words.Xor(Word(x), prev));
    assert blk[at..at + 4] == word by {
      assert blk[at..at + 4] == blk[at..off][..4];
      assert ItemBytes(prev, x)[..4] == word;
    }
    assert blk[at + 4..off] == x.data by {
      assert blk[at + 4..off] == blk[at..off][4..];
      assert ItemBytes(prev, x)[4..] == x.data;
    }
    TagOfBytes(Word(x), prev);
    UnpackPack(x.tag);
    WalkedStep(blk, at, prev, Word(x), off, end);
  }

  lemma {:induction false} WalkedItems(blk: seq<byte>, at: nat, prev: bv32, items: seq<Item>, end: nat)
    requires AllStorable(items) && at + |Encode(prev, items)| <= end <= |blk|
    requires blk[at..at + |Encode(prev, items)|] == Encode(prev, items)
    ensures Walked(blk, at, prev, end) == items + Walked(blk, at + |Encode(prev, items)|, LastWord(prev, items), end)
    decreases |items|
  {
    hide *;
    if items == [] {
      NoItems(prev);
    } else {
      var init, x := items[..|items| - 1], items[|items| - 1];
      assert items == init + [x];
      StorableInit(items);
      EncodeSnoc(prev, init, x);
      ItemLength(LastWord(prev, init), x);
      Slices(blk, at, Encode(prev, init), ItemBytes(LastWord(prev, init), x));
      WalkedItems(blk, at, prev, init, end);
      WalkedItem(blk, at + |Encode(prev, init)|, LastWord(prev, init), x, end);
    }
  }

  // ---- checksum tags ----------------------------------------------------------------------------

  lemma WalkedSegment(blk: seq<byte>, crc: bv32, m: Mark, n: Mark, end: nat)
    requires Segment(blk, crc, m, n) && n.at <= end <= |blk|
    ensures Walked(blk, m.at, m.tag, end) == [SealItem(blk, m, n)] + Walked(blk, n.at, n.tag, end)
    ensures Kind(SealItem(blk, m, n).tag.type3) == TYPE_CRC
  {
    hide Unpack, IsValid, TagAt, Crc.Crc, FromLe, Flip, Follows, Walked, Clear;
    var tag, size := TagAt(blk, m.at, m.tag), n.at - m.at - 4;
    FollowsFields(tag, n.tag, size);
    FlipCleared(tag, Unpack(tag).type3 % 2 == 1);
    WalkedStep(blk, m.at, m.tag, n.tag, n.at, end);
  }

  lemma {:induction false} WalkedSeals(blk: seq<byte>, crc: bv32, marks: seq<Mark>, i: nat, end: nat)
    requires Sealed(blk, crc, marks) && i < |marks| && marks[i].at <= end <= |blk|
    ensures Walked(blk, marks[0].at, marks[0].tag, end)
            == SealItems(blk, marks, i) + Walked(blk, marks[i].at, marks[i].tag, end)
    ensures AllCrc(SealItems(blk, marks, i)) && |SealItems(blk, marks, i)| == i
    decreases i
  {
    hide Segment, Walked, SealItem, Kind;
    if i == 0 {
      assert [] + Walked(blk, marks[0].at, marks[0].tag, end) == Walked(blk, marks[0].at, marks[0].tag, end);
    } else {
      assert SegmentAt(blk, crc, marks, i - 1);
      var c := if i == 1 then crc else NULL_WORD;
      SegmentBounds(blk, c, marks[i - 1], marks[i]);
      WalkedSegment(blk, c, marks[i - 1], marks[i], end);
      WalkedSeals(blk, crc, marks, i - 1, end);
    }
  }

  predicate AllCrc(xs: seq<Item>) {
    forall i :: 0 <= i < |xs| ==> Kind(xs[i].tag.type3) == TYPE_CRC
  }

  // ---- the whole block ----------------------------------------------------------------------------

  lemma {:induction false} WalkedHistory(blk: seq<byte>, h: seq<Commit>, end: nat)
    requires Holds(blk, h) && End(h).at <= end <= |blk|
    ensures Walked(blk, 4, NULL_WORD, end) == SealedLog(blk, h) + Walked(blk, End(h).at, End(h).tag, end)
    decreases |h|
  {
    hide *;
    if h == [] {
      NothingWalked(blk);
    } else {
      var init, c := h[..|h| - 1], h[|h| - 1];
      Bounds(blk, h);
      LastCommit(blk, h);
      Bounds(blk, init);
      WalkedHistory(blk, init, end);
      WalkedItems(blk, End(init).at, End(init).tag, c.items, end);
      WalkedSeals(blk, Crc.Crc(Seed(blk, init), Encode(End(init).tag, c.items)), c.marks, |c.marks| - 1, end);
    }
  }

  lemma NothingWalked(blk: seq<byte>)
    ensures SealedLog(blk, []) == [] && End([]) == Mark(4, NULL_WORD)
  {
  }

  lemma LastCommit(blk: seq<byte>, h: seq<Commit>)
    requires h != [] && Holds(blk, h) && |h[|h| - 1].marks| >= 2
    ensures |blk| >= 4
    ensures var init, c := h[..|h| - 1], h[|h| - 1];
            var bytes := Encode(End(init).tag, c.items);
            && Holds(blk, init) && AllStorable(c.items)
            && End(init).at + |bytes| <= |blk| && blk[End(init).at..End(init).at + |bytes|] == bytes
            && c.marks[0] == Mark(End(init).at + |bytes|, LastWord(End(init).tag, c.items))
            && Sealed(blk, Crc.Crc(Seed(blk, init), bytes), c.marks)
            && End(h) == c.marks[|c.marks| - 1]
            && SealedLog(blk, h) == SealedLog(blk, init) + c.items + SealItems(blk, c.marks, |c.marks| - 1)
  {
    hide Encode, AllStorable, Sealed, LastWord, SealItems, Crc.Crc;
  }

  // Up to where a fetch ended, the walk meets exactly the log with its checksum tags.
  lemma WalkIsSealedLog(blk: seq<byte>, h: seq<Commit>)
    requires Holds(blk, h) && End(h).at <= |blk|
    ensures Walked(blk, 4, NULL_WORD, End(h).at) == SealedLog(blk, h)
  {
    hide Holds, SealedLog, TagAt, Marked, Unpack;
    WalkedHistory(blk, h, End(h).at);
  }

  // The loop that reads it.
  method ReadLog(blk: seq<byte>, end: nat) returns (log: seq<Item>)
    requires end <= |blk|
    ensures log == Walked(blk, 4, NULL_WORD, end)
  {
    hide Walked, Unpack, TagAt, Marked;
    log := [];
    var off, ptag := 0, NULL_WORD;
    NullWordFields();
    while off + Unpack(ptag).Dsize() < end
      invariant Walked(blk, 4, NULL_WORD, end) == log + Walked(blk, off + Unpack(ptag).Dsize(), ptag, end)
      decreases |blk| - off
    {
      off := off + Unpack(ptag).Dsize();
      WalkedHere(blk, off, ptag, end);
      if off + 4 > |blk| {
        return;
      }
      var tag := Marked(TagAt(blk, off, ptag));
      if off + Unpack(tag).Dsize() > |blk| {
        return;
      }
      log := log + [Item(Unpack(tag), blk[off + 4..off + Unpack(tag).Dsize()])];
      ptag := tag;
    }
    WalkedBeyond(blk, off + Unpack(ptag).Dsize(), ptag, end);
  }

  lemma WalkedHere(blk: seq<byte>, at: nat, ptag: bv32, end: nat)
    requires at < end <= |blk|
    ensures Walked(blk, at, ptag, end)
         == if at + 4 > |blk| then []
            else
              var tag := Marked(TagAt(blk, at, ptag));
              var next := at + Unpack(tag).Dsize();
              if next > |blk| then [] else [Item(Unpack(tag), blk[at + 4..next])] + Walked(blk, next, tag, end)
  {
    hide Unpack, TagAt, Marked;
  }

  lemma WalkedBeyond(blk: seq<byte>, at: nat, ptag: bv32, end: nat)
    requires end <= |blk| && end <= at
    ensures Walked(blk, at, ptag, end) == []
  {
  }

  // ---- what the log with its checksum tags means ----------------------------------------------------

  lemma {:induction false} CrcsAreNeutral(log: seq<Item>, xs: seq<Item>)
    requires AllCrc(xs)
    ensures Replay(log + xs) == Replay(log) && (WellFormed(log + xs) <==> WellFormed(log))
    decreases |xs|
  {
    hide Replay, WellFormed;
    if xs == [] {
      assert log + xs == log;
    } else {
      var init, x := xs[..|xs| - 1], xs[|xs| - 1];
      assert forall i :: 0 <= i < |init| ==> init[i] == xs[i];
      CrcsAreNeutral(log, init);
      assert log + xs == log + init + [x];
      ReplaySnoc(log + init, x);
      CrcIsNeutral(Replay(log + init), x);
    }
  }

  lemma CrcIsNeutral(s: seq<Entry>, x: Item)
    requires Kind(x.tag.type3) == TYPE_CRC
    ensures Apply(s, x) == s && Fits(s, x)
  {
  }

  // Logs that replay alike go on alike.
  lemma {:induction false} SameThenSame(a: seq<Item>, b: seq<Item>, xs: seq<Item>)
    requires Replay(a) == Replay(b) && (WellFormed(a) <==> WellFormed(b))
    ensures Replay(a + xs) == Replay(b + xs) && (WellFormed(a + xs) <==> WellFormed(b + xs))
    decreases |xs|
  {
    hide Replay, WellFormed, Apply, Fits;
    if xs == [] {
      assert a + xs == a && b + xs == b;
    } else {
      var init, x := xs[..|xs| - 1], xs[|xs| - 1];
      SameThenSame(a, b, init);
      assert a + xs == a + init + [x] && b + xs == b + init + [x];
      ReplaySnoc(a + init, x);
      ReplaySnoc(b + init, x);
    }
  }

  // It replays like the log without them, and a checksum tag ends it.
  lemma {:induction false} SealedReplays(blk: seq<byte>, h: seq<Commit>)
    requires Holds(blk, h)
    ensures Replay(SealedLog(blk, h)) == Replay(LogOf(h))
    ensures WellFormed(SealedLog(blk, h)) <==> WellFormed(LogOf(h))
    ensures var log := SealedLog(blk, h); h != [] ==> log != [] && Kind(log[|log| - 1].tag.type3) == TYPE_CRC
    decreases |h|
  {
    hide *;
    if h == [] {
      NothingWalked(blk);
      NoLog();
    } else {
      var init, c := h[..|h| - 1], h[|h| - 1];
      Bounds(blk, h);
      LastCommit(blk, h);
      LogOfLast(h);
      SealedReplays(blk, init);
      SameThenSame(SealedLog(blk, init), LogOf(init), c.items);
      var crc := Crc.Crc(Seed(blk, init), Encode(End(init).tag, c.items));
      WalkedSeals(blk, crc, c.marks, |c.marks| - 1, |blk|);
      var seals := SealItems(blk, c.marks, |c.marks| - 1);
      LastCrc(seals);
      CrcsAreNeutral(SealedLog(blk, init) + c.items, seals);
    }
  }

  lemma LastCrc(xs: seq<Item>)
    requires AllCrc(xs) && xs != []
    ensures Kind(xs[|xs| - 1].tag.type3) == TYPE_CRC
  {
    hide Kind;
  }

  lemma NoLog()
    ensures LogOf([]) == []
  {
  }

  lemma LogOfLast(h: seq<Commit>)
    requires h != []
    ensures LogOf(h) == LogOf(h[..|h| - 1]) + h[|h| - 1].items
  {
  }

  // A committed directory is a legal source of a move.
  lemma CommittedIsLegal(blk: seq<byte>, h: seq<Commit>, id: nat, fromid: nat)
    requires h != [] && Holds(blk, h) && fromid < NO_ID
    ensures Attr.Move(id, fromid, SealedLog(blk, h)).Legal()
  {
    hide Holds, SealedLog;
    SealedReplays(blk, h);
  }

  // ---- what is taken can be laid out again ------------------------------------------------------------

  // An attribute that can be laid out under any id.
  predicate Bodied(x: Item) {
    x.tag.type3 < 0x800 && x.tag.size < 0x400 && Kind(x.tag.type3) != TYPE_CRC && |x.data| == x.tag.PayloadSize()
  }

  predicate AllBodied(xs: seq<Item>) {
    forall i :: 0 <= i < |xs| ==> Bodied(xs[i])
  }

  predicate AttrsBodied(xs: seq<Item>) {
    forall i :: 0 <= i < |xs| && xs[i].IsAttr() ==> Bodied(xs[i])
  }

  lemma BodiedAt(x: Item, id: nat)
    requires Bodied(x)
    ensures Bodied(x.At(id)) && (id < 0x400 ==> Storable(x.At(id)))
  {
  }

  lemma BodiedConcat(a: seq<Item>, b: seq<Item>)
    ensures AllBodied(a + b) <==> AllBodied(a) && AllBodied(b)
    ensures AttrsBodied(a + b) <==> AttrsBodied(a) && AttrsBodied(b)
  {
    hide Bodied;
    var c := a + b;
    assert forall i :: 0 <= i < |a| ==> c[i] == a[i];
    assert forall i :: 0 <= i < |b| ==> c[|a| + i] == b[i];
  }

  lemma {:induction false} AttrsAreBodied(g: seq<Item>)
    requires AttrsBodied(g)
    ensures AllBodied(Attrs(g))
    decreases |g|
  {
    hide Bodied;
    if g != [] {
      AttrsAreBodied(g[..|g| - 1]);
    }
  }

  lemma {:induction false} SurvivorsBodied(xs: seq<Item>, later: seq<Item>)
    requires AllBodied(xs)
    ensures AllBodied(Survivors(xs, later))
    decreases |xs|
  {
    hide Bodied, TagFate;
    if xs != [] {
      var init, x := xs[..|xs| - 1], xs[|xs| - 1];
      SurvivorsBodied(init, later);
      match TagFate(x.tag, later)
      case Dropped =>
      case Kept(id) => BodiedAt(x, id);
    }
  }

  lemma {:induction false} KeptBodied(groups: seq<seq<Item>>)
    requires AttrsBodied(Flat(groups))
    ensures AllBodied(KeptOf(groups))
    decreases |groups|
  {
    hide Bodied, Survivors, Attrs, AllBodied, AttrsBodied;
    if groups == [] {
      NoneBodied();
    } else {
      var init, g := groups[..|groups| - 1], groups[|groups| - 1];
      BodiedConcat(Flat(init), g);
      KeptBodied(init);
      SurvivorsBodied(KeptOf(init), g);
      AttrsAreBodied(g);
      BodiedConcat(Survivors(KeptOf(init), g), Attrs(g));
    }
  }

  lemma NoneBodied()
    ensures AllBodied([])
  {
  }

  lemma StorableConcat(xs: seq<Item>, ys: seq<Item>)
    requires AllStorable(xs) && AllStorable(ys)
    ensures AllStorable(xs + ys)
  {
    hide Storable;
  }

  lemma StorableOne(x: Item)
    requires Storable(x)
    ensures AllStorable([x])
  {
    hide Storable;
  }

  lemma BodiedInit(init: seq<Item>, x: Item)
    requires AllBodied(init + [x])
    ensures AllBodied(init) && Bodied(x)
  {
    hide Bodied;
    assert (init + [x])[|init|] == x && forall i :: 0 <= i < |init| ==> init[i] == (init + [x])[i];
  }

  lemma WindowOfNothing(onlyStructs: bool, begin: nat, end: nat, to: nat)
    ensures Window(Select([], onlyStructs), begin, end, to) == [] && AllStorable([])
  {
  }

  lemma {:induction false} WindowStorable(kept: seq<Item>, onlyStructs: bool, begin: nat, end: nat, to: nat)
    requires AllBodied(kept) && begin <= end && end - begin + to <= 0x400
    ensures AllStorable(Window(Select(kept, onlyStructs), begin, end, to))
    decreases |kept|
  {
    hide *;
    if kept == [] {
      WindowOfNothing(onlyStructs, begin, end, to);
    } else {
      var init, x := kept[..|kept| - 1], kept[|kept| - 1];
      assert kept == init + [x];
      BodiedInit(init, x);
      WindowStorable(init, onlyStructs, begin, end, to);
      SelectSnoc(init, x, onlyStructs);
      WindowSnoc(Select(init, onlyStructs), x, begin, end, to);
      if begin <= x.tag.id < end {
        BodiedAt(x, x.tag.id - begin + to);
        StorableOne(x.At(x.tag.id - begin + to));
        StorableConcat(Window(Select(init, onlyStructs), begin, end, to), [x.At(x.tag.id - begin + to)]);
      }
    }
  }

  lemma {:induction false} SealedBodied(blk: seq<byte>, h: seq<Commit>)
    requires Holds(blk, h)
    ensures AttrsBodied(SealedLog(blk, h))
    decreases |h|
  {
    hide *;
    if h == [] {
      NothingWalked(blk);
      NoAttrsBodied();
    } else {
      var init, c := h[..|h| - 1], h[|h| - 1];
      Bounds(blk, h);
      LastCommit(blk, h);
      SealedBodied(blk, init);
      StorableIsBodied(c.items);
      var crc := Crc.Crc(Seed(blk, init), Encode(End(init).tag, c.items));
      WalkedSeals(blk, crc, c.marks, |c.marks| - 1, |blk|);
      CrcsAreBodied(SealItems(blk, c.marks, |c.marks| - 1));
      BodiedConcat(SealedLog(blk, init), c.items);
      BodiedConcat(SealedLog(blk, init) + c.items, SealItems(blk, c.marks, |c.marks| - 1));
    }
  }

  lemma NoAttrsBodied()
    ensures AttrsBodied([])
  {
  }

  lemma StorableIsBodied(xs: seq<Item>)
    requires AllStorable(xs)
    ensures AttrsBodied(xs)
  {
  }

  lemma CrcsAreBodied(xs: seq<Item>)
    requires AllCrc(xs)
    ensures AttrsBodied(xs)
  {
  }

  // ---- traversing a block ------------------------------------------------------------------------------

  // The stream that is traversed: the block, then the attributes to be committed.
  function Stream(blk: seq<byte>, h: seq<Commit>, attrs: seq<Attr>): (stream: seq<Attr>)
    requires Legal(attrs)
    ensures Legal(stream)
  {
    OnDisk(SealedLog(blk, h)) + attrs
  }

  // lfs_dir_traverse from the first tag of a block on, and over the attributes to be
  // committed: what it takes from an id range is well-formed and replays to these entries
  // of the directory as the attributes will leave it, renumbered.
  method Gather(blk: seq<byte>, off: nat, attrs: seq<Attr>, begin: nat, end: nat, ghost h: seq<Commit>)
    returns (out: seq<Item>)
    requires h != [] && Holds(blk, h) && off == End(h).at <= |blk|
    requires Legal(attrs) && SpecialsLast(attrs)
    requires Settled(LogOf(h) + Flat(Groups(attrs)))
    requires begin <= end <= |Replay(LogOf(h) + Flat(Groups(attrs)))| && AttrsBodied(Flat(Groups(attrs)))
    ensures out == Split.Gathered(Stream(blk, h, attrs), begin, end)
    ensures Settled(out) && Split.TailOf(out) == None && AllStorable(out)
    ensures Split.SameEntries(Replay(out), Replay(LogOf(h) + Flat(Groups(attrs)))[begin..end])
  {
    hide *;
    var log := ReadLog(blk, off);
    WalkIsSealedLog(blk, h);
    var stream := OnDisk(log) + attrs;
    StreamIs(log, attrs);
    StreamReplays(blk, h, log, attrs);
    StreamOf(blk, h, attrs);
    out := Traversal(stream, false, begin, end, 0);
    Split.GatheredIsRange(stream, begin, end);
    Split.GatheredIs(stream, begin, end);
    SealedBodied(blk, h);
    BodiedConcat(log, Flat(Groups(attrs)));
    KeptBodied(Groups(stream));
    FewEntries(LogOf(h) + Flat(Groups(attrs)), begin, end);
    WindowStorable(KeptOf(Groups(stream)), false, begin, end, 0);
  }

  lemma StreamOf(blk: seq<byte>, h: seq<Commit>, attrs: seq<Attr>)
    requires Legal(attrs)
    ensures Stream(blk, h, attrs) == OnDisk(SealedLog(blk, h)) + attrs
  {
    hide SealedLog;
  }

  lemma FewEntries(log: seq<Item>, begin: nat, end: nat)
    requires Settled(log) && begin <= end <= |Replay(log)|
    ensures end < begin + 0x400
  {
    hide WellFormed, Replay;
    CountBound(log);
  }

  lemma StreamReplays(blk: seq<byte>, h: seq<Commit>, log: seq<Item>, attrs: seq<Attr>)
    requires Holds(blk, h) && log == SealedLog(blk, h) && Legal(attrs)
    ensures Replay(log + Flat(Groups(attrs))) == Replay(LogOf(h) + Flat(Groups(attrs)))
    ensures Settled(log + Flat(Groups(attrs))) <==> Settled(LogOf(h) + Flat(Groups(attrs)))
  {
    hide Holds, SealedLog, LogOf, Replay, WellFormed, AllNamed, Flat, Groups;
    SealedReplays(blk, h);
    SameThenSame(log, LogOf(h), Flat(Groups(attrs)));
  }

  // The log on disk, then the attributes.
  lemma StreamIs(log: seq<Item>, attrs: seq<Attr>)
    requires Legal(attrs) && SpecialsLast(attrs)
    ensures Legal(OnDisk(log) + attrs) && SpecialsLast(OnDisk(log) + attrs)
    ensures Flat(Groups(OnDisk(log) + attrs)) == log + Flat(Groups(attrs))
  {
    var stream := OnDisk(log) + attrs;
    assert Groups(stream) == Groups(OnDisk(log)) + Groups(attrs) by {
      hide Expand;
    }
    hide Expand, Flat, Groups;
    OnDiskGroups(log);
    FlatConcat(Singles(log), Groups(attrs));
    FlatSingles(log);
  }

  lemma FlatSnoc(init: seq<seq<Item>>, g: seq<Item>)
    ensures Flat(init + [g]) == Flat(init) + g
  {
    SnocPrefix(init, g);
  }

  lemma {:induction false} FlatConcat(a: seq<seq<Item>>, b: seq<seq<Item>>)
    ensures Flat(a + b) == Flat(a) + Flat(b)
    decreases |b|
  {
    if b == [] {
      assert a + b == a;
    } else {
      hide *;
      var init, g := b[..|b| - 1], b[|b| - 1];
      assert b == init + [g] && a + b == (a + init) + [g];
      FlatConcat(a, init);
      FlatSnoc(init, g);
      FlatSnoc(a + init, g);
    }
  }
}
