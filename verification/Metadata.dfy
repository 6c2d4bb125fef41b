// A metadata directory in memory, and the block it describes: fetching it (the loop of
// lfs_dir_fetchmatch) and appending to it (the first branch of lfs_dir_commit).
module Metadata {
  import opened Wrappers
  import opened Tags
  import opened Log
  import opened Block
  import opened Committing
  import opened Split
  import opened Util
  import Crash
  import Crc
  import Compaction
  import Forward
  import Gstate
  import Traverse

  // ---- what a fetch counts -------------------------------------------------------------------

  // Splice chunks are signed bytes.
  function Splice(type3: nat): int {
    var chunk := Chunk(type3);
    if chunk < 128 then chunk else chunk - 256
  }

  // The sixteen-bit count of entries, one tag at a time.
  function CountTag(count: nat, t: RawTag): nat {
    if Kind(t.type3) == TYPE_NAME && t.id >= count then (t.id + 1) % 0x10000
    else if Kind(t.type3) == TYPE_SPLICE then (count + Splice(t.type3)) % 0x10000
    else count
  }

  function CountOf(log: seq<Item>): nat {
    if log == [] then 0 else CountTag(CountOf(log[..|log| - 1]), log[|log| - 1].tag)
  }

  // On a well-formed log the count is the number of entries.
  lemma {:induction false} CountIsReplay(log: seq<Item>)
    requires WellFormed(log)
    ensures CountOf(log) == |Replay(log)|
    decreases |log|
  {
    if log != [] {
      var init, x := log[..|log| - 1], log[|log| - 1];
      Unsnoc(log);
      CountIsReplay(init);
      CountBound(init);
      CountApply(Replay(init), x);
      hide Replay, WellFormed, Apply, Fits;
    }
  }

  lemma CountApply(s: seq<Entry>, x: Item)
    requires Fits(s, x) && |s| <= NO_ID
    ensures |Apply(s, x)| == CountTag(|s|, x.tag)
  {
  }

  // ---- fetching --------------------------------------------------------------------------------

  // A directory as a fetch leaves it in memory.
  datatype Dir = Dir(off: nat, etag: bv32, count: nat, tail: Option<Tail>, erased: bool)

  const UNFETCHED := Dir(0, NULL_WORD, 0, None, false)

  function DirOf(o: Outcome): Dir {
    Dir(o.found.off, o.found.etag, CountOf(o.found.log), TailOf(o.found.log), o.erased)
  }

  method FetchBlock(blk: seq<byte>, progSize: nat) returns (dir: Dir)
    requires |blk| >= 4 && progSize > 0
    ensures dir == DirOf(ScanBlock(blk, progSize))
  {
    hide Unpack, IsValid, IsCrc, TagAt, Flip, Crc.Crc, FromLe, FromBe, CountTag, CountOf, TailOf, Scan, Chunk, Kind;
    dir := UNFETCHED;
    var off, ptag := 0, NULL_WORD;
    var tempcount, temptail := 0, None;
    var crc := Crc.Crc(NULL_WORD, blk[..4]);
    ghost var c := Start(blk);
    NullWordFields();
    NothingCounted();
    while true
      invariant c.at == off + Unpack(ptag).Dsize() && c.ptag == ptag && c.crc == crc
      invariant tempcount == CountOf(c.pending) && temptail == TailOf(c.pending)
      invariant dir == DirOf(Outcome(c.found, false))
      invariant ScanBlock(blk, progSize) == Scan(blk, progSize, c)
      decreases |blk| - off
    {
      ScanUnfold(blk, progSize, c);
      // on to the next tag
      off := off + Unpack(ptag).Dsize();
      if off + 4 > |blk| {
        return dir.(erased := false);
      }
      var word := blk[off..off + 4];
      crc := Crc.Crc(crc, word);
      var tag := TagAt(blk, off, ptag);
      // what follows is not a tag of this log
      if !IsValid(tag) || off + Unpack(tag).Dsize() > |blk| {
        return dir.(erased := IsCrc(ptag) && dir.off % progSize == 0);
      }
      var t := Unpack(tag);
      ptag := tag;
      if IsCrc(tag) {
        if off + 8 > |blk| {
          return dir.(erased := false);
        }
        if FromLe(blk[off + 4..off + 8]) != crc {
          return dir.(erased := false);
        }
        // the tag after the padding may be stored with its validity bit flipped
        ptag := Flip(tag, t.type3 % 2 == 1);
        FlipFields(tag, t.type3 % 2 == 1);
        dir := Dir(off + t.Dsize(), ptag, tempcount, temptail, false);
        crc := NULL_WORD;
      } else {
        var data := blk[off + 4..off + t.Dsize()];
        crc := Crc.Crc(crc, data);
        Counted(c.pending, Item(t, data));
        tempcount := CountTag(tempcount, t);
        if Kind(t.type3) == TYPE_TAIL && |data| == 8 {
          temptail := Some(Tail(Gstate.PairOf(data), Chunk(t.type3) % 2 == 1));
        }
      }
      c := Step(blk, progSize, c).next;
    }
  }

  lemma ScanUnfold(blk: seq<byte>, progSize: nat, c: Cursor)
    requires progSize > 0
    ensures Scan(blk, progSize, c)
         == var step := Step(blk, progSize, c);
            if step.Stop? then Outcome(c.found, step.erased) else Scan(blk, progSize, step.next)
  {
    StepAdvances(blk, progSize, c);
    hide Step;
  }

  lemma NothingCounted()
    ensures CountOf([]) == 0 && TailOf([]) == None
  {
  }

  lemma Counted(log: seq<Item>, x: Item)
    ensures CountOf(log + [x]) == CountTag(CountOf(log), x.tag)
    ensures TailOf(log + [x])
         == if Kind(x.tag.type3) == TYPE_TAIL && |x.data| == 8
            then Some(Tail(Gstate.PairOf(x.data), Chunk(x.tag.type3) % 2 == 1)) else TailOf(log)
  {
    SnocPrefix(log, x);
  }

  // lfs_dir_fetch: the newer block first, then the other one.
  method Fetch(first: seq<byte>, second: seq<byte>, progSize: nat) returns (r: Result<Dir>)
    requires |first| >= 4 && |second| >= 4 && progSize > 0
    ensures match Crash.FetchPair(first, second, progSize)
            case Some(o) => r == Ok(DirOf(o))
            case None => r == Err(Corrupt)
  {
    hide CountOf, TailOf, ScanBlock, Crash.Newer, Crash.Revision;
    // which block was written last
    var swap := false;
    if Crash.Newer(Crash.Revision(second), Crash.Revision(first)) {
      swap := true;
    }
    for i := 0 to 2
      invariant i > 0 ==> ScanBlock(if swap then second else first, progSize).found.off == 0
      invariant i > 1 ==> ScanBlock(if swap then first else second, progSize).found.off == 0
    {
      var dir := FetchBlock(if swap == (i == 0) then second else first, progSize);
      // one whole commit will do
      if dir.off > 0 {
        return Ok(dir);
      }
    }
    return Err(Corrupt);
  }

  // ---- appending -----------------------------------------------------------------------------------

  // Attributes that may be appended to a log. Only the first commit after a compaction
  // names entries that no CREATE made room for.
  ghost predicate Appendable(log: seq<Item>, attrs: seq<Item>) {
    && AllStorable(attrs) && WellFormed(log + attrs)
    && forall k :: 0 <= k < |attrs| && attrs[k].IsName() ==> attrs[k].tag.id < |Replay(log + attrs[..k])|
  }

  lemma CountAttr(log: seq<Item>, attrs: seq<Item>, k: nat)
    requires Appendable(log, attrs) && k < |attrs|
    ensures |Replay(log + attrs[..k + 1])| == |Replay(log + attrs[..k])| + attrs[k].Shift()
    ensures TailOf(log + attrs[..k + 1])
         == var x := attrs[k];
            if Kind(x.tag.type3) == TYPE_TAIL && |x.data| == 8
            then Some(Tail(Gstate.PairOf(x.data), Chunk(x.tag.type3) % 2 == 1)) else TailOf(log + attrs[..k])
  {
    hide WellFormed, Replay, AllStorable, Kind, Chunk, TailOf, Apply, Fits;
    var all, x := log + attrs, attrs[k];
    WellFormedAt(all, |log| + k);
    assert all[..|log| + k] == log + attrs[..k];
    assert all[..|log| + k + 1] == log + attrs[..k + 1] == log + attrs[..k] + [x];
    assert all[|log| + k] == x;
    Counted(log + attrs[..k], x);
    GrowsByShift(Replay(log + attrs[..k]), x);
  }

  lemma GrowsByShift(s: seq<Entry>, x: Item)
    requires Fits(s, x) && (x.IsName() ==> x.tag.id < |s|)
    ensures |Apply(s, x)| == |s| + x.Shift()
  {
  }

  // The attributes of a commit, one after the other, as far as they fit.
  method WriteAll(w: Writer, attrs: seq<Item>) returns (ok: bool)
    requires w.Valid() && w.items == [] && AllStorable(attrs)
    modifies w, w.blk
    ensures w.Valid() && old(w.off) <= w.off <= w.blk.Length
    ensures ok <==> attrs == [] || old(w.off) + SizeOf(attrs) <= w.end
    ensures ok ==> w.items == attrs && w.off == old(w.off) + SizeOf(attrs)
    ensures w.blk[..][..old(w.off)] == old(w.blk[..])[..old(w.off)] && w.blk[..][w.off..] == old(w.blk[..])[w.off..]
  {
    hide *;
    WriterFacts(w);
    ghost var was, off := w.blk[..], w.off;
    assert attrs[..0] == [];
    for i := 0 to |attrs|
      invariant w.Valid() && w.items == attrs[..i] && w.off == off + SizeOf(attrs[..i]) <= w.blk.Length
      invariant i > 0 ==> w.off <= w.end
      invariant w.blk[..][..off] == was[..off] && w.blk[..][w.off..] == was[w.off..]
    {
      ghost var before, at := w.blk[..], w.off;
      StorableAt(attrs, i);
      SizeNext(attrs, i);
      ok := w.Attr(attrs[i]);
      WriterFacts(w);
      StillThere(was, before, w.blk[..], off, at, w.off);
      if !ok {
        SizeBeyond(attrs, i, w.end - off);
        return;
      }
      assert attrs[..i + 1] == attrs[..i] + [attrs[i]];
    }
    assert attrs[..|attrs|] == attrs;
    return true;
  }

  // Rewriting an erased block, as lfs_dir_compact does: revision count, attributes,
  // checksum.
  method CompactInto(blk: array<byte>, progSize: nat, rev: bv32, attrs: seq<Item>)
    returns (ok: bool, off: nat, etag: bv32, ghost c: Commit)
    requires progSize > 0 && blk.Length >= 12 && blk.Length % progSize == 0 && AllStorable(attrs)
    modifies blk
    ensures ok <==> 4 + SizeOf(attrs) + 8 <= blk.Length
    ensures ok ==> Holds(blk[..], [c]) && c.items == attrs && Mark(off, etag) == End([c]) && Quiet(blk[..], End([c]))
    ensures ok ==> Crash.AllQuiet(old(blk[..]), c.marks) && Crash.Revision(blk[..]) == rev
    ensures ok ==> ScanBlock(blk[..], progSize).found == Found(off, etag, attrs)
    ensures ok ==> off == AlignUp(4 + SizeOf(attrs) + 8, progSize)
  {
    hide *;
    ghost var was := blk[..];
    var w := new Writer.Compact(blk, rev);
    WriterFacts(w);
    ghost var start := blk[..];
    HeaderWritten(was, start, rev);
    off, etag, c := 4, NULL_WORD, Commit([], []);
    ok := WriteAll(w, attrs);
    if !ok {
      return;
    }
    WriterFacts(w);
    ghost var mid, at := blk[..], w.off;
    ok, c := w.Seal(progSize);
    off, etag := w.off, w.ptag;
    Rewritten(was, start, mid, blk[..], c, at, off, rev);
    FoundRewritten(blk[..], progSize, c);
  }

  class Mdir {
    const blk: array<byte>
    const progSize: nat
    var off: nat
    var etag: bv32
    var count: int
    var tail: Option<Tail>
    ghost var h: seq<Commit>

    // The block holds the history h and nothing after it, and the fields are what a fetch
    // would make of it.
    ghost predicate Valid()
      reads this, blk
    {
      && progSize > 0 && blk.Length >= 12 && blk.Length % progSize == 0
      && h != [] && Holds(blk[..], h) && Quiet(blk[..], End(h))
      && WellFormed(LogOf(h))
      && Agrees()
    }

    ghost predicate Agrees()
      requires progSize > 0 && blk.Length >= 4
      reads this, blk
    {
      var d := DirOf(ScanBlock(blk[..], progSize));
      d.off == off && d.etag == etag && d.count == count && d.tail == tail
    }

    lemma ValidParts()
      requires Valid()
      ensures progSize > 0 && blk.Length >= 12 && blk.Length % progSize == 0
      ensures h != [] && Holds(blk[..], h) && Quiet(blk[..], End(h)) && WellFormed(LogOf(h))
      ensures off == End(h).at <= blk.Length && etag == End(h).tag && ScanBlock(blk[..], progSize).found.log == LogOf(h)
      ensures count == |Replay(LogOf(h))| && tail == TailOf(LogOf(h))
    {
      hide Holds, Quiet, WellFormed, ScanBlock, LogOf, End, Replay, CountOf, TailOf;
      ScanFindsHistory(blk[..], progSize, h);
      Bounds(blk[..], h);
      CountIsReplay(LogOf(h));
    }

    lemma IsValidNow()
      requires progSize > 0 && blk.Length >= 12 && blk.Length % progSize == 0
      requires h != [] && Holds(blk[..], h) && Quiet(blk[..], End(h)) && WellFormed(LogOf(h))
      requires Mark(off, etag) == End(h) && count == |Replay(LogOf(h))| && tail == TailOf(LogOf(h))
      ensures Valid()
    {
      hide Holds, Quiet, WellFormed, ScanBlock, LogOf, End, Replay, CountOf, TailOf;
      ScanFindsHistory(blk[..], progSize, h);
      CountIsReplay(LogOf(h));
    }

    // One more commit. When it does not fit, the directory has to be compacted; what has
    // been committed before is still there.
    method Append(attrs: seq<Item>) returns (ok: bool, ghost c: Commit)
      requires Valid() && attrs != [] && Appendable(LogOf(h), attrs)
      modifies this, blk
      ensures old(off) <= off <= blk.Length
      ensures ok <==> old(off) + SizeOf(attrs) + 8 <= blk.Length
      ensures ok ==> Valid() && h == old(h) + [c] && c.items == attrs && LogOf(h) == LogOf(old(h)) + attrs
      ensures ok ==> off == AlignUp(old(off) + SizeOf(attrs) + 8, progSize)
      ensures ok ==> Crash.AllQuiet(old(blk[..]), c.marks)
      ensures !ok ==> Holds(blk[..], old(h)) && h == old(h) && off == old(off) && etag == old(etag)
      ensures blk[..][..old(off)] == old(blk[..])[..old(off)] && (ok ==> blk[..][off..] == old(blk[..])[off..])
    {
      hide *;
      ValidParts();
      ghost var was, log := blk[..], LogOf(h);
      // what will be in the directory
      Tally(log, attrs);
      var w := new Writer.Append(blk, off, etag, h);
      WriterFacts(w);
      AppendableParts(log, attrs);
      c := Commit([], []);
      ok := WriteAll(w, attrs);
      if !ok {
        HoldsStill(was, blk[..], h);
        return;
      }
      WriterFacts(w);
      ghost var mid, at := blk[..], w.off;
      ok, c := w.Seal(progSize);
      off, etag, h := w.off, w.ptag, h + [c];
      Finished(was, mid, blk[..], old(h), c, at, off);
      IsValidNow();
    }

    // lfs_dir_compact of a directory that needs no splitting: the entries of a range, as the
    // block and the attributes to be committed make them, go to the other block of the pair,
    // with more behind them (the tail and the global state). The block itself stays.
    method Compact(other: array<byte>, rev: bv32, attrs: seq<Traverse.Attr>, begin: nat, end: nat, more: seq<Item>)
      returns (ok: bool, at: nat, last: bv32, ghost c: Commit)
      requires Valid() && other != blk && other.Length == blk.Length
      requires Traverse.Legal(attrs) && Traverse.SpecialsLast(attrs) && AllStorable(more) && DirWide(more)
      requires var all := LogOf(h) + Compaction.Flat(Traverse.Groups(attrs));
               && Settled(all) && begin <= end <= |Replay(all)|
               && Forward.AttrsBodied(Compaction.Flat(Traverse.Groups(attrs)))
      modifies other
      ensures blk[..] == old(blk[..])
      ensures var out := Gathered(Forward.Stream(old(blk[..]), h, attrs), begin, end);
              (ok <==> 4 + SizeOf(out + more) + 8 <= other.Length) && (ok ==> c.items == out + more)
      ensures ok ==> Holds(other[..], [c]) && Quiet(other[..], End([c])) && Mark(at, last) == End([c])
      ensures ok ==> Crash.AllQuiet(old(other[..]), c.marks) && Crash.Revision(other[..]) == rev
      ensures ok ==> ScanBlock(other[..], progSize).found == Found(at, last, c.items)
      ensures ok ==> at == AlignUp(4 + SizeOf(c.items) + 8, progSize)
      ensures ok ==>
                && Settled(c.items)
                && SameEntries(Replay(c.items), Replay(LogOf(h) + Compaction.Flat(Traverse.Groups(attrs)))[begin..end])
    {
      hide *;
      ValidParts();
      var out := Forward.Gather(blk[..], off, attrs, begin, end, h);
      MoreStorable(out, more);
      DirWideAfter(out, more);
      ok, at, last, c := CompactInto(other, progSize, rev, out + more);
    }

    method Tally(ghost log: seq<Item>, attrs: seq<Item>)
      requires Appendable(log, attrs) && count == |Replay(log)| && tail == TailOf(log)
      modifies this`count, this`tail
      ensures count == |Replay(log + attrs)| && tail == TailOf(log + attrs)
    {
      hide Appendable, Replay, TailOf, Chunk;
      assert log + attrs[..0] == log;
      for i := 0 to |attrs|
        invariant count == |Replay(log + attrs[..i])| && tail == TailOf(log + attrs[..i])
      {
        CountAttr(log, attrs, i);
        var t := attrs[i].tag;
        if t.type3 == TYPE_CREATE {
          count := count + 1;
        } else if t.type3 == TYPE_DELETE {
          assert count > 0;
          count := count - 1;
        } else if Kind(t.type3) == TYPE_TAIL && |attrs[i].data| == 8 {
          tail := Some(Tail(Gstate.PairOf(attrs[i].data), Chunk(t.type3) % 2 == 1));
        }
      }
      assert log + attrs[..|attrs|] == log + attrs;
    }
  }

  // Attributes of the directory as a whole.
  predicate DirWide(xs: seq<Item>) {
    forall i :: 0 <= i < |xs| ==> !xs[i].IsAttr() && Kind(xs[i].tag.type3) != TYPE_SPLICE
  }

  lemma {:induction false} DirWideAfter(log: seq<Item>, xs: seq<Item>)
    requires DirWide(xs) && Settled(log)
    ensures Replay(log + xs) == Replay(log) && Settled(log + xs)
    decreases |xs|
  {
    hide Replay, WellFormed, AllNamed, TailOf, SizeOf;
    if xs == [] {
      assert log + xs == log;
    } else {
      var init, x := xs[..|xs| - 1], xs[|xs| - 1];
      assert forall i :: 0 <= i < |init| ==> init[i] == xs[i];
      DirWideAfter(log, init);
      assert log + xs == log + init + [x];
      Unaffected(log + init, x);
    }
  }

  lemma MoreStorable(a: seq<Item>, b: seq<Item>)
    requires AllStorable(a) && AllStorable(b)
    ensures AllStorable(a + b)
  {
    hide Storable;
  }

  // ---- what Append needs -----------------------------------------------------------------------------

  lemma WriterFacts(w: Writer)
    requires w.Valid()
    ensures w.blk.Length >= 12 && w.end == w.blk.Length - 8 && w.begin == Begin(w.h)
    ensures w.off == End(w.h).at + |Encode(End(w.h).tag, w.items)|
    ensures w.items == [] ==> w.off == End(w.h).at
    ensures w.off <= w.blk.Length && (w.h == [] ==> End(w.h).at == 4)
    ensures SizeOf([]) == 0
  {
    hide Holds, Crc.Crc;
  }

  lemma StorableAt(attrs: seq<Item>, i: nat)
    requires AllStorable(attrs) && i < |attrs|
    ensures Storable(attrs[i])
  {
    hide Storable;
  }

  lemma HeaderWritten(was: seq<byte>, now: seq<byte>, rev: bv32)
    requires |was| >= 4 && now == ToLe(rev) + was[4..]
    ensures |now| == |was| && now[4..] == was[4..] && now[..4] == ToLe(rev)
  {
    hide ToLe;
  }

  lemma RevisionIs(blk: seq<byte>, rev: bv32)
    requires |blk| >= 4 && blk[..4] == ToLe(rev)
    ensures Crash.Revision(blk) == rev
  {
    hide ToLe, FromLe;
    FromLeToLe(rev);
  }

  // The first commit of a block as seen against the erased block.
  lemma Rewritten(was: seq<byte>, start: seq<byte>, mid: seq<byte>, now: seq<byte>, c: Commit, at: nat, to: nat,
          rev: bv32)
    requires |was| == |start| == |mid| == |now| && 4 <= at <= to <= |was|
    requires at == End([]).at + |Encode(End([]).tag, c.items)|
    requires start[4..] == was[4..] && start[..4] == ToLe(rev)
    requires mid[..4] == start[..4] && mid[at..] == start[at..] && now[..at] == mid[..at]
    requires Holds(now, [] + [c]) && Crash.AllQuiet(mid, c.marks)
    ensures Holds(now, [c]) && [] + [c] == [c] && Crash.AllQuiet(was, c.marks) && Crash.Revision(now) == rev
  {
    hide Encode, AllStorable, LastWord, Crc.Crc, Segment, Quiet, Crash.Revision, ToLe;
    Crash.OneCommit(c);
    LaterSlice(start, was, 4, at, |was|);
    assert mid[at..] == start[at..|was|] && start[at..] == start[at..|was|] && was[at..] == was[at..|was|];
    SameSlice(now, mid, at, 0, 4);
    assert now[..4] == now[0..4] && mid[..4] == mid[0..4];
    RevisionIs(now, rev);
    MarksQuiet(was, mid, now, [], c, at);
  }

  lemma FoundRewritten(blk: seq<byte>, progSize: nat, c: Commit)
    requires progSize > 0 && Holds(blk, [c]) && Quiet(blk, End([c]))
    ensures |blk| >= 4 && ScanBlock(blk, progSize).found == Found(End([c]).at, End([c]).tag, c.items)
  {
    hide *;
    ScanFindsHistory(blk, progSize, [c]);
    Crash.OneCommit(c);
    HasHeader(blk, [c]);
  }

  lemma SizeNext(attrs: seq<Item>, i: nat)
    requires i < |attrs|
    ensures SizeOf(attrs[..i + 1]) == SizeOf(attrs[..i]) + attrs[i].tag.Dsize()
  {
    assert attrs[..i + 1][..i] == attrs[..i];
  }

  lemma {:induction false} SizeBeyond(attrs: seq<Item>, i: nat, room: int)
    requires i < |attrs| && SizeOf(attrs[..i + 1]) > room
    ensures SizeOf(attrs) > room
    decreases |attrs| - i
  {
    if i + 1 < |attrs| {
      SizeNext(attrs, i + 1);
      SizeBeyond(attrs, i + 1, room);
    } else {
      assert attrs[..i + 1] == attrs;
    }
  }

  lemma StillThere<T>(was: seq<T>, before: seq<T>, now: seq<T>, off: nat, at: nat, to: nat)
    requires |was| == |before| == |now| && off <= at <= to <= |was|
    requires before[..off] == was[..off] && before[at..] == was[at..]
    requires now[..at] == before[..at] && now[to..] == before[to..]
    ensures now[..off] == was[..off] && now[to..] == was[to..]
  {
    SameSlice(now, before, at, 0, off);
    assert now[..off] == now[0..off] && before[..off] == before[0..off];
    LaterSlice(before, was, at, to, |was|);
    assert before[to..] == before[to..|was|] && was[to..] == was[to..|was|];
  }

  lemma HoldsStill(was: seq<byte>, now: seq<byte>, h: seq<Commit>)
    requires Holds(was, h) && End(h).at <= |was| == |now| && was[..End(h).at] == now[..End(h).at]
    ensures Holds(now, h)
  {
    hide Holds;
    HoldsFrame(was, now, h);
  }

  lemma AppendableParts(log: seq<Item>, attrs: seq<Item>)
    requires Appendable(log, attrs)
    ensures AllStorable(attrs) && WellFormed(log + attrs)
  {
    hide WellFormed, AllStorable, Replay;
  }

  // The commit as seen against the block before its first attribute was written.
  lemma Finished(was: seq<byte>, mid: seq<byte>, now: seq<byte>, h: seq<Commit>, c: Commit, at: nat, to: nat)
    requires |was| == |mid| == |now| && h != [] && End(h).at <= at <= to <= |was|
    requires at == End(h).at + |Encode(End(h).tag, c.items)|
    requires mid[..End(h).at] == was[..End(h).at] && mid[at..] == was[at..]
    requires now[..at] == mid[..at] && now[to..] == mid[to..]
    requires Holds(now, h + [c]) && Crash.AllQuiet(mid, c.marks)
    ensures now[..End(h).at] == was[..End(h).at] && now[to..] == was[to..]
    ensures Crash.AllQuiet(was, c.marks)
    ensures h + [c] != [] && LogOf(h + [c]) == LogOf(h) + c.items
  {
    hide Encode, AllStorable, LastWord, Crc.Crc, Segment, Quiet;
    StillThere(was, mid, now, End(h).at, at, to);
    SnocPrefix(h, c);
    MarksQuiet(was, mid, now, h, c, at);
  }

  // What is not touched before the seal is as quiet as it was.
  lemma MarksQuiet(was: seq<byte>, mid: seq<byte>, now: seq<byte>, h: seq<Commit>, c: Commit, at: nat)
    requires |was| == |mid| == |now| && at <= |was| && at == End(h).at + |Encode(End(h).tag, c.items)|
    requires mid[at..] == was[at..] && Holds(now, h + [c]) && Crash.AllQuiet(mid, c.marks)
    ensures Crash.AllQuiet(was, c.marks)
  {
    hide Encode, AllStorable, LastWord, Crc.Crc, Segment, Quiet;
    SnocPrefix(h, c);
    forall i | 0 < i < |c.marks|
      ensures Quiet(was, c.marks[i])
    {
      MarksGrow(now, Crc.Crc(Seed(now, h), Encode(End(h).tag, c.items)), c.marks, 0, i);
      assert Quiet(mid, c.marks[i]);
      Crash.QuietFrame(mid, was, at, c.marks[i]);
    }
  }
}
