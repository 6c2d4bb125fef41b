// Losing power in the middle of a commit. A torn block has the bytes of the finished
// commit up to some point and the bytes of before from there on.
module Crash {
  import opened Wrappers
  import opened Tags
  import opened Log
  import opened Block
  import opened Util
  import Crc
  import Words

  // No checksum matches by accident: wherever the scan meets a checksum tag that was not
  // completely programmed, the stored checksum is wrong.
  predicate NoFalseSeal(blk: seq<byte>, progSize: nat, programmed: nat, c: Cursor)
    requires progSize > 0
    decreases |blk| - c.at
  {
    StepAdvances(blk, progSize, c);
    match Step(blk, progSize, c)
    case Stop(_) => true
    case Go(next) =>
      (programmed < c.at + 4 ==> next.found == c.found) && NoFalseSeal(blk, progSize, programmed, next)
  }

  lemma {:induction false} Onwards(blk: seq<byte>, progSize: nat, p: nat, c: Cursor, d: Cursor)
    requires progSize > 0 && NoFalseSeal(blk, progSize, p, c) && Reaches(blk, progSize, c, d)
    ensures NoFalseSeal(blk, progSize, p, d)
    ensures Scan(blk, progSize, c) == Scan(blk, progSize, d)
    decreases |blk| - c.at
  {
    hide Step;
    StepAdvances(blk, progSize, c);
    ReachesScan(blk, progSize, c, d);
    if c != d {
      Onwards(blk, progSize, p, Step(blk, progSize, c).next, d);
    }
  }

  lemma {:induction false} Backwards(blk: seq<byte>, progSize: nat, p: nat, c: Cursor, d: Cursor)
    requires progSize > 0 && Reaches(blk, progSize, c, d) && d.at <= p && NoFalseSeal(blk, progSize, p, d)
    ensures NoFalseSeal(blk, progSize, p, c) && c.at <= d.at
    decreases |blk| - c.at
  {
    hide Step;
    StepAdvances(blk, progSize, c);
    if c != d {
      Backwards(blk, progSize, p, Step(blk, progSize, c).next, d);
    }
  }

  // A block that is not torn has no false checksums: the history it holds is programmed,
  // and nothing follows it.
  lemma UntornIsClean(blk: seq<byte>, progSize: nat, h: seq<Commit>)
    requires progSize > 0 && h != [] && Holds(blk, h) && Quiet(blk, End(h))
    ensures |blk| >= 4 && NoFalseSeal(blk, progSize, End(h).at, Start(blk))
  {
    hide *;
    HasStart(blk, h);
    ScanHistory(blk, progSize, h);
    CursorEnds(blk, h);
    QuietEnd(blk, progSize, End(h).at, CursorAfter(blk, h));
    Backwards(blk, progSize, End(h).at, Start(blk), CursorAfter(blk, h));
  }

  lemma HasStart(blk: seq<byte>, h: seq<Commit>)
    requires Holds(blk, h)
    ensures |blk| >= 4
  {
    hide Committed;
  }

  lemma CursorEnds(blk: seq<byte>, h: seq<Commit>)
    requires |blk| >= 4
    ensures Mark(CursorAfter(blk, h).at, CursorAfter(blk, h).ptag) == End(h)
  {
    hide LogOf, Crc.Crc;
  }

  lemma QuietEnd(blk: seq<byte>, progSize: nat, p: nat, c: Cursor)
    requires progSize > 0 && Quiet(blk, Mark(c.at, c.ptag))
    ensures NoFalseSeal(blk, progSize, p, c)
  {
    hide TagAt, IsValid, IsCrc;
  }

  // From a word that was not completely programmed on, nothing more is found.
  lemma {:induction false} BeyondTear(blk: seq<byte>, progSize: nat, p: nat, c: Cursor)
    requires progSize > 0 && p < c.at + 4 && NoFalseSeal(blk, progSize, p, c)
    ensures Scan(blk, progSize, c).found == c.found
    decreases |blk| - c.at
  {
    hide Step;
    StepAdvances(blk, progSize, c);
    if Step(blk, progSize, c).Go? {
      BeyondTear(blk, progSize, p, Step(blk, progSize, c).next);
    }
  }

  // An attribute whose tag was programmed is passed over, whatever became of its payload.
  lemma StepTag(blk: seq<byte>, progSize: nat, c: Cursor, x: Item)
    requires progSize > 0 && Storable(x) && c.at + x.tag.Dsize() <= |blk|
    requires blk[c.at..c.at + 4] == ItemBytes(c.ptag, x)[..4]
    ensures Step(blk, progSize, c).Go?
    ensures var next := Step(blk, progSize, c).next; next.at == c.at + x.tag.Dsize() && next.found == c.found
  {
    hide Pack, Unpack, IsValid, ToBe, FromBe, Words.Xor, Crc.Crc, FromLe;
    assert ItemBytes(c.ptag, x)[..4] == ToBe(Words.Xor(Word(x), c.ptag));
    TagOfBytes(Word(x), c.ptag);
    UnpackPack(x.tag);
  }

  lemma Head<T>(s: seq<T>, at: nat, n: nat, k: nat)
    requires k <= n && at + n <= |s|
    ensures s[at..at + k] == s[at..at + n][..k]
  {
  }

  lemma TagIsThere(x: Item)
    ensures x.tag.Dsize() >= 4
  {
  }

  lemma {:induction false} TornItems(torn: seq<byte>, now: seq<byte>, progSize: nat, p: nat, c: Cursor,
          items: seq<Item>)
    requires progSize > 0 && AllStorable(items) && |torn| == |now|
    requires var n := |Encode(c.ptag, items)|;
             c.at <= p < c.at + n + 4 && c.at + n <= |now| && now[c.at..c.at + n] == Encode(c.ptag, items)
    requires p <= |now| && torn[..p] == now[..p] && NoFalseSeal(torn, progSize, p, c)
    ensures Scan(torn, progSize, c).found == c.found
    decreases |items|
  {
    hide *;
    if items == [] {
      NoItems(c.ptag);
      BeyondTear(torn, progSize, p, c);
    } else {
      var init, x := items[..|items| - 1], items[|items| - 1];
      assert items == init + [x];
      StorableInit(items);
      EncodeSnoc(c.ptag, init, x);
      PastIs(c, init);
      var d := Past(c, init);
      ItemLength(d.ptag, x);
      Slices(now, c.at, Encode(c.ptag, init), ItemBytes(d.ptag, x));
      if p < d.at + 4 {
        TornItems(torn, now, progSize, p, c, init);
      } else {
        SameSlice(torn, now, p, c.at, d.at);
        ScanItems(torn, progSize, c, init);
        Onwards(torn, progSize, p, c, d);
        SameSlice(torn, now, p, d.at, d.at + 4);
        TagIsThere(x);
        Head(now, d.at, x.tag.Dsize(), 4);
        StepTag(torn, progSize, d, x);
        TornAfterTag(torn, progSize, p, d);
      }
    }
  }

  lemma TornAfterTag(torn: seq<byte>, progSize: nat, p: nat, c: Cursor)
    requires progSize > 0 && NoFalseSeal(torn, progSize, p, c) && Step(torn, progSize, c).Go?
    requires p < Step(torn, progSize, c).next.at + 4 && Step(torn, progSize, c).next.found == c.found
    ensures Scan(torn, progSize, c).found == c.found
  {
    hide Step;
    BeyondTear(torn, progSize, p, Step(torn, progSize, c).next);
  }

  // A checksum tag that was programmed, with or without its checksum.
  lemma StepTornSegment(torn: seq<byte>, now: seq<byte>, progSize: nat, c: Cursor, n: Mark)
    requires progSize > 0 && |torn| == |now| && Segment(now, c.crc, Mark(c.at, c.ptag), n)
    requires torn[c.at..c.at + 4] == now[c.at..c.at + 4]
    ensures var step := Step(torn, progSize, c);
            step.Stop? || step == Go(Cursor(n.at, n.tag, NULL_WORD, c.pending, Found(n.at, n.tag, c.pending)))
  {
    hide Unpack, IsValid, TagAt, Crc.Crc, FromLe, Flip, IsCrc, Follows;
    SameTag(torn, now, c.at, c.ptag);
    FollowsFields(TagAt(now, c.at, c.ptag), n.tag, n.at - c.at - 4);
  }

  lemma QuietStops(blk: seq<byte>, progSize: nat, c: Cursor)
    requires progSize > 0 && Quiet(blk, Mark(c.at, c.ptag))
    ensures Scan(blk, progSize, c).found == c.found
  {
    hide TagAt, IsValid, IsCrc;
  }

  lemma QuietFrame(was: seq<byte>, torn: seq<byte>, p: nat, m: Mark)
    requires |was| == |torn| && p <= |was| && torn[p..] == was[p..] && p <= m.at && Quiet(was, m)
    ensures Quiet(torn, m)
  {
    hide TagAt, IsValid;
    if m.at + 4 <= |torn| {
      LaterSlice(torn, was, p, m.at, m.at + 4);
      SameTag(torn, was, m.at, m.tag);
    }
  }

  // Every word at which a checksum tag ends was invalid before the commit, as the next
  // tag: that is what the reset bit is for.
  ghost predicate AllQuiet(was: seq<byte>, marks: seq<Mark>) {
    forall i :: 0 < i < |marks| ==> Quiet(was, marks[i])
  }

  ghost predicate Torn(was: seq<byte>, now: seq<byte>, torn: seq<byte>, p: nat) {
    |was| == |now| == |torn| && p <= |now| && torn[..p] == now[..p] && torn[p..] == was[p..]
  }

  function SealCursor(m: Mark, log: seq<Item>): Cursor {
    Cursor(m.at, m.tag, NULL_WORD, log, Found(m.at, m.tag, log))
  }

  // Once one checksum is in place, the commit stays found.
  lemma {:induction false} TornSeals(was: seq<byte>, now: seq<byte>, torn: seq<byte>, progSize: nat, p: nat,
                                     crc: bv32, marks: seq<Mark>, i: nat, log: seq<Item>)
    requires progSize > 0 && Torn(was, now, torn, p) && Sealed(now, crc, marks) && AllQuiet(was, marks)
    requires 0 < i < |marks| && p <= marks[|marks| - 1].at
    requires NoFalseSeal(torn, progSize, p, SealCursor(marks[i], log))
    ensures Scan(torn, progSize, SealCursor(marks[i], log)).found.log == log
    decreases |marks| - i
  {
    hide Step, Segment, Reaches, Scan, NoFalseSeal, Quiet;
    var m, c := marks[i], SealCursor(marks[i], log);
    if p <= m.at {
      QuietFrame(was, torn, p, m);
      QuietStops(torn, progSize, c);
    } else {
      assert i + 1 < |marks|;
      var n := marks[i + 1];
      assert SegmentAt(now, crc, marks, i);
      SegmentBounds(now, NULL_WORD, m, n);
      if p < m.at + 4 {
        BeyondTear(torn, progSize, p, c);
      } else {
        SameSlice(torn, now, p, m.at, m.at + 4);
        StepTornSegment(torn, now, progSize, c, n);
        if Step(torn, progSize, c).Go? {
          ReachesOne(torn, progSize, c, SealCursor(n, log));
          Onwards(torn, progSize, p, c, SealCursor(n, log));
          TornSeals(was, now, torn, progSize, p, crc, marks, i + 1, log);
        } else {
          StopsHere(torn, progSize, c);
        }
      }
    }
  }

  lemma StopsHere(blk: seq<byte>, progSize: nat, c: Cursor)
    requires progSize > 0 && Step(blk, progSize, c).Stop?
    ensures Scan(blk, progSize, c).found == c.found
  {
    hide Step;
  }

  // The found offset only grows along a scan.
  lemma {:induction false} FoundGrows(blk: seq<byte>, progSize: nat, c: Cursor)
    requires progSize > 0 && c.found.off <= c.at
    ensures c.found.off <= Scan(blk, progSize, c).found.off
    decreases |blk| - c.at
  {
    StepAdvances(blk, progSize, c);
    StepFound(blk, progSize, c);
    hide Step;
    if Step(blk, progSize, c).Go? {
      FoundGrows(blk, progSize, Step(blk, progSize, c).next);
    }
  }

  lemma StepFound(blk: seq<byte>, progSize: nat, c: Cursor)
    requires progSize > 0 && c.found.off <= c.at
    ensures var step := Step(blk, progSize, c);
            step.Go? ==> c.found.off <= step.next.found.off <= step.next.at
  {
    hide Unpack, IsValid, IsCrc, TagAt, Flip, Crc.Crc, FromLe;
  }

  // The checksum that decides: before it a commit has not happened, after it it has.
  function Decider(c: Commit): nat
    requires c.marks != []
  {
    c.marks[0].at + 4
  }

  // From the end of the attributes of a commit on.
  lemma TornFirstSeal(was: seq<byte>, now: seq<byte>, torn: seq<byte>, progSize: nat, p: nat, s: Cursor,
          marks: seq<Mark>)
    requires progSize > 0 && Torn(was, now, torn, p) && AllQuiet(was, marks) && |marks| >= 2
    requires marks[0] == Mark(s.at, s.ptag) && Sealed(now, s.crc, marks)
    requires s.at + 4 <= p <= marks[|marks| - 1].at
    requires NoFalseSeal(torn, progSize, p, s)
    ensures var found := Scan(torn, progSize, s).found; found == s.found || found.log == s.pending
    ensures s.at + 8 <= p ==> Scan(torn, progSize, s).found.log == s.pending && Scan(torn, progSize, s).found.off > 0
  {
    hide Step, Segment, Reaches, Scan, NoFalseSeal, Quiet;
    var n := marks[1];
    assert SegmentAt(now, s.crc, marks, 0);
    SegmentBounds(now, s.crc, marks[0], n);
    SameSlice(torn, now, p, s.at, s.at + 4);
    StepTornSegment(torn, now, progSize, s, n);
    var d := SealCursor(n, s.pending);
    if s.at + 8 <= p {
      SegmentFrame(now, torn, s.crc, marks[0], n, p);
      StepSegment(torn, progSize, s, n);
    }
    if Step(torn, progSize, s).Go? {
      ReachesOne(torn, progSize, s, d);
      Onwards(torn, progSize, p, s, d);
      TornSeals(was, now, torn, progSize, p, s.crc, marks, 1, s.pending);
      FoundGrows(torn, progSize, d);
    } else {
      StopsHere(torn, progSize, s);
    }
  }

  // A fetch of a torn block finds the log of before or the log of after and nothing else;
  // which one is settled by the first checksum of the commit.
  lemma TornCommit(was: seq<byte>, now: seq<byte>, torn: seq<byte>, progSize: nat, p: nat, h: seq<Commit>, c: Commit)
    requires progSize > 0 && Holds(now, h + [c]) && Torn(was, now, torn, p)
    requires End(h).at <= p <= End(h + [c]).at && AllQuiet(was, c.marks)
    requires NoFalseSeal(torn, progSize, p, Start(torn))
    ensures c.marks != []
    ensures var found := ScanBlock(torn, progSize).found;
            && (found == FoundAfter(h) || found.log == LogOf(h + [c]))
            && (p < Decider(c) ==> found == FoundAfter(h))
            && (Decider(c) + 4 <= p ==> found.log == LogOf(h + [c]) && found.off > 0)
  {
    hide Step, Segment, Reaches, Scan, NoFalseSeal, Encode, Sealed, LastWord, AllStorable, Crc.Crc;
    SnocPrefix(h, c);
    Bounds(now, h + [c]);
    var k := End(h).at;
    SameSlice(now, torn, p, 0, k);
    assert now[..k] == now[0..k] && torn[..k] == torn[0..k];
    HoldsFrame(now, torn, h);
    ScanHistory(torn, progSize, h);
    var s := CursorAfter(torn, h);
    Onwards(torn, progSize, p, Start(torn), s);
    var d := Past(s, c.items);
    if p < Decider(c) {
      TornItems(torn, now, progSize, p, s, c.items);
    } else {
      SameSlice(torn, now, p, k, d.at);
      ScanItems(torn, progSize, s, c.items);
      Onwards(torn, progSize, p, s, d);
      TornFirstSeal(was, now, torn, progSize, p, d, c.marks);
    }
  }

  // ---- the two blocks of a pair ------------------------------------------------------------------

  // Sequence comparison of revision counts: a is newer than b when a - b, as a signed
  // word, is positive.
  predicate Newer(a: bv32, b: bv32) {
    a - b != 0 && (a - b) & 0x8000_0000 == 0
  }

  function Revision(blk: seq<byte>): bv32
    requires |blk| >= 4
  {
    FromLe(blk[..4])
  }

  // What a fetch makes of a pair: the newer block if it holds a commit, else the other.
  function FetchPair(first: seq<byte>, second: seq<byte>, progSize: nat): Option<Outcome>
    requires |first| >= 4 && |second| >= 4 && progSize > 0
  {
    var swap := Newer(Revision(second), Revision(first));
    var a, b := ScanBlock(if swap then second else first, progSize),
      ScanBlock(if swap then first else second, progSize);
    if a.found.off > 0 then Some(a) else if b.found.off > 0 then Some(b) else None
  }

  lemma NewerNext(rev: bv32)
    ensures Newer(rev + 1, rev) && !Newer(rev, rev + 1) && !Newer(rev, rev)
  {
  }

  // When the block a fetch picks holds a commit, it decides.
  ghost predicate Picked(blk: seq<byte>, other: seq<byte>, front: bool)
    requires |blk| >= 4 && |other| >= 4
  {
    if front then !Newer(Revision(other), Revision(blk)) else Newer(Revision(blk), Revision(other))
  }

  function Ordered(blk: seq<byte>, other: seq<byte>, front: bool, progSize: nat): Option<Outcome>
    requires |blk| >= 4 && |other| >= 4 && progSize > 0
  {
    if front then FetchPair(blk, other, progSize) else FetchPair(other, blk, progSize)
  }

  ghost predicate Finds(r: Option<Outcome>, log: seq<Item>) {
    r.Some? && r.value.found.log == log
  }

  // Power lost while appending: the current block is torn, the other one is older.
  // Wherever the tear is, the next fetch sees the log with or without the new commit.
  lemma AppendIsAtomic(was: seq<byte>, now: seq<byte>, torn: seq<byte>, other: seq<byte>, front: bool,
                       progSize: nat, p: nat, h: seq<Commit>, c: Commit)
    requires progSize > 0 && h != [] && Holds(now, h + [c]) && Torn(was, now, torn, p)
    requires End(h).at <= p <= End(h + [c]).at && AllQuiet(was, c.marks)
    requires NoFalseSeal(torn, progSize, p, Start(torn))
    requires |other| >= 4 && |was| >= 4 && was[..4] == now[..4] && Picked(was, other, front)
    ensures c.marks != []
    ensures var r := Ordered(torn, other, front, progSize);
            && (Finds(r, LogOf(h)) || Finds(r, LogOf(h + [c])))
            && (p < Decider(c) ==> Finds(r, LogOf(h)))
            && (Decider(c) + 4 <= p ==> Finds(r, LogOf(h + [c])))
  {
    hide Holds, Scan, Step, NoFalseSeal, LogOf, AllQuiet, Revision, Newer;
    TornCommit(was, now, torn, progSize, p, h, c);
    SnocPrefix(h, c);
    HoldsInit(now, h, c);
    Bounds(now, h);
    FirstWord(now, torn, p);
    SomethingFound(now, torn, progSize, p, h);
    assert Revision(torn) == Revision(was) by { SameRevision(torn, was); }
  }

  lemma SameRevision(a: seq<byte>, b: seq<byte>)
    requires |a| >= 4 && |b| >= 4 && a[..4] == b[..4]
    ensures Revision(a) == Revision(b)
  {
  }

  lemma FirstWord(now: seq<byte>, torn: seq<byte>, p: nat)
    requires 4 <= p <= |now| && p <= |torn| && torn[..p] == now[..p]
    ensures torn[..4] == now[..4]
  {
    assert torn[..4] == torn[..p][..4] && now[..4] == now[..p][..4];
  }

  lemma HoldsInit(blk: seq<byte>, h: seq<Commit>, c: Commit)
    requires Holds(blk, h + [c])
    ensures Holds(blk, h)
  {
    SnocPrefix(h, c);
    hide Committed;
  }

  lemma SomethingFound(now: seq<byte>, torn: seq<byte>, progSize: nat, p: nat, h: seq<Commit>)
    requires progSize > 0 && h != [] && Holds(now, h) && |torn| == |now|
    requires End(h).at <= p <= |now| && torn[..p] == now[..p]
    ensures |torn| >= 4 && ScanBlock(torn, progSize).found.off > 0
  {
    hide Holds, Scan, Step, Reaches, Crc.Crc;
    var k := End(h).at;
    Bounds(now, h);
    SameSlice(now, torn, p, 0, k);
    assert now[..k] == now[0..k] && torn[..k] == torn[0..k];
    HoldsFrame(now, torn, h);
    ScanHistory(torn, progSize, h);
    ReachesScan(torn, progSize, Start(torn), CursorAfter(torn, h));
    FoundGrows(torn, progSize, CursorAfter(torn, h));
  }

  // The block holds at least one whole commit, and a scan of it finds this log. The block
  // may be torn after that.
  predicate Yields(blk: seq<byte>, progSize: nat, log: seq<Item>)
    requires progSize > 0
  {
    |blk| >= 4 && ScanBlock(blk, progSize).found.off > 0 && ScanBlock(blk, progSize).found.log == log
  }

  // Power lost while compacting, once the erase is done: the other block is being rewritten
  // from its start under the next revision count. was is what the erase left. The current
  // block may itself be torn, by an append that failed before.
  lemma CompactionIsAtomic(current: seq<byte>, was: seq<byte>, now: seq<byte>, torn: seq<byte>, front: bool,
                           progSize: nat, p: nat, log: seq<Item>, c: Commit)
    requires progSize > 0 && Yields(current, progSize, log)
    requires Holds(now, [c]) && Torn(was, now, torn, p) && p <= End([c]).at && AllQuiet(was, c.marks)
    requires |now| >= 4 && Revision(now) == Revision(current) + 1
    requires NoFalseSeal(torn, progSize, p, Start(torn))
    ensures c.marks != []
    ensures var r := Ordered(current, torn, front, progSize);
            && (Finds(r, log) || Finds(r, c.items))
            && (p < Decider(c) ==> Finds(r, log))
            && (Decider(c) + 4 <= p ==> Finds(r, c.items))
  {
    hide Holds, Scan, Step, NoFalseSeal, AllQuiet, Quiet, Revision, Newer, End;
    OneCommit(c);
    MarksOf(now, [c]);
    if p < 4 {
      Bounds(now, [c]);
      BeyondTear(torn, progSize, p, Start(torn));
    } else {
      TornCommit(was, now, torn, progSize, p, [], c);
      if Decider(c) + 4 <= p {
        FirstWord(now, torn, p);
        SameRevision(torn, now);
        NewerNext(Revision(current));
      }
    }
  }

  // Power lost in the middle of the erase before that: the older block has whatever bytes
  // the erase has left it with. As long as its revision count is intact the current block
  // is picked; once that is damaged, nothing is found in it unless a checksum matches by
  // accident.
  lemma EraseIsAtomic(current: seq<byte>, older: seq<byte>, during: seq<byte>, front: bool, progSize: nat,
          log: seq<Item>)
    requires progSize > 0 && Yields(current, progSize, log)
    requires |older| >= 4 && |during| >= 4 && Picked(current, older, front)
    requires during[..4] == older[..4] || NoFalseSeal(during, progSize, 0, Start(during))
    ensures Finds(Ordered(current, during, front, progSize), log)
  {
    hide Scan, Step, NoFalseSeal, Revision, Newer;
    if during[..4] == older[..4] {
      SameRevision(during, older);
    } else {
      BeyondTear(during, progSize, 0, Start(during));
    }
  }

  // A damaged revision count is no accident: if it is all that has changed up to the first
  // checksum, that checksum is wrong, and nothing is found.
  lemma DamagedRevision(older: seq<byte>, during: seq<byte>, progSize: nat, h: seq<Commit>)
    requires progSize > 0 && h != [] && Holds(older, h) && |during| == |older|
    requires h[0].marks != [] && Decider(h[0]) + 4 <= |older|
    requires during[..4] != older[..4] && during[4..Decider(h[0]) + 4] == older[4..Decider(h[0]) + 4]
    ensures ScanBlock(during, progSize).found == NOTHING
  {
    hide *;
    var c := h[0];
    FirstHolds(older, h);
    OneCommit(c);
    FirstOf(older, c);
    DeciderIs(c);
    var s, d := Start(during), Past(Start(during), c.items);
    Bounds(older, [c]);
    StartIs(older);
    StartIs(during);
    var n, e := d.at, Decider(c) + 4;
    PastBoth(Start(older), s, c.items);
    SameMiddle(older, during, 4, e, 4, n);
    ScanItems(during, progSize, s, c.items);
    ReachesScan(during, progSize, s, d);
    SameMiddle(older, during, 4, e, n, n + 4);
    SameMiddle(older, during, 4, e, n + 4, n + 8);
    OtherRevision(older, during, c.items);
    WrongSeal(older, during, progSize, Past(Start(older), c.items), d, c.marks[1]);
    BlockScan(during, progSize);
  }

  lemma {:induction false} FirstHolds(blk: seq<byte>, h: seq<Commit>)
    requires h != [] && Holds(blk, h)
    ensures Holds(blk, [h[0]])
    decreases |h|
  {
    hide Committed;
    var init := h[..|h| - 1];
    if |h| == 1 {
      assert [h[0]] == h;
    } else {
      FirstHolds(blk, init);
    }
  }

  lemma DeciderIs(c: Commit)
    requires c.marks != []
    ensures Decider(c) == c.marks[0].at + 4
  {
  }

  lemma BlockScan(blk: seq<byte>, progSize: nat)
    requires |blk| >= 4 && progSize > 0
    ensures ScanBlock(blk, progSize) == Scan(blk, progSize, Start(blk)) && Start(blk).found == NOTHING
  {
    hide Scan;
  }

  lemma StartIs(blk: seq<byte>)
    requires |blk| >= 4
    ensures Start(blk) == Cursor(4, NULL_WORD, Crc.Crc(NULL_WORD, blk[..4]), [], NOTHING)
  {
    hide Crc.Crc;
  }

  lemma PastBoth(a: Cursor, b: Cursor, items: seq<Item>)
    requires a.at == b.at && a.ptag == b.ptag && a.pending == b.pending && a.found == b.found
    ensures Past(a, items).at == Past(b, items).at == a.at + |Encode(a.ptag, items)|
    ensures Past(a, items).(crc := 0) == Past(b, items).(crc := 0)
    ensures Past(a, items).found == a.found
  {
    hide Crc.Crc, Encode, LastWord;
  }

  // The first commit of a block, seen from its start.
  lemma FirstOf(blk: seq<byte>, c: Commit)
    requires Holds(blk, [c])
    ensures |blk| >= 4 && |c.marks| >= 2 && AllStorable(c.items)
    ensures var d := Past(Start(blk), c.items);
            && d.at <= |blk| && blk[4..d.at] == Encode(NULL_WORD, c.items)
            && c.marks[0] == Mark(d.at, d.ptag) && Segment(blk, d.crc, c.marks[0], c.marks[1])
  {
    hide Encode, AllStorable, LastWord, Segment, Crc.Crc;
    var h := [c];
    var init := h[..|h| - 1];
    assert h != [] && init == [];
    assert Holds(blk, init) && Committed(blk, End(init).at, End(init).tag, Seed(blk, init), h[|h| - 1]);
    assert SegmentAt(blk, Past(Start(blk), c.items).crc, c.marks, 0);
  }

  lemma SameMiddle(a: seq<byte>, b: seq<byte>, i: nat, j: nat, x: nat, y: nat)
    requires i <= x <= y <= j <= |a| && j <= |b| && b[i..j] == a[i..j]
    ensures a[x..y] == b[x..y]
  {
    forall k | x <= k < y
      ensures a[k] == b[k]
    {
      assert a[i..j][k - i] == a[k] && b[i..j][k - i] == b[k];
    }
  }

  lemma OtherRevision(a: seq<byte>, b: seq<byte>, items: seq<Item>)
    requires |a| >= 4 && |b| >= 4 && a[..4] != b[..4]
    ensures Past(Start(a), items).crc != Past(Start(b), items).crc
  {
    hide Encode, LastWord, Crc.Crc;
    var bytes := Encode(NULL_WORD, items);
    Crc.WindowDetected(NULL_WORD, [], a[..4], b[..4], bytes);
    assert [] + a[..4] == a[..4] && [] + b[..4] == b[..4];
    Crc.CrcConcat(NULL_WORD, a[..4], bytes);
    Crc.CrcConcat(NULL_WORD, b[..4], bytes);
  }

  lemma WrongSeal(a: seq<byte>, b: seq<byte>, progSize: nat, c: Cursor, d: Cursor, n: Mark)
    requires progSize > 0 && |a| == |b| && c.at == d.at && c.ptag == d.ptag && c.crc != d.crc
    requires Segment(a, c.crc, Mark(c.at, c.ptag), n) && c.at + 8 <= |a|
    requires a[c.at..c.at + 4] == b[c.at..c.at + 4] && a[c.at + 4..c.at + 8] == b[c.at + 4..c.at + 8]
    ensures Scan(b, progSize, d).found == d.found
  {
    hide Unpack, IsValid, TagAt, Crc.Crc, FromLe, Flip, IsCrc, Follows, Step, Scan;
    SameTag(a, b, c.at, c.ptag);
    FollowsFields(TagAt(a, c.at, c.ptag), n.tag, n.at - c.at - 4);
    Crc.CrcInjective(c.crc, d.crc, a[c.at..c.at + 4]);
    StepWrong(b, progSize, d);
    StopsHere(b, progSize, d);
  }

  lemma StepWrong(blk: seq<byte>, progSize: nat, c: Cursor)
    requires progSize > 0 && c.at + 8 <= |blk| && IsCrc(TagAt(blk, c.at, c.ptag))
    requires FromLe(blk[c.at + 4..c.at + 8]) != Crc.Crc(c.crc, blk[c.at..c.at + 4])
    ensures Step(blk, progSize, c).Stop?
  {
    hide Unpack, IsValid, TagAt, Crc.Crc, FromLe, Flip, IsCrc;
  }

  lemma OneCommit(c: Commit)
    ensures [] + [c] == [c] && LogOf([c]) == c.items && FoundAfter([]) == NOTHING && End([]).at == 4
  {
    SnocPrefix([], c);
    assert [c][..0] == [];
  }
}
