// Devices on which a commit loses part of the global state.
module Losses {
  import opened Wrappers
  import opened Tags
  import opened Log
  import opened Gstate
  import opened FileSystem
  import opened Orphans
  import opened Directories
  import opened Traverse
  import opened Util
  import Compaction
  import Rename
  import Split
  import Words

  // ---- entries and records ------------------------------------------------------------------------

  // The bit that says there are orphans, as one directory has it when another one has it too.
  const MARK := G(0x8000_0000, 0, 0)

  function Named(type3: nat, name: seq<byte>): Item {
    Item(RawTag.Tag(type3, 0, |name|), name)
  }

  // An inline file of n zeros.
  function Inline(id: nat, n: nat): Item {
    Item(RawTag.Tag(0x201, id, n), seq(n, _ => 0))
  }

  function Created(id: nat, name: Item, struct: Item): seq<Item> {
    [CreateAt(id), name.At(id), struct]
  }

  // The end of a commit that has recorded the bit.
  function Marked(log: seq<Item>): seq<Item> {
    log + [StateItem(MARK)] + [SEAL]
  }

  lemma MarkIs()
    ensures MARK != ZERO && Count(MARK.tag) == 0 && !HasMove(MARK) && Xor(MARK, MARK) == ZERO && Xor(ZERO, MARK) == MARK
    ensures TopBit(MARK.tag) != 0 && ProperMove(ZERO) && Count(ZERO.tag) == 0
  {
    Meets();
    assert Words.And(0x8000_0000, 0x7000_0000) == 0;
    XorSelf(MARK);
    NothingCountedIn();
    hide *;
    ProperZero();
  }

  lemma MarkedIs(log: seq<Item>)
    ensures DeltaOf(Marked(log)) == MARK
    ensures Replay(Marked(log)) == Replay(log) && TailFound(Marked(log)) == TailFound(log)
    ensures Settled(log) ==> Settled(Marked(log))
  {
    hide *;
    MarkedLog(log);
    Split.StateItemIs(log, MARK);
    Split.SealIs(log + [StateItem(MARK)]);
    TailFoundIs(log);
    TailFoundIs(Marked(log));
  }

  lemma MarkedLog(log: seq<Item>)
    ensures Marked(log) == log + [StateItem(MARK)] + [SEAL]
  {
    hide StateItem;
  }

  // ---- sizes --------------------------------------------------------------------------------------

  lemma EndSnoc(log: seq<Item>, x: Item, progSize: nat)
    requires progSize > 0
    ensures EndOf(log + [x], progSize)
         == if Kind(x.tag.type3) == TYPE_CRC then AlignUp(EndOf(log, progSize) + 8, progSize)
            else EndOf(log, progSize) + x.tag.Dsize()
    ensures EndOf([], progSize) == 4
  {
    SnocPrefix(log, x);
    hide AlignUp;
  }

  lemma EnteringSizes(log: seq<Item>, id: nat, name: Item, struct: Item, progSize: nat)
    requires progSize > 0 && name.IsName() && IsStruct(struct)
    ensures var xs, n := Created(id, name, struct), name.tag.Dsize() + struct.tag.Dsize();
            && EndOf(log + xs, progSize) == EndOf(log, progSize) + 4 + n
            && Split.SizeOf(Compaction.Attrs(log + xs)) == Split.SizeOf(Compaction.Attrs(log)) + n
            && Split.SizeOf(xs) == 4 + n
  {
    var a, b, c := CreateAt(id), name.At(id), struct;
    assert log + Created(id, name, struct) == log + [a] + [b] + [c];
    assert Created(id, name, struct) == [] + [a] + [b] + [c];
    assert Kind(a.tag.type3) != TYPE_CRC && Kind(b.tag.type3) != TYPE_CRC && Kind(c.tag.type3) != TYPE_CRC;
    assert a.tag.Dsize() == 4 && !a.IsAttr() && b.IsAttr() && c.IsAttr() && b.tag.Dsize() == name.tag.Dsize();
    hide *;
    EndSnoc(log, a, progSize);
    EndSnoc(log + [a], b, progSize);
    EndSnoc(log + [a] + [b], c, progSize);
    Split.AttrsSnoc(log, a);
    Split.AttrsSnoc(log + [a], b);
    Split.AttrsSnoc(log + [a] + [b], c);
    Split.SizeSnoc([], a);
    Split.SizeSnoc([] + [a], b);
    Split.SizeSnoc([] + [a] + [b], c);
  }

  lemma MarkedSizes(log: seq<Item>, progSize: nat)
    requires progSize > 0
    ensures EndOf(Marked(log), progSize) == AlignUp(EndOf(log, progSize) + 16 + 8, progSize)
    ensures Split.SizeOf(Compaction.Attrs(Marked(log))) == Split.SizeOf(Compaction.Attrs(log))
  {
    var x := StateItem(MARK);
    assert x.tag == RawTag.Tag(TYPE_MOVESTATE, NO_ID, 12);
    assert Kind(x.tag.type3) != TYPE_CRC && Kind(SEAL.tag.type3) == TYPE_CRC && x.tag.Dsize() == 16;
    assert !x.IsAttr() && !SEAL.IsAttr();
    hide *;
    MarkedLog(log);
    EndSnoc(log, x, progSize);
    EndSnoc(log + [x], SEAL, progSize);
    Split.AttrsSnoc(log, x);
    Split.AttrsSnoc(log + [x], SEAL);
  }

  // ---- a delta that goes in twice ------------------------------------------------------------------

  // The root with a directory and a file, and the directory with one file that nearly fills
  // it. Both have recorded the bit.
  function NearlyFull(): seq<Mdir> {
    [Mdir(Pair(0, 1), Marked(RootLog())), Mdir(Pair(2, 3), Marked(FullLog()))]
  }

  function RootLog(): seq<Item> {
    [] + Created(0, Named(TYPE_DIR, [100]), DirStruct(0, Pair(2, 3)))
    + Created(1, Named(TYPE_REG, [102]), Inline(1, 3)) + [SoftTail(Pair(2, 3))]
  }

  function FullLog(): seq<Item> {
    [] + Created(0, Named(TYPE_REG, [103]), Inline(0, 430))
  }

  // The file of the root is renamed into the directory, after its other file.
  function Arriving(): seq<Item> {
    Created(1, Named(TYPE_REG, [104]), Inline(1, 3))
  }

  const SIZES := Room(512, 16, true, {Pair(4, 5)})

  // Sixteen bytes of attributes end at 496 of 504, and the record of the global state needs
  // sixteen more. The directory is split and the commit succeeds, but what the directory had
  // recorded has gone in twice.
  method DoubledDelta() returns (fs: Fs)
    ensures fresh(fs) && fs.Valid() && Off(fs.thread, fs.Mem()) == MARK != ZERO
  {
    hide *;
    MarkIs();
    NearlyFullIs();
    fs := new Fs.Mount(NearlyFull());
    fs.PrepMove(1, Pair(0, 1));
    fs.MemIs();
    ghost var m := fs.Mem();
    ghost var t := NearlyFull();
    MovingOut(t, m);
    ArrivingIs(m);
    ghost var logs, chain;
    var ok;
    ok, logs, chain := fs.DirCommit(1, Arriving(), SIZES);
    fs.MemIs();
  }

  // A move out of the root that has only been prepared is still to be written, and is not
  // pending on the other directory.
  lemma MovingOut(t: seq<Mdir>, m: Memory)
    requires Off(t, m) == ZERO && Total(Dirs(t)) == ZERO && MoveIn(m.pending) == MoveIn(MoveOf(1, Pair(0, 1)))
    ensures m.delta != ZERO && !HasMoveHere(m.pending, Pair(2, 3))
  {
    hide *;
    OneIsId();
    MoveItemOf(1, Pair(0, 1));
    SameMoveItem(m.pending, MoveOf(1, Pair(0, 1)));
    if m.delta == ZERO {
      StoredState(t, m);
      SameMoveItem(ZERO, m.pending);
      MoveZero();
      NoMoveIsNone(ZERO);
    }
    NotThere();
  }

  lemma OneIsId()
    ensures 1 < NO_ID
  {
  }

  lemma NotThere()
    ensures !HasMoveHere(MoveOf(1, Pair(0, 1)), Pair(2, 3))
  {
    hide HasMove, Pack;
  }

  lemma NearlyFullIs()
    ensures var t := NearlyFull();
            && |t| == 2 && t[0].pair == Pair(0, 1) && t[1] == Mdir(Pair(2, 3), Marked(FullLog()))
            && DeltaOf(t[1].log) == MARK && OnlyStored(Dirs(t)) && Total(Dirs(t)) == ZERO
            && ProperMove(Total(Dirs(t)))
    ensures 1 < 0x400 && SIZES.Valid() && Pair(2, 3) !in SIZES.unused
  {
    MarkIs();
    assert |NearlyFull()| == 2 && NearlyFull()[0] == Mdir(Pair(0, 1), Marked(RootLog()))
      && NearlyFull()[1] == Mdir(Pair(2, 3), Marked(FullLog()));
    assert Pair(2, 3) != Pair(4, 5);
    hide FullLog, RootLog, NearlyFull, Marked, Count, Total, DeltaOf, ProperMove, Xor, HasMove;
    MarkedIs(RootLog());
    MarkedIs(FullLog());
    TwoMarked(NearlyFull());
  }

  lemma TwoMarked(t: seq<Mdir>)
    requires |t| == 2 && DeltaOf(t[0].log) == MARK && DeltaOf(t[1].log) == MARK
    ensures OnlyStored(Dirs(t)) && Total(Dirs(t)) == ZERO
  {
    MarkIs();
    hide DeltaOf, Count, Xor, Total;
    assert t == [t[0]] + [t[1]];
    DirsConcat([t[0]], [t[1]]);
    OneDir(t[0]);
    OneDir(t[1]);
    TotalConcat([View(t[0])], [View(t[1])]);
    TotalOne(View(t[0]));
    TotalOne(View(t[1]));
  }

  lemma ArrivingIs(m: Memory)
    requires m.delta != ZERO && !HasMoveHere(m.pending, Pair(2, 3))
    ensures var d := Mdir(Pair(2, 3), Marked(FullLog()));
            && NoState(Arriving()) && SIZES.Valid() && Settled(d.log + WithMove(d, Arriving(), m))
            && Late(SIZES, d, Arriving(), m) && !Appends(SIZES, d, Arriving(), m)
            && Succeeds(SIZES, d, Arriving(), m)
  {
    hide *;
    var d := Mdir(Pair(2, 3), Marked(FullLog()));
    WithMoveIs(d, Arriving(), m);
    assert Arriving() + [] == Arriving();
    FullEntries();
    FullSizes();
    SizesAre(d, m);
    MemoryIs(m, d.pair);
    RoomIs(SIZES, d, Arriving(), m);
    PackedIs(SIZES, d, Arriving(), m);
    var log := d.log + Arriving();
    Split.RangeAtMost(log, 0, 1);
    Split.RangeAtMost(log, 1, 2);
    EnoughSpace(log);
    Split.EnoughSucceeds(512, 16, OnDisk(log), 0, 2, Split.TailOf(log).Some?, 1, Tried(SIZES, d, Arriving(), m),
                         DeltaOf(d.log));
  }

  lemma EnoughSpace(log: seq<Item>)
    requires Split.RangeSize(OnDisk(log), 0, 1) <= 472 && Split.RangeSize(OnDisk(log), 1, 2) <= 472
    ensures Split.Enough(512, 16, OnDisk(log), 0, 2, 1)
  {
    hide Split.RangeSize;
  }

  lemma SizesAre(d: Mdir, m: Memory)
    requires EndOf(d.log, 16) == 480 && Split.SizeOf(Arriving()) == 16
    ensures SIZES.Valid() && SIZES.blockSize == 512 && SIZES.progSize == 16 && |SIZES.unused| == 1
    ensures HasPlace(SIZES, d, Arriving()) && !HasPlaceWithState(SIZES, d, Arriving()) && SIZES.erased
  {
    hide EndOf, Split.SizeOf, Arriving;
    assert SIZES.unused == {Pair(4, 5)};
  }

  lemma FullEntries()
    ensures Settled(Marked(FullLog()) + Arriving()) && |Replay(Marked(FullLog()) + Arriving())| == 2
    ensures NoState(Arriving())
  {
    var g, h := Named(TYPE_REG, [103]), Named(TYPE_REG, [104]);
    assert g.IsName() && h.IsName() && !g.tag.IsDelete() && !h.tag.IsDelete();
    assert IsStruct(Inline(0, 430)) && IsStruct(Inline(1, 3)) && Inline(0, 430).tag.id == 0 && Inline(1, 3).tag.id == 1;
    assert Arriving() == Created(1, h, Inline(1, 3)) == [CreateAt(1), h.At(1), Inline(1, 3)];
    assert FullLog() == [] + [CreateAt(0), g.At(0), Inline(0, 430)];
    assert Settled([]) && Replay([]) == [] && 2 < NO_ID;
    hide *;
    EntryEnters([], 0, g, Inline(0, 430));
    MarkedIs(FullLog());
    EntryEnters(Marked(FullLog()), 1, h, Inline(1, 3));
    InsertLength(Replay([]), 0, [WriteOf(g), WriteOf(Inline(0, 430))]);
    InsertLength(Replay(Marked(FullLog())), 1, [WriteOf(h), WriteOf(Inline(1, 3))]);
  }

  lemma InsertLength(s: seq<Entry>, i: nat, e: Entry)
    requires i <= |s|
    ensures |Insert(s, i, e)| == |s| + 1
  {
  }

  lemma FullSizes()
    ensures EndOf(Marked(FullLog()), 16) == 480 && Split.SizeOf(Arriving()) == 16
    ensures Split.SizeOf(Compaction.Attrs(Marked(FullLog()) + Arriving())) <= 472
  {
    var g, h := Named(TYPE_REG, [103]), Named(TYPE_REG, [104]);
    assert g.IsName() && h.IsName() && g.tag.Dsize() == 5 && h.tag.Dsize() == 5;
    assert IsStruct(Inline(0, 430)) && IsStruct(Inline(1, 3));
    assert Inline(0, 430).tag.Dsize() == 434 && Inline(1, 3).tag.Dsize() == 7;
    assert Arriving() == Created(1, h, Inline(1, 3)) && FullLog() == [] + Created(0, g, Inline(0, 430));
    assert AlignUp(471, 16) == 480;
    hide *;
    EnteringSizes([], 0, g, Inline(0, 430), 16);
    MarkedSizes(FullLog(), 16);
    EnteringSizes(Marked(FullLog()), 1, h, Inline(1, 3), 16);
    EndSnoc([], SEAL, 16);
    Split.AttrsSnoc([], SEAL);
  }

  // ---- a delta that is folded in and never written ------------------------------------------------------

  // The root with one directory, which is empty and which has recorded the bit, as has the
  // root.
  function WithEmpty(): seq<Mdir> {
    [Mdir(Pair(0, 1), Marked(ParentLog())), Mdir(Pair(2, 3), Marked([]))]
  }

  function ParentLog(): seq<Item> {
    [] + Created(0, Named(TYPE_DIR, [100]), DirStruct(0, Pair(2, 3))) + [SoftTail(Pair(2, 3))]
  }

  // A name of 255 bytes, the longest that the default configuration allows.
  function LongBytes(): seq<byte> {
    seq(255, _ => 97)
  }

  function LongName(): Item {
    Named(TYPE_DIR, LongBytes())
  }

  // In blocks of 256 bytes it has no room.
  const SMALL := Room(256, 16, true, {})

  const LONG := Making(1, 0, LongBytes(), Pair(4, 5))

  // There is nothing to be written when the directory of the long name is made in the other
  // one. Its first commit succeeds. The second fails, in the compaction, which has folded in
  // what the parent had recorded.
  method LostDelta() returns (fs: Fs)
    ensures fresh(fs) && fs.Valid() && fs.thread == WithEmpty()
    ensures Off(WithEmpty(), Memory(ZERO, ZERO)) == ZERO
    ensures Off(fs.thread, fs.Mem()) == MARK != ZERO
  {
    hide *;
    MarkIs();
    WithEmptyIs();
    fs := new Fs.Mount(WithEmpty());
    fs.MemIs();
    MountedNothing(WithEmpty());
    LongFails();
    MakingLong();
    MkdirFails(WithEmpty(), Memory(ZERO, ZERO), LONG, SMALL);
    NothingLinked(WithEmpty());
    XorSelf(ZERO);
    var ok;
    ghost var first, second;
    ok, first, second := TryMakeDirectory(fs, LONG, SMALL, SMALL);
  }

  lemma WithEmptyIs()
    ensures var t := WithEmpty();
            && |t| == 2 && t[0] == Mdir(Pair(0, 1), Marked(ParentLog())) && t[1] == Mdir(Pair(2, 3), Marked([]))
            && DeltaOf(t[1].log) == MARK && OnlyStored(Dirs(t)) && Total(Dirs(t)) == ZERO
            && ProperMove(Total(Dirs(t)))
    ensures SMALL.Valid() && SMALL.unused == {}
  {
    MarkIs();
    assert |WithEmpty()| == 2 && WithEmpty()[0] == Mdir(Pair(0, 1), Marked(ParentLog()))
      && WithEmpty()[1] == Mdir(Pair(2, 3), Marked([]));
    hide ParentLog, WithEmpty, Marked, Count, Total, DeltaOf, ProperMove, Xor, HasMove;
    MarkedIs(ParentLog());
    MarkedIs([]);
    TwoMarked(WithEmpty());
  }

  lemma MountedNothing(t: seq<Mdir>)
    requires Total(Dirs(t)) == ZERO && OnlyStored(Dirs(t))
    ensures Mounted(t) == ZERO && Off(t, Memory(ZERO, ZERO)) == ZERO
  {
    assert IsValid(ZERO.tag);
    hide *;
    MountedIs(t);
    MountedState(t);
    ZeroIs();
  }

  lemma ZeroIs()
    ensures ZERO == G(0, 0, 0)
  {
  }

  // The parent is one pair, so the second commit enters the directory and threads it.
  lemma NothingLinked(t: seq<Mdir>)
    requires t == WithEmpty()
    ensures !Nodes(t)[1].split && LinkMemory(t, Memory(ZERO, ZERO), LONG) == Memory(ZERO, ZERO)
    ensures LONG.c == 1 && LinkAttrs(t, LONG) == LongAttrs()
  {
    hide *;
    WithEmptyIs();
    EmptyNode();
    NodesAt(t, 1);
    LongIs();
    LinkIsIt(t, Memory(ZERO, ZERO), LONG);
  }

  function LongAttrs(): seq<Item> {
    Directories.Entering(0, LongName(), Pair(4, 5), true)
  }

  lemma LongIs()
    ensures LONG.c == 1 && LONG.id == 0 && LONG.pair == Pair(4, 5)
    ensures LONG.Name() == LongName() && |LONG.name| < DELETED_SIZE
    ensures LongAttrs() == Directories.Entering(0, LongName(), Pair(4, 5), true)
    ensures LongName().IsName() && !LongName().tag.IsDelete() && 0 < NO_ID
  {
    hide Directories.Entering;
  }

  lemma EmptyNode()
    ensures var d := Mdir(Pair(2, 3), Marked([]));
            && NodeOf(d) == Node(Pair(2, 3), false, {}) && Settled(d.log) && Replay(d.log) == []
  {
    assert Settled([]) && Replay([]) == [] && TailFound([]) == Split.Tail(NULL_PAIR, false);
    assert Refs([]) == {};
    hide *;
    MarkedIs([]);
    NodeIs(Mdir(Pair(2, 3), Marked([])));
  }

  lemma ParentNode()
    ensures var d := Mdir(Pair(0, 1), Marked(ParentLog()));
            NodeOf(d) == Node(Pair(0, 1), false, {Pair(2, 3)}) && Settled(d.log)
  {
    var name, struct := Named(TYPE_DIR, [100]), DirStruct(0, Pair(2, 3));
    assert name.IsName() && !name.tag.IsDelete() && 0 < NO_ID;
    assert ParentLog() == [] + [CreateAt(0), name.At(0), struct] + [SoftTail(Pair(2, 3))];
    assert Settled([]) && Replay([]) == [] && Refs([]) == {};
    hide *;
    var three := [] + [CreateAt(0), name.At(0), struct];
    StructOf(0, Pair(2, 3));
    EntryEnters([], 0, name, struct);
    NewRef(name, 0, Pair(2, 3));
    RefsInsert(Replay([]), 0, [WriteOf(name), WriteOf(struct)]);
    SoftTailIs(Pair(2, 3));
    TailAfter(three, Split.Tail(Pair(2, 3), false));
    MarkedIs(ParentLog());
    NodeIs(Mdir(Pair(0, 1), Marked(ParentLog())));
  }

  lemma MakingLong()
    ensures var t := WithEmpty();
            && MakeReady(t, Memory(ZERO, ZERO), LONG)
            && (forall i :: 0 <= i < |t| ==> Settled(t[i].log))
            && (forall i :: 0 <= i < |t| ==> t[i].pair !in SMALL.unused + SMALL.unused)
  {
    hide *;
    var t := WithEmpty();
    WithEmptyIs();
    MarkIs();
    EmptyNode();
    ParentNode();
    LongIs();
    MountedNothing(t);
    NodesLength(t);
    NodesAt(t, 0);
    NodesAt(t, 1);
    TwoNodes(Nodes(t));
    IsClean(t, Memory(ZERO, ZERO));
    NoMoveInZero();
    IsMakeReady(t, Memory(ZERO, ZERO), LONG);
  }

  lemma NoMoveInZero()
    ensures !HasMove(ZERO)
  {
    MoveZero();
    hide *;
    NoMoveIsNone(ZERO);
  }

  lemma IsMakeReady(t: seq<Mdir>, m: Memory, k: Making)
    requires Clean(t, m) && Off(t, m) == ZERO && !HasMove(m.pending) && Count(m.pending.tag) == 0
    requires Consistent(Nodes(t)) && New(Nodes(t), k.pair) && k.c < |t|
    requires Settled(t[k.c].log) && k.id <= |Replay(t[k.c].log)| < NO_ID
    requires |k.name| < DELETED_SIZE
    ensures MakeReady(t, m, k)
  {
    hide Clean, Off, HasMove, Count, Consistent, New, WellFormed, AllNamed, Replay;
  }

  lemma TwoNodes(t: Thread)
    requires t == [Node(Pair(0, 1), false, {Pair(2, 3)}), Node(Pair(2, 3), false, {})]
    ensures Consistent(t) && New(t, Pair(4, 5))
  {
    assert Pair(0, 1) != Pair(2, 3) && Pair(4, 5) != Pair(2, 3) && Pair(4, 5) != Pair(0, 1);
    assert Head(t, 1) && t[1].id == Pair(2, 3);
    assert Pair(2, 3) in t[0].refs;
  }

  // There is no room for a long name, neither behind the last commit nor in a block of its
  // own.
  lemma TooLong(d: Mdir, attrs: seq<Item>, m: Memory)
    requires !HasMoveHere(m.pending, d.pair) && Settled(d.log + attrs) && |Replay(d.log + attrs)| == 1
    requires Latest(Replay(d.log + attrs)[0], TYPE_NAME).Some?
    requires Latest(Replay(d.log + attrs)[0], TYPE_NAME).value.size == 255
    requires attrs != [] && Split.SizeOf(attrs) >= 259
    ensures SMALL.Valid() && !Succeeds(SMALL, d, attrs, m)
    ensures Packed(SMALL, d, attrs, m).folded && !Packed(SMALL, d, attrs, m).written
  {
    hide *;
    SmallIs();
    WithMoveIs(d, attrs, m);
    assert attrs + [] == attrs;
    RoomIs(SMALL, d, attrs, m);
    PackedIs(SMALL, d, attrs, m);
    var log := d.log + attrs;
    NameTakesRoom(log);
    NonePaired(SMALL.unused);
    LongPlace(d, attrs);
    Split.NoneUnused(256, 16, OnDisk(log), 0, 1, Split.TailOf(log).Some?, Tried(SMALL, d, attrs, m), DeltaOf(d.log));
    Split.FitsIs(256, Split.RangeSize(OnDisk(log), 0, 1), Split.TailOf(log).Some?,
                 Xor(Tried(SMALL, d, attrs, m), DeltaOf(d.log)));
  }

  lemma LongFails()
    ensures var d, m := Mdir(Pair(2, 3), Marked([])), Memory(ZERO, ZERO);
            && SMALL.Valid() && !Succeeds(SMALL, d, LongAttrs(), m) && Packed(SMALL, d, LongAttrs(), m).folded
  {
    hide *;
    var d, m := Mdir(Pair(2, 3), Marked([])), Memory(ZERO, ZERO);
    EmptyNode();
    NoMoveInZero();
    NoMoveHere(ZERO, d.pair);
    LongEntry(d.log);
    LongSize();
    TooLong(d, LongAttrs(), m);
  }

  lemma LongPlace(d: Mdir, attrs: seq<Item>)
    requires attrs != [] && Split.SizeOf(attrs) >= 259
    ensures SMALL.Valid() && !HasPlace(SMALL, d, attrs)
  {
    hide EndOf, Split.SizeOf;
    assert SMALL.blockSize == 256 && SMALL.Valid();
  }

  lemma NameTakesRoom(log: seq<Item>)
    requires Settled(log) && |Replay(log)| == 1
    requires Latest(Replay(log)[0], TYPE_NAME).Some? && Latest(Replay(log)[0], TYPE_NAME).value.size == 255
    ensures Split.RangeSize(OnDisk(log), 0, 1) >= 259
  {
    hide Replay, Latest, WellFormed, AllNamed, Split.RangeSize, OnDisk;
    Split.RangeAtLeast(log, 0, 1, 0, TYPE_NAME);
  }

  lemma SmallIs()
    ensures SMALL.blockSize == 256 && SMALL.progSize == 16 && SMALL.Valid() && SMALL.unused == {}
  {
  }

  lemma LongEntry(log: seq<Item>)
    requires Settled(log) && Replay(log) == []
    ensures Settled(log + LongAttrs()) && |Replay(log + LongAttrs())| == 1
    ensures Latest(Replay(log + LongAttrs())[0], TYPE_NAME).Some?
            && Latest(Replay(log + LongAttrs())[0], TYPE_NAME).value.size == 255
  {
    var name, struct := LongName(), DirStruct(0, Pair(4, 5));
    var e := [WriteOf(name), WriteOf(struct)];
    assert Latest(e, TYPE_NAME) == Some(WriteOf(name)) && WriteOf(name).size == 255 by {
      assert e[..1][0] == WriteOf(name);
    }
    hide *;
    LongIs();
    StructOf(0, Pair(4, 5));
    EntryEnters(log, 0, name, struct);
    EnteringIs(0, name, Pair(4, 5), true);
    EnteringAfter(log, 0, name, Pair(4, 5), true);
    var three := [CreateAt(0), name.At(0), struct];
    SoftTailIs(Pair(4, 5));
    TailAfter(log + three, Split.Tail(Pair(4, 5), false));
    assert log + (three + [SoftTail(Pair(4, 5))]) == log + three + [SoftTail(Pair(4, 5))];
    InsertFirst(Replay(log), e);
  }

  lemma InsertFirst(s: seq<Entry>, e: Entry)
    requires s == []
    ensures Insert(s, 0, e) == [e]
  {
  }

  lemma LongSize()
    ensures Split.SizeOf(LongAttrs()) >= 259 && LongAttrs() != []
  {
    var name := LongName();
    assert LongAttrs()[1] == name.At(0) && name.At(0).tag.Dsize() == 259;
    hide *;
    Split.SizeAtLeast(LongAttrs(), 1);
  }

  // ---- a move that is not taken back ---------------------------------------------------------------

  // The root with a directory, which is empty, and a file.
  function WithFile(): seq<Mdir> {
    [Mdir(Pair(0, 1), RootLog() + [SEAL]), Mdir(Pair(2, 3), [] + [SEAL])]
  }

  function LongFile(): Item {
    Named(TYPE_REG, LongBytes())
  }

  const MOVE := Rename.Plan(0, 1, 1, 0, false, TYPE_REG, LongBytes())

  // A user attribute of the directory.
  const NOTE := Item(RawTag.Tag(TYPE_USERATTR + 1, 0, 1), [7])

  // The file is renamed into the directory under the long name, which fails. The next
  // operation finds nothing to be repaired; it sets an attribute of the directory in the root,
  // and with it the file is gone.
  method LostFile() returns (fs: Fs)
    ensures fresh(fs) && |fs.thread| == 2
    ensures |Replay(WithFile()[0].log)| == 2 && |Replay(WithFile()[1].log)| == 0
    ensures |Replay(fs.thread[0].log)| == 1 && fs.thread[1] == WithFile()[1]
  {
    hide *;
    ghost var t, m := WithFile(), Memory(ZERO, ZERO);
    WithFileIs();
    FileReady();
    MountedNothing(t);
    MarkIs();
    NoMoveInZero();
    fs := new Fs.Mount(WithFile());
    fs.MemIs();
    MoveIs();
    Rename.RecordedIdIs(MOVE);
    Rename.StatesAre(t, m, MOVE);
    // the rename
    fs.PrepMove(1, Pair(0, 1));
    fs.MemIs();
    LongFileFails();
    Rename.AttrsFine(t, m, MOVE);
    Rename.Prepared(t, m, MOVE);
    ghost var n := fs.Mem();
    WithMoveIs(t[1], Rename.Attrs(t, MOVE), n);
    ghost var attrs := Rename.Attrs(t, MOVE);
    assert attrs + [] == attrs;
    ghost var logs, chain;
    var ok;
    ok, logs, chain := fs.DirCommit(1, Rename.Attrs(WithFile(), MOVE), SMALL);
    fs.MemIs();
    // the next operation
    Rename.Demove(fs);
    HasOrphansIs(ZERO);
    Words.ZeroAtMost(Count(fs.gpending.tag));
    ghost var k := Deorphan(fs);
    fs.MemIs();
    NoteIs();
    Rename.StaleMove(t, m, MOVE, fs.Mem(), 0, [NOTE]);
    CommittedIs(t, 0, [NOTE], fs.Mem());
    FileGone();
    fs.Commit(0, [NOTE]);
  }

  lemma MoveIs()
    ensures MOVE.from == 0 && MOVE.oldid == 1 && MOVE.to == 1 && MOVE.newid == 0 && !MOVE.replaced
    ensures MOVE.Name() == LongFile() && |MOVE.name| < DELETED_SIZE && MOVE.kind == TYPE_REG
    ensures LongFile().IsName() && !LongFile().tag.IsDelete() && LongFile().tag.size == 255
    ensures 1 < 0x400 && 1 < NO_ID
  {
  }

  lemma NoteIs()
    ensures NoState([NOTE])
  {
  }

  lemma WithFileIs()
    ensures var t := WithFile();
            && |t| == 2 && t[0] == Mdir(Pair(0, 1), RootLog() + [SEAL]) && t[1] == Mdir(Pair(2, 3), [] + [SEAL])
            && OnlyStored(Dirs(t)) && Total(Dirs(t)) == ZERO && ProperMove(Total(Dirs(t)))
            && SMALL.Valid() && Pair(2, 3) !in SMALL.unused
    ensures Settled(WithFile()[0].log) && |Replay(WithFile()[0].log)| == 2
    ensures Rename.IsOf(Replay(WithFile()[0].log)[1], TYPE_REG)
    ensures Settled(WithFile()[1].log) && Replay(WithFile()[1].log) == []
  {
    MarkIs();
    assert |WithFile()| == 2 && WithFile()[0] == Mdir(Pair(0, 1), RootLog() + [SEAL])
      && WithFile()[1] == Mdir(Pair(2, 3), [] + [SEAL]);
    assert Settled([]) && Replay([]) == [];
    assert NoState([]);
    hide *;
    SmallIs();
    RootEntries();
    Split.SealIs(RootLog());
    Split.SealIs([]);
    DeltaOfNothing(RootLog());
    DeltaOfNothing([]);
    DirsAt(WithFile(), 0);
    DirsAt(WithFile(), 1);
    NothingStored(Dirs(WithFile()));
    NodesLength(WithFile());
  }

  lemma RootEntries()
    ensures Settled(RootLog()) && |Replay(RootLog())| == 2 && NoState(RootLog())
    ensures Rename.IsOf(Replay(RootLog())[1], TYPE_REG)
  {
    var d, f, struct := Named(TYPE_DIR, [100]), Named(TYPE_REG, [102]), DirStruct(0, Pair(2, 3));
    assert d.IsName() && !d.tag.IsDelete() && f.IsName() && !f.tag.IsDelete() && 2 < NO_ID;
    assert IsStruct(Inline(1, 3)) && Inline(1, 3).tag.id == 1;
    var one := [] + [CreateAt(0), d.At(0), struct];
    var two := one + [CreateAt(1), f.At(1), Inline(1, 3)];
    assert RootLog() == two + [SoftTail(Pair(2, 3))];
    assert Settled([]) && Replay([]) == [];
    assert NoState(RootLog());
    hide *;
    StructOf(0, Pair(2, 3));
    EntryEnters([], 0, d, struct);
    InsertLength(Replay([]), 0, [WriteOf(d), WriteOf(struct)]);
    EntryEnters(one, 1, f, Inline(1, 3));
    InsertLength(Replay(one), 1, [WriteOf(f), WriteOf(Inline(1, 3))]);
    InsertedIs(Replay(one), 1, [WriteOf(f), WriteOf(Inline(1, 3))]);
    FileKind();
    SoftTailIs(Pair(2, 3));
    TailAfter(two, Split.Tail(Pair(2, 3), false));
  }

  lemma InsertedIs(s: seq<Entry>, i: nat, e: Entry)
    requires i <= |s|
    ensures |Insert(s, i, e)| == |s| + 1 && Insert(s, i, e)[i] == e
  {
  }

  lemma FileKind()
    ensures Rename.IsOf([WriteOf(Named(TYPE_REG, [102])), WriteOf(Inline(1, 3))], TYPE_REG)
  {
    var e: Entry := [WriteOf(Named(TYPE_REG, [102])), WriteOf(Inline(1, 3))];
    assert Latest(e, TYPE_NAME) == Latest(e[..1], TYPE_NAME) == Some(WriteOf(Named(TYPE_REG, [102])));
  }

  lemma FileReady()
    ensures Rename.Ready(WithFile(), Memory(ZERO, ZERO), MOVE)
  {
    MarkIs();
    assert Rename.Apart(WithFile());
    assert Rename.Closed(RootLog() + [SEAL]);
    assert WithFile()[0].log == RootLog() + [SEAL];
    hide *;
    WithFileIs();
    MountedNothing(WithFile());
    NoMoveInZero();
    MoveIs();
    IsClean(WithFile(), Memory(ZERO, ZERO));
    IsRenameReady(WithFile(), Memory(ZERO, ZERO), MOVE);
  }

  lemma IsRenameReady(t: seq<Mdir>, m: Memory, r: Rename.Plan)
    requires Rename.Apart(t) && Clean(t, m) && Off(t, m) == ZERO && !HasMove(Total(Dirs(t)))
    requires r.from < |t| && r.to < |t| && !r.replaced
    requires Settled(t[r.from].log) && Rename.Closed(t[r.from].log) && r.oldid < |Replay(t[r.from].log)|
    requires Settled(t[r.to].log) && r.newid <= |Replay(t[r.to].log)| < NO_ID
    requires Rename.IsOf(Replay(t[r.from].log)[r.oldid], r.kind) && |r.name| < DELETED_SIZE
    ensures Rename.Ready(t, m, r)
  {
    hide Rename.Apart, Clean, Off, HasMove, Total, Dirs, WellFormed, AllNamed, Replay, Rename.Closed;
  }

  lemma LongFileFails()
    ensures var t, m := WithFile(), Memory(ZERO, ZERO);
            var n, attrs := Rename.Moving(t, m, MOVE), Rename.Attrs(t, MOVE);
            && SMALL.Valid() && !HasMoveHere(n.pending, Pair(2, 3))
            && !Succeeds(SMALL, t[1], attrs, n) && !Packed(SMALL, t[1], attrs, n).written
  {
    hide *;
    var t, m := WithFile(), Memory(ZERO, ZERO);
    WithFileIs();
    FileReady();
    MoveIs();
    var n, attrs := Rename.Moving(t, m, MOVE), Rename.Attrs(t, MOVE);
    Rename.Prepared(t, m, MOVE);
    Rename.AttrsFine(t, m, MOVE);
    Rename.FirstReplay(t, m, MOVE);
    Rename.MovedEntryIsOld(t, m, MOVE, 0);
    Rename.AttrsIs(t, MOVE);
    InsertFirst(Replay(t[1].log), Rename.MovedEntry(t, MOVE));
    SizeOfWrite(LongFile());
    LongMove(t);
    TooLong(t[1], attrs, n);
  }

  lemma SizeOfWrite(x: Item)
    ensures WriteOf(x).size == x.tag.size
  {
  }

  lemma LongMove(t: seq<Mdir>)
    requires |t| == 2
    ensures Rename.Attrs(t, MOVE) != [] && Split.SizeOf(Rename.Attrs(t, MOVE)) >= 259
  {
    var moved := Moved(t[0].log, 1, 0);
    assert Rename.Attrs(t, MOVE) == Rename.Attributes(false, 0, LongFile(), moved);
    Rename.AttributesAre(false, 0, LongFile(), moved);
    var attrs := Rename.Attrs(t, MOVE);
    assert attrs[1] == LongFile().At(0) && LongFile().At(0).tag.Dsize() == 259;
    hide *;
    Split.SizeAtLeast(attrs, 1);
  }

  // With the attribute the file is deleted.
  lemma FileGone()
    ensures |Replay(WithFile()[0].log + [NOTE] + [DeleteAt(1)])| == 1
  {
    hide *;
    WithFileIs();
    var log := WithFile()[0].log;
    NoteApplied(Replay(log));
    ReplaySnoc(log, NOTE);
    ReplaySnoc(log + [NOTE], DeleteAt(1));
  }

  lemma NoteApplied(s: seq<Entry>)
    requires |s| == 2
    ensures |Apply(Apply(s, NOTE), DeleteAt(1))| == 1
  {
    assert |Apply(s, NOTE)| == 2;
  }

  // ---- a move that stays behind ---------------------------------------------------------------------

  // A directory of two pairs, the second with one entry that is on the move: the commit
  // that finishes the move empties the pair, which is dropped instead.
  method LeftoverMove() returns (fs: Fs)
    ensures fresh(fs) && fs.Valid() && Off(fs.thread, fs.Mem()) != ZERO
  {
    hide *;
    ChainedIs();
    MountedState(CHAINED);
    MountedIs(CHAINED);
    NoMoveOf(Pair(2, 3));
    MoveItemOf(0, Pair(2, 3));
    fs := new Fs.Mount(CHAINED);
    fs.PrepMove(0, Pair(2, 3));
    SameMoveItem(fs.gpending, MoveOf(0, Pair(2, 3)));
    fs.CommitEmptied(1, []);
  }

  const CHAINED: seq<Mdir> :=
    [Mdir(Pair(0, 1), [Split.TailItem(Split.Tail(Pair(2, 3), true)), SEAL]),
     Mdir(Pair(2, 3), [CreateAt(0), Item(RawTag.Tag(TYPE_REG, 0, 1), [97]), SEAL])]

  lemma ChainedIs()
    ensures |CHAINED| == 2 && CHAINED[1].pair == Pair(2, 3) && 0 < NO_ID
    ensures TailFound(CHAINED[0].log).split && |Replay(CHAINED[1].log)| == 1
    ensures OnlyStored(Dirs(CHAINED)) && ProperMove(Total(Dirs(CHAINED)))
  {
    assert |CHAINED| == 2 && CHAINED[1].pair == Pair(2, 3) && 0 < NO_ID;
    hide *;
    ChainedTail();
    ChainedEntry();
    ChainedDeltas();
    DirsAt(CHAINED, 0);
    DirsAt(CHAINED, 1);
    NothingCountedIn();
    NothingStored(Dirs(CHAINED));
    ProperZero();
  }

  lemma ChainedTail()
    ensures TailFound(CHAINED[0].log) == Split.Tail(Pair(2, 3), true)
  {
    hide ToLe;
    var x := Split.TailItem(Split.Tail(Pair(2, 3), true));
    assert CHAINED[0].log == [x] + [SEAL];
    assert [] + [x] == [x];
    hide *;
    Split.TailItemIs([], Split.Tail(Pair(2, 3), true));
    Split.SealIs([x]);
    TailFoundIs([x] + [SEAL]);
  }

  lemma ChainedEntry()
    ensures |Replay(CHAINED[1].log)| == 1
  {
    var name := Item(RawTag.Tag(TYPE_REG, 0, 1), [97]);
    var log := CHAINED[1].log;
    assert log[..3] == log && log[..2] == [CreateAt(0), name] && log[..2][..1] == [CreateAt(0)] && log[..1][..0] == [];
    assert Replay([]) == [];
    assert Replay([CreateAt(0)]) == Apply([], CreateAt(0)) == [[]];
    assert Replay([CreateAt(0), name]) == Apply([[]], name);
    assert log[..2] == [CreateAt(0), name];
    assert Replay(log) == Apply(Replay([CreateAt(0), name]), SEAL);
  }

  lemma ChainedDeltas()
    ensures DeltaOf(CHAINED[0].log) == ZERO && DeltaOf(CHAINED[1].log) == ZERO
  {
    var x := Split.TailItem(Split.Tail(Pair(2, 3), true));
    var ys := [CreateAt(0), Item(RawTag.Tag(TYPE_REG, 0, 1), [97])];
    assert NoState([x]) && NoState(ys);
    assert CHAINED[0].log == [x] + [SEAL] && CHAINED[1].log == ys + [SEAL];
    hide *;
    Split.SealIs([x]);
    Split.SealIs(ys);
    DeltaOfNothing([x]);
    DeltaOfNothing(ys);
  }

  lemma NothingStored(s: seq<Dir>)
    requires |s| == 2 && s[0].delta == ZERO && s[1].delta == ZERO
    ensures OnlyStored(s) && Total(s) == ZERO
  {
    NothingCountedIn();
    hide Count, Xor, Total;
    assert s == [s[0]] + [s[1]];
    TotalConcat([s[0]], [s[1]]);
    TotalOne(s[0]);
    TotalOne(s[1]);
    XorSelf(ZERO);
  }

  lemma ProperZero()
    ensures ProperMove(ZERO)
  {
    hide MoveIn, HasMove;
    NoMoveIsNone(ZERO);
  }
}
