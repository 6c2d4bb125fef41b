// lfs_format: a device that has just been formatted is one that everything can begin with.
module Formatting {
  import opened Wrappers
  import opened Tags
  import opened Log
  import opened Gstate
  import opened FileSystem
  import opened Orphans
  import opened Directories
  import opened Threads
  import Threading
  import Losses
  import Lookup
  import Split

  // The superblock, the first entry of the root: its name is "littlefs", its struct is inline.
  function SuperName(): Item {
    Item(RawTag.Tag(0x0ff, 0, 8), [108, 105, 116, 116, 108, 101, 102, 115])
  }

  function SuperStruct(data: seq<byte>): Item {
    Item(RawTag.Tag(0x201, 0, |data|), data)
  }

  // Twenty-four bytes: the version, the sizes of the device and the limits.
  function Formatted(data: seq<byte>): seq<Mdir> {
    [Mdir(Pair(0, 1), [CreateAt(0), SuperName(), SuperStruct(data)] + [SEAL])]
  }

  lemma RootLog(data: seq<byte>)
    ensures var log := Formatted(data)[0].log;
            && Settled(log) && Replay(log) == [[WriteOf(SuperName()), WriteOf(SuperStruct(data))]]
            && DeltaOf(log) == ZERO && NoTail(log)
  {
    hide *;
    var three := [CreateAt(0), SuperName(), SuperStruct(data)];
    SuperIs(data);
    NothingAtAll();
    NothingSettled();
    EntryEnters([], 0, SuperName(), SuperStruct(data));
    assert [] + [CreateAt(0), SuperName().At(0), SuperStruct(data)] == three;
    Split.SealIs(three);
    DeltaOfOther([], three);
    SealIsNoState();
    DeltaOfOther(three, [SEAL]);
    assert [] + three == three;
    FormattedIs(data);
    InsertFirst([WriteOf(SuperName()), WriteOf(SuperStruct(data))]);
  }

  lemma SuperIs(data: seq<byte>)
    ensures SuperName().IsName() && !SuperName().tag.IsDelete() && SuperName().At(0) == SuperName()
    ensures SuperStruct(data).tag.id == 0 && IsStruct(SuperStruct(data)) && 0 < NO_ID
  {
  }

  lemma NothingSettled()
    ensures Settled([])
  {
  }

  lemma InsertFirst(e: Entry)
    ensures Insert([], 0, e) == [e]
  {
  }

  lemma FormattedIs(data: seq<byte>)
    ensures var t := Formatted(data);
            && |t| == 1 && t[0].pair == Pair(0, 1)
            && t[0].log == [CreateAt(0), SuperName(), SuperStruct(data)] + [SEAL] && NoTail(t[0].log)
  {
  }

  lemma OneDirectory(t: seq<Mdir>)
    requires |t| == 1
    ensures t == [t[0]] && Dirs(t) == [View(t[0])] && View(t[0]).delta == DeltaOf(t[0].log)
  {
    hide DeltaOf;
  }

  lemma NoneCounted(s: seq<Dir>)
    requires |s| == 1 && s[0].delta == ZERO
    ensures OnlyStored(s)
  {
    assert Count(ZERO.tag) == 0 by {
      NothingCountedIn();
    }
    hide Count;
  }

  // The superblock refers to no directory.
  lemma RootNode(data: seq<byte>)
    ensures Nodes(Formatted(data)) == [Node(Pair(0, 1), false, {})]
  {
    hide *;
    var t := Formatted(data);
    RootLog(data);
    FormattedIs(data);
    NodesLength(t);
    NodesAt(t, 0);
    NodeIs(t[0]);
    NoTails([], t[0].log);
    assert [] + t[0].log == t[0].log;
    NoSplit();
    NoRefs(data);
    assert Nodes(t) == [Nodes(t)[0]];
  }

  lemma NoSplit()
    ensures !TailFound([]).split
  {
  }

  lemma NoRefs(data: seq<byte>)
    ensures Refs([[WriteOf(SuperName()), WriteOf(SuperStruct(data))]]) == {}
  {
    var e: Entry := [WriteOf(SuperName()), WriteOf(SuperStruct(data))];
    assert Latest(e, TYPE_STRUCT) == if |data| == DELETED_SIZE then None else Some(WriteOf(SuperStruct(data)));
    hide Latest;
    assert RefOf(e) == None;
  }

  lemma RootAlone(t: Thread)
    requires t == [Node(Pair(0, 1), false, {})]
    ensures Consistent(t) && forall p: Pair :: p != Pair(0, 1) ==> New(t, p)
  {
  }

  // A mount finds it in order, the tails lead nowhere, and any first directory can be made in it.
  lemma FormattedIsReady(data: seq<byte>, k: Making)
    requires k.c == 0 && k.id <= 1 && k.pair != Pair(0, 1) && |k.name| < DELETED_SIZE
    ensures var t := Formatted(data);
            && OnlyStored(Dirs(t)) && ProperMove(Total(Dirs(t))) && Mounted(t) == ZERO
            && Tailed(t) && Consistent(Nodes(t)) && MakeReady(t, Memory(ZERO, ZERO), k)
  {
    hide *;
    var t := Formatted(data);
    RootLog(data);
    FormattedIs(data);
    OneDirectory(t);
    TotalOne(View(t[0]));
    NoneCounted(Dirs(t));
    Losses.NoMoveInZero();
    FileSystem.IsProper(ZERO);
    Losses.MountedNothing(t);
    NothingCountedIn();
    Losses.ZeroIs();
    NotNull();
    WithoutTail(t[0]);
    RootNode(data);
    RootAlone(Nodes(t));
    IsClean(t, Memory(ZERO, ZERO));
    Few();
    Losses.IsMakeReady(t, Memory(ZERO, ZERO), k);
  }

  lemma NotNull()
    ensures !IsNull(Pair(0, 1))
  {
  }

  lemma Few()
    ensures 1 < NO_ID
  {
  }

  // The first directory of a new device: behind the root, and the thread ends behind it.
  lemma FirstDirectory(data: seq<byte>, k: Making)
    requires k.c == 0 && k.id <= 1 && k.pair != Pair(0, 1) && !IsNull(k.pair)
    requires |k.name| < DELETED_SIZE
    ensures Proper(Nodes(Formatted(data)))
    ensures var u := MakeStates(Formatted(data), Memory(ZERO, ZERO), k, 2);
            && |u| == 2 && u[0].pair == Pair(0, 1) && TailFound(u[0].log).pair == k.pair
            && u[1].pair == k.pair && IsNull(TailFound(u[1].log).pair)
  {
    hide *;
    var t, m := Formatted(data), Memory(ZERO, ZERO);
    FormattedIsReady(data, k);
    FormattedIs(data);
    Threading.MakeTailed(t, m, k, 2);
    RootNode(data);
    NodesLength(t);
    MadeAtOnce(t, m, k);
    MakeOnceIs(t, m, k);
    var u := MakeStates(t, m, k, 2);
    var d := NewDir(m, TailFound(t[0].log), k.pair);
    Losses.NoMoveInZero();
    NewDirWhole(m, TailFound(t[0].log), k.pair);
    TwoOf(Committed(t, 0, Entering(k.id, k.Name(), k.pair, true), m), d);
    JoinedIs(Committed(t, 0, Entering(k.id, k.Name(), k.pair, true), m), 0, d);
    TailedParts(u);
  }

  lemma TwoOf(t: seq<Mdir>, d: Mdir)
    requires |t| == 1
    ensures t[..1] + [d] + t[1..] == [t[0], d]
  {
  }
}
