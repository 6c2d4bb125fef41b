// lfs_fs_traverse: all blocks that the directories, the files in them and the open files
// use.
module Tree {
  import opened Wrappers
  import opened Tags
  import opened Log
  import opened Lookup
  import opened Gstate
  import opened FileSystem
  import opened Threads
  import opened CtzIndex
  import opened CtzList
  import opened Util
  import Files

  // A file that is not inline, by its last block and its size.
  datatype List = List(head: Addr, size: nat)

  // A file that has been opened: its skip list as of the last flush, and the block and
  // position of the write that is going on.
  datatype Handle = Handle(regular: bool, dirty: bool, writing: bool, inlined: bool, list: List, block: Addr, pos: nat)

  // The file system at one moment: the device, the directories in thread order, the open
  // files, and the global state.
  datatype Snapshot = Snapshot(dev: Device, blockSize: nat, thread: seq<Mdir>, files: seq<Handle>, state: G)

  function ListOf(s: seq<byte>): List
    requires |s| == 8
  {
    List(Addr(FromLe(s[..4])), FromLe(s[4..]) as nat)
  }

  // The file that a struct stands for.
  function FileOf(w: Option<Write>): Option<List> {
    if w.Some? && w.value.type3 == TYPE_CTZSTRUCT then Some(ListOf(Padded(w.value.data, 8))) else None
  }

  function StructAt(s: seq<Entry>, id: nat): Option<Write> {
    LookupEntry(s, id, ByType, TYPE_STRUCT)
  }

  // ---- the blocks of a file --------------------------------------------------------------------

  // The chain of n + 1 blocks that ends in head: the first pointer of every block names the
  // one before it.
  function ChainOf(dev: Device, head: Addr, n: nat): (chain: seq<Addr>)
    ensures chain != [] && chain[|chain| - 1] == head
    decreases n
  {
    if n == 0 || head !in dev || |dev[head]| < 4 then [head]
    else ChainOf(dev, Pointer(dev[head], 0), n - 1) + [head]
  }

  function Blocks(dev: Device, blockSize: nat, c: List): seq<Addr> {
    if c.size == 0 || blockSize <= 8 || c.size > FILE_MAX then []
    else ChainOf(dev, c.head, Index(blockSize, c.size - 1).0)
  }

  // A file has one chain.
  lemma OneChain(dev: Device, blockSize: nat, chain: seq<Addr>, c: List)
    requires IsFile(dev, blockSize, chain, c.head, c.size)
    ensures Blocks(dev, blockSize, c) == chain
  {
    hide Linked, Index, Straight, ChainOf;
    if c.size > 0 {
      ChainIs(dev, blockSize, chain, |chain| - 1);
      assert chain[..|chain|] == chain;
    }
  }

  lemma {:induction false} ChainIs(dev: Device, blockSize: nat, chain: seq<Addr>, n: nat)
    requires Linked(dev, blockSize, chain) && n < |chain|
    ensures ChainOf(dev, chain[n], n) == chain[..n + 1]
    decreases n
  {
    hide Linked, Pointer, Ctz, Pow2;
    if n > 0 {
      FirstPointer(dev, blockSize, chain, n);
      ChainIs(dev, blockSize, chain, n - 1);
      assert chain[..n + 1] == chain[..n] + [chain[n]];
    } else {
      assert chain[..1] == [chain[0]];
    }
  }

  lemma FirstPointer(dev: Device, blockSize: nat, chain: seq<Addr>, n: nat)
    requires Linked(dev, blockSize, chain) && 0 < n < |chain|
    ensures chain[n] in dev && |dev[chain[n]]| >= 4 && Pointer(dev[chain[n]], 0) == chain[n - 1]
  {
    hide Linked, Pointer, Ctz;
    HasPointer(dev, blockSize, chain, n, 0);
    assert Pow2(0) == 1;
  }

  // The struct of a file, as lfs_file_sync writes it: the last block and the size, in that order.
  lemma StructNames(s: seq<Entry>, id: nat, head: bv32, size: bv32)
    requires StructAt(s, id) == Some(Write(TYPE_CTZSTRUCT, 8, ToLe(head) + ToLe(size)))
    ensures FileOf(StructAt(s, id)) == Some(List(Addr(head), size as nat))
  {
    hide ToLe, FromLe, StructAt;
    FromLeToLe(head);
    FromLeToLe(size);
    var data := ToLe(head) + ToLe(size);
    assert Padded(data, 8) == data && data[..4] == ToLe(head) && data[4..] == ToLe(size);
  }

  ghost predicate Whole(v: Snapshot, c: List) {
    IsFile(v.dev, v.blockSize, Blocks(v.dev, v.blockSize, c), c.head, c.size)
  }

  // ---- what is used -------------------------------------------------------------------------------

  function Own(d: Mdir): seq<Addr> {
    [Addr(d.pair.first), Addr(d.pair.second)]
  }

  predicate InFile(v: Snapshot, f: Option<List>, b: Addr) {
    f.Some? && b in Blocks(v.dev, v.blockSize, f.value)
  }

  predicate EntryUses(v: Snapshot, d: Mdir, id: nat, b: Addr) {
    InFile(v, FileOf(StructAt(Replay(d.log), id)), b)
  }

  // Directory i uses a block: it is one of its own, or one of a file in it.
  ghost predicate DirUses(v: Snapshot, i: nat, b: Addr) {
    i < |v.thread| && (b in Own(v.thread[i]) || exists id: nat :: EntryUses(v, v.thread[i], id, b))
  }

  // What an open file uses besides what its directory says.
  predicate HandleUses(v: Snapshot, f: Handle, b: Addr) {
    && f.regular && !f.inlined
    && ((f.dirty && b in Blocks(v.dev, v.blockSize, f.list))
        || (f.writing && b in Blocks(v.dev, v.blockSize, List(f.block, f.pos))))
  }

  ghost predicate Used(v: Snapshot, b: Addr) {
    (exists i: nat :: DirUses(v, i, b)) || exists j: nat :: j < |v.files| && HandleUses(v, v.files[j], b)
  }

  // The tails thread the directories from the root on, and every struct and every open file names
  // a whole file.
  ghost predicate Sound(v: Snapshot) {
    && Accepted(v.blockSize) && Tailed(v.thread) && v.thread[0].pair == Pair(0, 1) && Sorts(v.thread)
    && (forall i: nat :: i < |v.thread| ==> WellFormed(v.thread[i].log))
    && (forall i: nat, id: nat :: i < |v.thread| && FileOf(StructAt(Replay(v.thread[i].log), id)).Some? ==>
          Whole(v, FileOf(StructAt(Replay(v.thread[i].log), id)).value))
    && (forall j: nat :: j < |v.files| && v.files[j].regular && !v.files[j].inlined ==>
          && (v.files[j].dirty ==> Whole(v, v.files[j].list))
          && (v.files[j].writing ==> Whole(v, List(v.files[j].block, v.files[j].pos))))
  }

  // ---- what is reported ---------------------------------------------------------------------------

  // The id of a move that is pending on a directory.
  function MovingFrom(v: Snapshot, d: Mdir): Option<nat> {
    if HasMoveHere(v.state, d.pair) then Some(Unpack(v.state.tag).id) else None
  }

  // Directory i is reported to use a block: every id is looked up, with the shift for a
  // pending move.
  ghost predicate DirReports(v: Snapshot, i: nat, b: Addr) {
    i < |v.thread| &&
    var d := v.thread[i];
    b in Own(d) || exists id: nat :: id < |Replay(d.log)| && EntryUses(v, d, CodeShift(MovingFrom(v, d), id), b)
  }

  ghost predicate Reported(v: Snapshot, b: Addr) {
    (exists i: nat :: DirReports(v, i, b)) || exists j: nat :: j < |v.files| && HandleUses(v, v.files[j], b)
  }

  // The traversal of one file.
  method VisitFile(store: Storage, ghost v: Snapshot, c: List) returns (blocks: seq<Addr>)
    requires store.Valid() && store.dev == v.dev && store.blockSize == v.blockSize && Whole(v, c)
    ensures forall b :: b in blocks <==> b in Blocks(v.dev, v.blockSize, c)
  {
    hide IsFile, Blocks;
    blocks := store.Traverse(c.head, c.size, Blocks(v.dev, v.blockSize, c));
    ReverseHas(Blocks(v.dev, v.blockSize, c));
  }

  lemma {:induction false} ReverseHas<T>(s: seq<T>)
    ensures forall b :: b in Reverse(s) <==> b in s
    decreases |s|
  {
    if s != [] {
      var init, x := s[..|s| - 1], s[|s| - 1];
      ReverseHas(init);
      assert s == init + [x];
    }
  }

  // A block of the directory itself, or of what the first n lookups find.
  ghost predicate InFirst(v: Snapshot, d: Mdir, moving: Option<nat>, n: nat, b: Addr) {
    b in Own(d) || exists k: nat :: k < n && EntryUses(v, d, CodeShift(moving, k), b)
  }

  // The directories, from the first pair on.
  method VisitDir(store: Storage, ghost v: Snapshot, ghost i: nat, d: Mdir, moving: Option<nat>)
    returns (blocks: seq<Addr>)
    requires store.Valid() && store.dev == v.dev && store.blockSize == v.blockSize && Sound(v)
    requires i < |v.thread| && d == v.thread[i] && moving == MovingFrom(v, d)
    ensures forall b :: b in blocks <==> DirReports(v, i, b)
    ensures Addr(d.pair.first) in blocks && Addr(d.pair.second) in blocks
  {
    hide Whole, Replay, WellFormed, FileOf, LookupEntry, Blocks, CodeShift, InFile;
    blocks := [Addr(d.pair.first), Addr(d.pair.second)];
    ghost var s := Replay(d.log);
    var count := |Replay(d.log)|;
    for id := 0 to count
      invariant forall b :: b in blocks <==> InFirst(v, d, moving, id, b)
    {
      var tag, buffer := Get(d.log, moving, ByType, TYPE_STRUCT, id, 8);
      Fetched(s, CodeShift(moving, id), id, tag, buffer);
      ghost var before := blocks;
      if tag.Some? && tag.value.type3 == TYPE_CTZSTRUCT {
        SoundFile(v, i, CodeShift(moving, id));
        var more := VisitFile(store, v, ListOf(buffer));
        blocks := blocks + more;
      }
      EntryIs(v, d, CodeShift(moving, id));
      OneMoreId(v, d, moving, id, before, blocks);
    }
  }

  // What a lookup of a struct comes to.
  lemma Fetched(s: seq<Entry>, at: nat, id: nat, tag: Option<RawTag>, buffer: seq<byte>)
    requires var w := LookupEntry(s, at, ByType, TYPE_STRUCT);
             && (w.None? <==> tag.None?)
             && (w.Some? ==> tag.value == RawTag.Tag(w.value.type3, id, w.value.size))
             && (w.Some? ==> buffer == Padded(w.value.data, 8))
    ensures tag.Some? && tag.value.type3 == TYPE_CTZSTRUCT ==>
              |buffer| == 8 && FileOf(StructAt(s, at)) == Some(ListOf(buffer))
    ensures !(tag.Some? && tag.value.type3 == TYPE_CTZSTRUCT) ==> FileOf(StructAt(s, at)) == None
  {
    hide LookupEntry, ListOf;
  }

  lemma SoundFile(v: Snapshot, i: nat, id: nat)
    requires Sound(v) && i < |v.thread| && FileOf(StructAt(Replay(v.thread[i].log), id)).Some?
    ensures Whole(v, FileOf(StructAt(Replay(v.thread[i].log), id)).value)
  {
    hide Whole, Replay, WellFormed, FileOf, StructAt;
  }

  lemma EntryIs(v: Snapshot, d: Mdir, id: nat)
    ensures var f := FileOf(StructAt(Replay(d.log), id));
            forall b :: EntryUses(v, d, id, b) <==> f.Some? && b in Blocks(v.dev, v.blockSize, f.value)
  {
    hide FileOf, StructAt, Replay, Blocks;
  }

  lemma OneMoreId(v: Snapshot, d: Mdir, moving: Option<nat>, id: nat, before: seq<Addr>, blocks: seq<Addr>)
    requires forall b :: b in before <==> InFirst(v, d, moving, id, b)
    requires forall b :: b in blocks <==> b in before || EntryUses(v, d, CodeShift(moving, id), b)
    ensures forall b :: b in blocks <==> InFirst(v, d, moving, id + 1, b)
  {
    hide EntryUses, CodeShift, Own;
    forall b
      ensures b in blocks <==> InFirst(v, d, moving, id + 1, b)
    {
      if b in blocks && b !in before {
        assert EntryUses(v, d, CodeShift(moving, id), b);
      }
    }
  }

  // The open files.
  method VisitHandle(store: Storage, ghost v: Snapshot, j: nat, f: Handle) returns (blocks: seq<Addr>)
    requires store.Valid() && store.dev == v.dev && store.blockSize == v.blockSize && Sound(v)
    requires j < |v.files| && f == v.files[j]
    ensures forall b :: b in blocks <==> HandleUses(v, f, b)
  {
    hide Whole, Replay, WellFormed, FileOf, StructAt, Blocks;
    blocks := [];
    if !f.regular {
      return;
    }
    if f.dirty && !f.inlined {
      blocks := VisitFile(store, v, f.list);
    }
    if f.writing && !f.inlined {
      var more := VisitFile(store, v, List(f.block, f.pos));
      blocks := blocks + more;
    }
  }

  // The fetch of the directory that a tail names.
  method Fetch(thread: seq<Mdir>, pair: Pair, ghost i: nat) returns (d: Mdir)
    requires i < |thread| && thread[i].pair == pair && Sorts(thread)
    ensures d == thread[i]
  {
    hide *;
    var k := 0;
    while k < |thread| && thread[k].pair != pair
      invariant k <= i
    {
      k := k + 1;
    }
    OnlyOne(thread, i, k);
    d := thread[k];
  }

  // All pairs differ.
  predicate Sorts(t: seq<Mdir>) {
    forall i, j :: 0 <= i < j < |t| ==> t[i].pair != t[j].pair
  }

  lemma OnlyOne(t: seq<Mdir>, i: nat, k: nat)
    requires Sorts(t) && i < |t| && k < |t| && t[k].pair == t[i].pair
    ensures k == i
  {
  }

  // Where the tails have led to after i directories.
  function TailAfter(t: seq<Mdir>, i: nat): Pair
    requires t != [] && i <= |t|
  {
    if i == 0 then Pair(0, 1) else TailPair(t[i - 1])
  }

  lemma TailLeads(v: Snapshot, i: nat)
    requires Sound(v) && v.thread != [] && i <= |v.thread|
    ensures Sorts(v.thread) && (IsNull(TailAfter(v.thread, i)) <==> i == |v.thread|)
    ensures i < |v.thread| ==> TailAfter(v.thread, i) == v.thread[i].pair
  {
    hide Whole, Replay, WellFormed, FileOf, StructAt, TailPair, IsNull;
    NoNullPair();
    TailedLeads(v.thread);
    if i > 0 {
      LeadsAt(v.thread, TailPair(v.thread[|v.thread| - 1]), i - 1);
    }
  }

  lemma NoNullPair()
    ensures !IsNull(Pair(0, 1))
  {
  }

  // lfs_fs_traverse; blocks stands for the calls of the callback. The tails lead from one
  // directory to the next.
  method Visit(store: Storage, v: Snapshot) returns (blocks: seq<Addr>)
    requires store.Valid() && store.dev == v.dev && store.blockSize == v.blockSize && Sound(v)
    ensures forall b :: b in blocks <==> Reported(v, b)
    // both blocks of every directory are among them
    ensures forall i :: 0 <= i < |v.thread| ==>
              Addr(v.thread[i].pair.first) in blocks && Addr(v.thread[i].pair.second) in blocks
  {
    hide *;
    blocks := [];
    var tail := Pair(0, 1);
    ghost var i := 0;
    NotEmpty(v);
    StartsAtRoot(v);
    NoneVisited(v);
    while !IsNull(tail)
      invariant i <= |v.thread| && v.thread != [] && tail == TailAfter(v.thread, i)
      invariant forall b :: b in blocks <==> exists k: nat :: k < i && DirReports(v, k, b)
      invariant forall k :: 0 <= k < i ==>
                  Addr(v.thread[k].pair.first) in blocks && Addr(v.thread[k].pair.second) in blocks
      decreases |v.thread| - i
    {
      TailLeads(v, i);
      var d := Fetch(v.thread, tail, i);
      var more := VisitDir(store, v, i, d, MovingFrom(v, d));
      blocks := blocks + more;
      tail := TailPair(d);
      i := i + 1;
      TailIs(v.thread, i);
    }
    TailLeads(v, i);
    assert forall b :: b in blocks <==> exists k: nat :: DirReports(v, k, b) by {
      DirsEnd(v);
    }
    for j := 0 to |v.files|
      invariant forall b :: b in blocks <==>
                  (exists i: nat :: DirReports(v, i, b)) || exists k: nat :: k < j && HandleUses(v, v.files[k], b)
      invariant forall k :: 0 <= k < |v.thread| ==>
                  Addr(v.thread[k].pair.first) in blocks && Addr(v.thread[k].pair.second) in blocks
    {
      var more := VisitHandle(store, v, j, v.files[j]);
      blocks := blocks + more;
    }
    ReportedMeans(v);
  }

  lemma NotEmpty(v: Snapshot)
    requires Sound(v)
    ensures v.thread != []
  {
    hide Whole, Replay, WellFormed, FileOf, StructAt, TailPair, IsNull, Leads;
  }

  lemma StartsAtRoot(v: Snapshot)
    requires v.thread != []
    ensures TailAfter(v.thread, 0) == Pair(0, 1)
  {
  }

  lemma NoneVisited(v: Snapshot)
    ensures forall b: Addr :: b !in []
  {
  }

  lemma TailIs(t: seq<Mdir>, i: nat)
    requires t != [] && 0 < i <= |t|
    ensures TailAfter(t, i) == TailPair(t[i - 1])
  {
    hide TailPair;
  }

  lemma ReportedMeans(v: Snapshot)
    ensures forall b :: Reported(v, b) <==>
              (exists i: nat :: DirReports(v, i, b)) || exists j: nat :: j < |v.files| && HandleUses(v, v.files[j], b)
  {
    hide DirReports, HandleUses;
  }

  // What an open file goes by. It is dirty when it has been flushed since its directory was
  // last told.
  ghost function HandleOf(f: Files.File, dirty: bool): Handle
    reads f
  {
    Handle(true, dirty, f.writing, false, List(f.head, f.size), f.block, f.pos)
  }

  // The blocks it was last flushed to are then reported, and those that are being written.
  lemma OpenFileVisited(v: Snapshot, j: nat, f: Files.File, dirty: bool)
    requires f.Valid() && v.dev == f.store.dev && v.blockSize == f.store.blockSize
    requires j < |v.files| && v.files[j] == HandleOf(f, dirty)
    ensures dirty ==> forall b :: b in f.chain ==> Reported(v, b)
    ensures f.writing ==> forall b :: b in f.work ==> Reported(v, b)
  {
    hide *;
    f.ValidParts();
    f.CoreParts();
    HandleIs(f, dirty);
    OneChain(v.dev, v.blockSize, f.chain, List(f.head, f.size));
    if f.writing {
      f.BusyParts();
      Files.WorkIsFile(f.store.dev, f.store.blockSize, f.work, f.block, f.off, f.pos);
      OneChain(v.dev, v.blockSize, f.work, List(f.block, f.pos));
    }
    forall b | (dirty && b in f.chain) || (f.writing && b in f.work)
      ensures Reported(v, b)
    {
      IsHandleUse(v, v.files[j], b);
      IsReported(v, j, b);
    }
  }

  lemma HandleIs(f: Files.File, dirty: bool)
    ensures HandleOf(f, dirty) == Handle(true, dirty, f.writing, false, List(f.head, f.size), f.block, f.pos)
  {
  }

  lemma IsHandleUse(v: Snapshot, h: Handle, b: Addr)
    requires h.regular && !h.inlined
    requires (h.dirty && b in Blocks(v.dev, v.blockSize, h.list))
             || (h.writing && b in Blocks(v.dev, v.blockSize, List(h.block, h.pos)))
    ensures HandleUses(v, h, b)
  {
    hide Blocks;
  }

  lemma IsReported(v: Snapshot, j: nat, b: Addr)
    requires j < |v.files| && HandleUses(v, v.files[j], b)
    ensures Reported(v, b)
  {
    hide HandleUses, DirReports;
  }

  lemma OwnReported(v: Snapshot, i: nat)
    requires i < |v.thread|
    ensures Reported(v, Addr(v.thread[i].pair.first)) && Reported(v, Addr(v.thread[i].pair.second))
  {
    hide EntryUses, Replay, MovingFrom, CodeShift;
    assert DirReports(v, i, Addr(v.thread[i].pair.first)) && DirReports(v, i, Addr(v.thread[i].pair.second));
  }

  lemma DirsEnd(v: Snapshot)
    ensures forall k: nat, b :: DirReports(v, k, b) ==> k < |v.thread|
  {
    hide EntryUses, Own, Replay, MovingFrom, CodeShift;
  }

  // ---- what is missed while a move is pending -------------------------------------------------------

  // The shift for a pending move reaches every entry but the first.
  lemma ShiftReaches(n: nat, m: nat, e: nat)
    ensures (exists id: nat :: id < n && CodeShift(Some(m), id) == e) ==> 1 <= e <= n
    ensures 1 <= e < n ==> exists id: nat :: id < n && CodeShift(Some(m), id) == e
  {
    if 1 <= e < n {
      assert CodeShift(Some(m), if e - 1 <= m then e - 1 else e) == e;
    }
  }

  lemma BeyondUsesNothing(v: Snapshot, d: Mdir, id: nat, b: Addr)
    requires EntryUses(v, d, id, b)
    ensures id < |Replay(d.log)|
  {
    hide Replay, Blocks, LatestMatch, ListOf;
  }

  lemma DirSays(v: Snapshot, i: nat, b: Addr)
    requires i < |v.thread|
    ensures var d := v.thread[i];
            DirReports(v, i, b)
            <==> b in Own(d) || exists id: nat :: (id >= 1 || !HasMoveHere(v.state, d.pair)) && EntryUses(v, d, id, b)
  {
    hide Replay, EntryUses, HasMoveHere, Unpack, Own;
    var d := v.thread[i];
    var n, moving := |Replay(d.log)|, MovingFrom(v, d);
    if DirReports(v, i, b) && b !in Own(d) {
      var id: nat :| id < n && EntryUses(v, d, CodeShift(moving, id), b);
      if moving.Some? {
        ShiftReaches(n, moving.value, CodeShift(moving, id));
      }
    }
    forall id: nat | (id >= 1 || !HasMoveHere(v.state, d.pair)) && EntryUses(v, d, id, b)
      ensures DirReports(v, i, b)
    {
      BeyondUsesNothing(v, d, id, b);
      if moving.Some? {
        ShiftReaches(n, moving.value, id);
        var j: nat :| j < n && CodeShift(moving, j) == id;
        assert EntryUses(v, d, CodeShift(moving, j), b);
      } else {
        assert EntryUses(v, d, CodeShift(moving, id), b);
      }
    }
  }

  // A block of the first file of a directory that a move is pending on.
  ghost predicate Skipped(v: Snapshot, i: nat, b: Addr) {
    i < |v.thread| && HasMoveHere(v.state, v.thread[i].pair) && EntryUses(v, v.thread[i], 0, b)
  }

  lemma DirMisses(v: Snapshot, i: nat, b: Addr)
    ensures DirReports(v, i, b) ==> DirUses(v, i, b)
    ensures DirUses(v, i, b) ==> DirReports(v, i, b) || Skipped(v, i, b)
    ensures Skipped(v, i, b) ==> DirUses(v, i, b)
  {
    hide EntryUses, HasMoveHere, Own, DirReports;
    if i < |v.thread| {
      DirSays(v, i, b);
    } else {
      NotReported(v, i, b);
    }
  }

  lemma NotReported(v: Snapshot, i: nat, b: Addr)
    requires i >= |v.thread|
    ensures !DirReports(v, i, b)
  {
  }

  // A block that is used by something else than that: by a directory for itself, by another
  // entry, by the first entry of a directory that no move is pending on, or by an open file.
  ghost predicate UsedElsewhere(v: Snapshot, b: Addr) {
    || (exists i: nat :: i < |v.thread| && DirUsesElsewhere(v, i, b))
    || exists j: nat :: j < |v.files| && HandleUses(v, v.files[j], b)
  }

  ghost predicate DirUsesElsewhere(v: Snapshot, i: nat, b: Addr)
    requires i < |v.thread|
  {
    var d := v.thread[i];
    b in Own(d) || exists id: nat :: (id >= 1 || !HasMoveHere(v.state, d.pair)) && EntryUses(v, d, id, b)
  }

  lemma ReportedIs(v: Snapshot, b: Addr)
    ensures Reported(v, b) <==> UsedElsewhere(v, b)
  {
    hide DirReports, HandleUses, EntryUses, HasMoveHere, Own;
    forall i: nat
      ensures DirReports(v, i, b) <==> i < |v.thread| && DirUsesElsewhere(v, i, b)
    {
      if i < |v.thread| {
        DirSays(v, i, b);
      } else {
        NotReported(v, i, b);
      }
    }
  }

  // The traversal reports exactly what is used if and only if every block of the first file of
  // a directory with a pending move is used by something else as well.
  lemma ReportedExactly(v: Snapshot)
    ensures (forall b :: Reported(v, b) <==> Used(v, b))
            <==> forall i: nat, b :: Skipped(v, i, b) ==> UsedElsewhere(v, b)
  {
    hide DirReports, DirUses, Skipped, HandleUses, DirUsesElsewhere, UsedElsewhere;
    forall i: nat, b
      ensures DirReports(v, i, b) ==> DirUses(v, i, b)
      ensures DirUses(v, i, b) ==> DirReports(v, i, b) || Skipped(v, i, b)
      ensures Skipped(v, i, b) ==> DirUses(v, i, b)
      ensures UsedElsewhere(v, b) <==> Reported(v, b)
    {
      DirMisses(v, i, b);
      ReportedIs(v, b);
    }
  }

  lemma NothingMissed(v: Snapshot)
    requires !HasMove(v.state)
    ensures forall b :: Reported(v, b) <==> Used(v, b)
  {
    hide Reported, Used, EntryUses, HasMove, UsedElsewhere;
    ReportedExactly(v);
  }

  // ---- an example ---------------------------------------------------------------------------------

  const FILE_BLOCK := Addr(2)

  // One directory with two files, the first of one byte in block 2, the second on the move.
  function Example(): Snapshot {
    var struct := Item(RawTag.Tag(TYPE_CTZSTRUCT, 0, 8), ToLe(2) + ToLe(1));
    var log := [CreateAt(0), FileNamed(0, 97), struct, CreateAt(1), FileNamed(1, 98)];
    Snapshot(map[FILE_BLOCK := seq(512, _ => 0)], 512, [Mdir(Pair(0, 1), log)], [], MoveOf(1, Pair(0, 1)))
  }

  lemma ExampleReplays()
    ensures var e := Example().thread[0].log;
            && WellFormed(e) && |Replay(e)| == 2
            && FileOf(StructAt(Replay(e), 0)) == Some(List(FILE_BLOCK, 1)) && FileOf(StructAt(Replay(e), 1)) == None
  {
    hide Replay, WellFormed, FromLe, ToLe;
    var struct: Item := Item(RawTag.Tag(TYPE_CTZSTRUCT, 0, 8), ToLe(2) + ToLe(1));
    var u: Entry := [Write(TYPE_REG, 1, [97])];
    var w: Entry := [Write(TYPE_REG, 1, [97]), WriteOf(struct)];
    var x: Entry := [Write(TYPE_REG, 1, [98])];
    NothingYet();
    Next([], CreateAt(0), [], [[]]);
    Named([[]], 0, 97);
    Next([] + [CreateAt(0)], FileNamed(0, 97), [[]], [u]);
    assert u + [WriteOf(struct)] == w;
    Next([] + [CreateAt(0)] + [FileNamed(0, 97)], struct, [u], [w]);
    Next([] + [CreateAt(0)] + [FileNamed(0, 97)] + [struct], CreateAt(1), [w], [w, []]);
    Named([w, []], 1, 98);
    Next([] + [CreateAt(0)] + [FileNamed(0, 97)] + [struct] + [CreateAt(1)], FileNamed(1, 98), [w, []], [w, x]);
    assert Example().thread[0].log
        == [] + [CreateAt(0)] + [FileNamed(0, 97)] + [struct] + [CreateAt(1)] + [FileNamed(1, 98)];
    StructsOf(w, x, struct);
  }

  lemma StructsOf(w: Entry, x: Entry, struct: Item)
    requires struct.tag.type3 == TYPE_CTZSTRUCT && struct.tag.size == 8 && struct.data == ToLe(2) + ToLe(1)
    requires w == [Write(TYPE_REG, 1, [97]), WriteOf(struct)] && x == [Write(TYPE_REG, 1, [98])]
    ensures FileOf(StructAt([w, x], 0)) == Some(List(FILE_BLOCK, 1)) && FileOf(StructAt([w, x], 1)) == None
  {
    hide FromLe, ToLe;
    FromLeToLe(2);
    FromLeToLe(1);
    assert Padded(struct.data, 8) == struct.data;
    assert struct.data[..4] == ToLe(2) && struct.data[4..] == ToLe(1);
    assert x[..|x| - 1] == [] && LatestMatch([], ByType, TYPE_STRUCT) == None;
    assert LatestMatch(x, ByType, TYPE_STRUCT) == None;
  }

  // The block of the first file is in use, but the traversal does not report it, so the
  // next refill of the allocator takes it for free.
  lemma FirstFileMissed()
    ensures Sound(Example()) && Used(Example(), FILE_BLOCK) && !Reported(Example(), FILE_BLOCK)
  {
    hide *;
    var v := Example();
    ExampleIs();
    ExampleReplays();
    ExampleFile(v.dev);
    BigBlocksAreAccepted(512);
    ExampleSound();
    OneFile(v);
    DirSays(v, 0, FILE_BLOCK);
    OneDirectory(v);
  }

  lemma ExampleIs()
    ensures var v := Example();
            && v.dev == map[FILE_BLOCK := seq(512, _ => 0)] && v.blockSize == 512 && v.files == []
            && |v.thread| == 1 && v.thread[0].pair == Pair(0, 1) && HasMoveHere(v.state, Pair(0, 1))
            && FILE_BLOCK !in Own(v.thread[0])
  {
    hide Pack, MoveBits;
    MoveItemOf(1, Pair(0, 1));
  }

  lemma ExampleSound()
    requires var v := Example();
             Accepted(512) && v.blockSize == 512 && v.files == [] && |v.thread| == 1 && WellFormed(v.thread[0].log)
    requires var dev := Example().dev;
             Blocks(dev, 512, List(FILE_BLOCK, 1)) == [FILE_BLOCK] && IsFile(dev, 512, [FILE_BLOCK], FILE_BLOCK, 1)
    requires var s := Replay(Example().thread[0].log);
             |s| == 2 && FileOf(StructAt(s, 0)) == Some(List(FILE_BLOCK, 1)) && FileOf(StructAt(s, 1)) == None
    ensures Sound(Example())
  {
    var v := Example();
    ExampleTailed();
    hide Example, Replay, WellFormed, Accepted, Blocks, IsFile, FileOf, StructAt, Tailed;
    var s := Replay(v.thread[0].log);
    forall i: nat, id: nat | i < |v.thread| && FileOf(StructAt(Replay(v.thread[i].log), id)).Some?
      ensures Whole(v, FileOf(StructAt(Replay(v.thread[i].log), id)).value)
    {
      if id != 0 {
        NoStructBeyond(s, id);
      }
    }
  }

  lemma ExampleTailed()
    ensures Tailed(Example().thread) && Example().thread[0].pair == Pair(0, 1)
  {
    hide Replay, TailFound;
    WithoutTail(Example().thread[0]);
    assert Example().thread == [Example().thread[0]];
  }

  // The first file is the only one.
  lemma OneFile(v: Snapshot)
    requires |v.thread| == 1 && v.blockSize == 512 && Blocks(v.dev, 512, List(FILE_BLOCK, 1)) == [FILE_BLOCK]
    requires var s := Replay(v.thread[0].log);
             |s| == 2 && FileOf(StructAt(s, 0)) == Some(List(FILE_BLOCK, 1)) && FileOf(StructAt(s, 1)) == None
    ensures DirUses(v, 0, FILE_BLOCK)
    ensures forall id: nat :: id >= 1 ==> !EntryUses(v, v.thread[0], id, FILE_BLOCK)
  {
    hide Replay, Blocks, FileOf, StructAt;
    var s := Replay(v.thread[0].log);
    assert EntryUses(v, v.thread[0], 0, FILE_BLOCK);
    forall id: nat | id >= 1
      ensures !EntryUses(v, v.thread[0], id, FILE_BLOCK)
    {
      NoStructBeyond(s, id);
    }
  }

  lemma OneDirectory(v: Snapshot)
    requires |v.thread| == 1 && v.files == [] && !DirReports(v, 0, FILE_BLOCK) && DirUses(v, 0, FILE_BLOCK)
    ensures Used(v, FILE_BLOCK) && !Reported(v, FILE_BLOCK)
  {
    hide DirReports, DirUses;
    forall i: nat
      ensures !DirReports(v, i, FILE_BLOCK)
    {
      if i != 0 {
        NotReported(v, i, FILE_BLOCK);
      }
    }
  }

  lemma NoStructBeyond(s: seq<Entry>, id: nat)
    requires |s| == 2 && id != 0 && FileOf(StructAt(s, 1)) == None
    ensures FileOf(StructAt(s, id)) == None
  {
    hide ListOf, LatestMatch;
  }

  lemma ExampleFile(dev: Device)
    requires dev == map[FILE_BLOCK := seq(512, _ => 0)]
    ensures Blocks(dev, 512, List(FILE_BLOCK, 1)) == [FILE_BLOCK] && IsFile(dev, 512, [FILE_BLOCK], FILE_BLOCK, 1)
  {
    assert Index(512, 0) == (0, 0);
    assert Linked(dev, 512, [FILE_BLOCK]) by {
      assert BlockOk(dev, 512, [FILE_BLOCK], 0);
    }
  }
}
