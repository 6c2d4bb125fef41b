// lfs_mkdir, lfs_remove and lfs_fs_deorphan on the logs of the directories: what their
// commits do to the thread and to the global state.
module Directories {
  import opened Wrappers
  import opened Tags
  import opened Log
  import opened Gstate
  import opened FileSystem
  import opened Orphans
  import Lookup
  import Split
  import Words

  // ---- from logs to threads -------------------------------------------------------------------

  // The directory that an entry refers to.
  function RefOf(e: Entry): Option<Pair> {
    match Latest(e, TYPE_STRUCT)
    case Some(w) => if w.type3 == TYPE_DIRSTRUCT then Some(PairOf(Lookup.Padded(w.data, 8))) else None
    case None => None
  }

  function Refs(s: seq<Entry>): set<Pair> {
    set i | 0 <= i < |s| && RefOf(s[i]).Some? :: RefOf(s[i]).value
  }

  function NodeOf(d: Mdir): Node {
    Node(d.pair, TailFound(d.log).split, Refs(Replay(d.log)))
  }

  function Nodes(t: seq<Mdir>): (r: Thread)
    ensures |r| == |t| && forall i :: 0 <= i < |t| ==> r[i] == NodeOf(t[i])
  {
    seq(|t|, i requires 0 <= i < |t| => NodeOf(t[i]))
  }

  // The bit of the global state that says there may be orphans.
  predicate Flag(t: seq<Mdir>) {
    TopBit(Total(Dirs(t)).tag) != 0
  }

  function DiskOf(t: seq<Mdir>): Disk {
    Disk(Nodes(t), Flag(t))
  }

  // ---- the attributes ----------------------------------------------------------------------------

  function SoftTail(s: Pair): Item {
    Split.TailItem(Split.Tail(s, false))
  }

  function DirStruct(id: nat, p: Pair): Item {
    Item(RawTag.Tag(TYPE_DIRSTRUCT, id, 8), PairBytes(p))
  }

  // What is committed to the parent of a new directory.
  function Entering(id: nat, name: Item, p: Pair, last: bool): seq<Item> {
    [CreateAt(id), name.At(id), DirStruct(id, p)] + if last then [SoftTail(p)] else []
  }

  // ---- what commits do to a node ----------------------------------------------------------------

  lemma NodeAfter(d: Mdir, attrs: seq<Item>, m: Memory)
    requires !HasMoveHere(m.pending, d.pair)
    ensures NodeOf(Mdir(d.pair, d.log + Written(d, attrs, m)))
         == Node(d.pair, TailFound(d.log + attrs).split, Refs(Replay(d.log + attrs)))
    ensures Settled(d.log + attrs) ==> Settled(d.log + Written(d, attrs, m))
  {
    hide *;
    CommitReplays(d, attrs, m);
    WithMoveIs(d, attrs, m);
    assert attrs + [] == attrs;
    NodeIs(Mdir(d.pair, d.log + Written(d, attrs, m)));
    TailFoundIs(d.log + Written(d, attrs, m));
    TailFoundIs(d.log + attrs);
  }

  lemma NoMoveHere(g: G, pair: Pair)
    requires !HasMove(g)
    ensures !HasMoveHere(g, pair)
  {
    hide HasMove;
  }

  lemma NodeIs(d: Mdir)
    ensures NodeOf(d) == Node(d.pair, TailFound(d.log).split, Refs(Replay(d.log)))
  {
    hide TailFound, Refs, Replay;
  }

  // A soft tail changes nothing but the tail.
  lemma TailAfter(log: seq<Item>, tail: Split.Tail)
    ensures Replay(log + [Split.TailItem(tail)]) == Replay(log) && TailFound(log + [Split.TailItem(tail)]) == tail
    ensures Settled(log) ==> Settled(log + [Split.TailItem(tail)])
  {
    hide Replay, WellFormed, AllNamed, Split.TailOf, Split.SizeOf;
    Split.Unaffected(log, Split.TailItem(tail));
  }

  // Entering a directory adds one reference; without a tail the tail stays.
  lemma EnteringAfter(log: seq<Item>, id: nat, name: Item, p: Pair, last: bool)
    requires Settled(log) && id <= |Replay(log)| < NO_ID && name.IsName() && !name.tag.IsDelete()
    ensures Refs(Replay(log + Entering(id, name, p, last))) == Refs(Replay(log)) + {p}
    ensures TailFound(log + Entering(id, name, p, last))
            == if last then Split.Tail(p, false) else TailFound(log)
    ensures Settled(log + Entering(id, name, p, last))
  {
    hide *;
    var three := [CreateAt(id), name.At(id), DirStruct(id, p)];
    var e := [WriteOf(name), WriteOf(DirStruct(id, p))];
    StructOf(id, p);
    EntryEnters(log, id, name, DirStruct(id, p));
    NewRef(name, id, p);
    RefsInsert(Replay(log), id, e);
    EnteringIs(id, name, p, last);
    if last {
      TailAfter(log + three, Split.Tail(p, false));
      assert log + (three + [SoftTail(p)]) == log + three + [SoftTail(p)];
    } else {
      assert three + [] == three;
    }
  }

  lemma EnteringIs(id: nat, name: Item, p: Pair, last: bool)
    ensures Entering(id, name, p, last)
         == [CreateAt(id), name.At(id), DirStruct(id, p)] + if last then [SoftTail(p)] else []
    ensures SoftTail(p) == Split.TailItem(Split.Tail(p, false))
    ensures name.IsName() ==> NoState(Entering(id, name, p, last))
  {
    hide PairBytes;
  }

  lemma StructOf(id: nat, p: Pair)
    ensures DirStruct(id, p).tag.id == id && IsStruct(DirStruct(id, p))
  {
  }

  lemma NewRef(name: Item, id: nat, p: Pair)
    requires name.IsName()
    ensures RefOf([WriteOf(name), WriteOf(DirStruct(id, p))]) == Some(p)
  {
    hide PairOf, PairBytes;
    PairRoundTrip(p);
    var e := [WriteOf(name), WriteOf(DirStruct(id, p))];
    assert Latest(e, TYPE_STRUCT) == Some(WriteOf(DirStruct(id, p)));
  }

  lemma RefsInsert(s: seq<Entry>, i: nat, e: Entry)
    requires i <= |s|
    ensures Refs(Insert(s, i, e)) == Refs(s) + if RefOf(e).Some? then {RefOf(e).value} else {}
  {
    hide RefOf;
    var u := Insert(s, i, e);
    assert u[i] == e;
    forall p | p in Refs(s)
      ensures p in Refs(u)
    {
      var j :| 0 <= j < |s| && RefOf(s[j]).Some? && RefOf(s[j]).value == p;
      assert u[if j < i then j else j + 1] == s[j];
    }
    forall p | p in Refs(u)
      ensures p in Refs(s) || (RefOf(e).Some? && p == RefOf(e).value)
    {
      var j :| 0 <= j < |u| && RefOf(u[j]).Some? && RefOf(u[j]).value == p;
      if j != i {
        assert u[j] == s[if j < i then j else j - 1];
      }
    }
  }

  // Entry i is the only one that refers to p.
  ghost predicate OnlyRef(s: seq<Entry>, i: nat, p: Pair) {
    i < |s| && RefOf(s[i]) == Some(p) && forall j :: 0 <= j < |s| && j != i ==> RefOf(s[j]) != Some(p)
  }

  lemma RefsRemove(s: seq<Entry>, i: nat, p: Pair)
    requires OnlyRef(s, i, p)
    ensures Refs(Remove(s, i)) == Refs(s) - {p}
  {
    hide RefOf;
    var u := Remove(s, i);
    forall q | q in Refs(s) && q != p
      ensures q in Refs(u)
    {
      var j :| 0 <= j < |s| && RefOf(s[j]).Some? && RefOf(s[j]).value == q;
      assert u[if j < i then j else j - 1] == s[j];
    }
    forall q | q in Refs(u)
      ensures q in Refs(s) && q != p
    {
      var j :| 0 <= j < |u| && RefOf(u[j]).Some? && RefOf(u[j]).value == q;
      assert u[j] == s[if j < i then j else j + 1];
    }
  }

  lemma NodesUpdate(t: seq<Mdir>, k: nat, d: Mdir)
    requires k < |t|
    ensures Nodes(t[k := d]) == Nodes(t)[k := NodeOf(d)]
  {
    hide NodeOf;
  }

  lemma NodesInsert(t: seq<Mdir>, k: nat, d: Mdir)
    requires k < |t|
    ensures Nodes(t[..k + 1] + [d] + t[k + 1..]) == Nodes(t)[..k + 1] + [NodeOf(d)] + Nodes(t)[k + 1..]
  {
    hide NodeOf;
  }

  lemma NodesRemove(t: seq<Mdir>, k: nat)
    requires k < |t|
    ensures Nodes(t[..k] + t[k + 1..]) == Nodes(t)[..k] + Nodes(t)[k + 1..]
  {
    hide NodeOf;
  }

  // lfs_dir_drop is what dropping a node is.
  lemma DroppedNodes(t: seq<Mdir>, p: nat, m: Memory)
    requires p + 1 < |t| && !HasMoveHere(m.pending, t[p].pair)
    ensures Nodes(Dropped(t, p, m)) == Drop(Nodes(t), p + 1)
  {
    hide *;
    var tail := TailFound(t[p + 1].log);
    var n := Inherited(t, p, m);
    InheritedIs(t, p, m);
    DroppedIs(t, p, m);
    var attrs := [Split.TailItem(tail)];
    CommittedIs(t, p, attrs, n);
    NodeAfter(t[p], attrs, n);
    TailAfter(t[p].log, tail);
    var d := Mdir(t[p].pair, t[p].log + Written(t[p], attrs, n));
    NodesUpdate(t, p, d);
    NodesRemove(Committed(t, p, attrs, n), p + 1);
    NodeIs(t[p]);
    NodeIs(t[p + 1]);
    DropIs(Nodes(t), p);
  }

  lemma DropIs(t: Thread, p: nat)
    requires p + 1 < |t|
    ensures var u := t[p := t[p].(split := t[p + 1].split)];
            Drop(t, p + 1) == u[..p + 1] + u[p + 2..]
  {
    var u := t[p := t[p].(split := t[p + 1].split)];
    assert u[..p + 1] == t[..p] + [u[p]] && u[p + 2..] == t[p + 2..];
  }

  // ---- flags -------------------------------------------------------------------------------------

  // Adding one orphan to none, and taking it away again.
  const ONE: bv32 := 1
  const MINUS_ONE: bv32 := 0xffff_ffff

  lemma OneMore(tag: bv32)
    requires Count(tag) == 0
    ensures Stored(Words.Plus(tag, ONE)) == Stored(tag) && Count(Words.Plus(tag, ONE)) == 1
  {
    FirstOrphan(tag);
    hide Stored, Count, Words.Plus;
  }

  lemma OneLess(tag: bv32)
    requires Count(tag) == 1
    ensures Stored(Words.Plus(tag, MINUS_ONE)) == Stored(tag) && Count(Words.Plus(tag, MINUS_ONE)) == 0
  {
    RawOneLess(tag);
  }

  lemma RawOneLess(tag: bv32)
    requires tag & 0x3ff == 1
    ensures (tag + 0xffff_ffff) & 0xffff_fc00 == tag & 0xffff_fc00 && (tag + 0xffff_ffff) & 0x3ff == 0
  {
  }

  // Taking away as many as there are, or fewer, keeps what is stored; taking more does not.
  lemma SomeLess(tag: bv32, other: bv32)
    ensures var less := Words.Plus(tag, Words.Minus(0, Count(other)));
            && (Stored(less) == Stored(tag) <==> Words.AtMost(Count(other), Count(tag)))
            && (Words.AtMost(Count(other), Count(tag)) ==> Count(less) == Words.Minus(Count(tag), Count(other)))
  {
    hide Words.Plus, Words.Minus, Words.AtMost, Words.And;
    var count := Count(other);
    if Words.AtMost(count, Count(tag)) {
      Words.LessCounted(tag, count);
    } else {
      Words.MoreCounted(tag, other);
    }
  }

  // The flag on the device is the bit in memory once there is nothing left to write.
  lemma FlagIs(t: seq<Mdir>, m: Memory)
    requires Off(t, m) == ZERO && m.delta == ZERO
    ensures Flag(t) <==> TopBit(m.pending.tag) != 0
  {
    hide *;
    StoredState(t, m);
    FlagSays(t);
  }

  lemma FlagSays(t: seq<Mdir>)
    ensures Flag(t) <==> TopBit(Total(Dirs(t)).tag) != 0
  {
    hide Total, Dirs;
  }

  // ---- mkdir ---------------------------------------------------------------------------------------

  // A new directory of the given name: c is the pair of the parent in which the search for
  // the name has ended, id the id at which it is created, pair the blocks that have been
  // allocated for it.
  datatype Making = Making(c: nat, id: nat, name: seq<byte>, pair: Pair) {
    function Name(): Item {
      Item(RawTag.Tag(TYPE_DIR, 0, |name|), name)
    }
  }

  lemma IsDirName(k: Making)
    requires |k.name| < DELETED_SIZE
    ensures k.Name().IsName() && !k.Name().tag.IsDelete() && DELETED_SIZE == 0x3ff
    ensures k.Name() == Item(RawTag.Tag(0x002, 0, |k.name|), k.name)
  {
  }

  ghost predicate MakeReady(t: seq<Mdir>, m: Memory, k: Making) {
    && Clean(t, m) && Off(t, m) == ZERO && !HasMove(m.pending) && Count(m.pending.tag) == 0
    && Consistent(Nodes(t)) && New(Nodes(t), k.pair) && k.c < |t|
    && Settled(t[k.c].log) && k.id <= |Replay(t[k.c].log)| < NO_ID
    && |k.name| < DELETED_SIZE
  }

  function Joined(t: seq<Mdir>, p: nat, d: Mdir): seq<Mdir>
    requires p < |t|
  {
    t[..p + 1] + [d] + t[p + 1..]
  }

  // The new directory goes on where the thread went on; it is the first to be written, and
  // takes whatever delta there is with it.
  function NewDir(m: Memory, tail: Split.Tail, pair: Pair): Mdir {
    Mdir(pair, Written(Mdir(pair, []), [SoftTail(tail.pair)], m))
  }

  function Counted(m: Memory): Memory {
    OrphansPrepared(Memory(m.pending, ZERO), ONE)
  }

  // The device before lfs_mkdir, between its commits, and after them. When the parent is
  // split over several pairs the new directory is threaded first, at the end of the chain,
  // and counted as an orphan; otherwise one commit does both.
  function MakeStates(t: seq<Mdir>, m: Memory, k: Making, n: nat): seq<Mdir>
    requires Proper(Nodes(t)) && k.c < |t|
  {
    var p := ChainEnd(Nodes(t), k.c);
    var d := NewDir(m, TailFound(t[p].log), k.pair);
    if n == 0 then t
    else if !Nodes(t)[k.c].split then
      Joined(Committed(t, k.c, Entering(k.id, k.Name(), k.pair, true), Memory(m.pending, ZERO)), k.c, d)
    else
      var u := Joined(Committed(t, p, [SoftTail(k.pair)], Counted(m)), p, d);
      if n == 1 then u
      else Committed(u, k.c, Entering(k.id, k.Name(), k.pair, false),
        OrphansPrepared(After(Counted(m), t[p].pair), MINUS_ONE))
  }

  lemma MakeParts(t: seq<Mdir>, m: Memory, k: Making)
    requires MakeReady(t, m, k)
    ensures Clean(t, m) && Off(t, m) == ZERO && !HasMove(m.pending) && Count(m.pending.tag) == 0
    ensures Consistent(Nodes(t)) && Proper(Nodes(t)) && New(Nodes(t), k.pair) && k.c < |t|
    ensures Settled(t[k.c].log) && k.id <= |Replay(t[k.c].log)| < NO_ID
    ensures k.Name().IsName() && !k.Name().tag.IsDelete()
  {
    hide Clean, Off, HasMove, Count, Proper, Threaded, Referenced, New, WellFormed, AllNamed, Replay;
  }

  lemma NoMoveAfter(m: Memory, pair: Pair)
    requires !HasMove(m.pending)
    ensures After(m, pair) == Memory(m.pending, ZERO) && Unmoved(m, pair) == m.delta
    ensures !HasMoveHere(m.pending, pair)
  {
    hide HasMove;
  }

  // The delta is out of memory, but not yet in the thread.
  lemma TakenOut(t: seq<Mdir>, m: Memory)
    ensures Off(t, Memory(m.pending, ZERO)) == Xor(Off(t, m), m.delta)
    ensures Clean(t, m) ==> Clean(t, Memory(m.pending, ZERO))
  {
    hide *;
    var n := Memory(m.pending, ZERO);
    OffIs(t, m);
    OffIs(t, n);
    XorSelf(m.delta);
    GapDelta(Dirs(t), m.pending, ZERO, m.delta);
    Twice(Off(t, n), m.delta);
    if Clean(t, m) {
      CleanParts(t, m);
      NothingCountedIn();
      IsClean(t, n);
    }
  }

  lemma NewDirIs(m: Memory, tail: Split.Tail, pair: Pair)
    requires !HasMove(m.pending)
    ensures DeltaOf(NewDir(m, tail, pair).log) == m.delta && NodeOf(NewDir(m, tail, pair)) == Node(pair, false, {})
  {
    hide *;
    var d, attrs := Mdir(pair, []), [SoftTail(tail.pair)];
    SoftTailIs(tail.pair);
    FileSystem.IsProper(m.pending);
    WrittenDelta(d, attrs, m);
    NoMoveAfter(m, pair);
    NothingAtAll();
    XorSelf(m.delta);
    NodeAfter(d, attrs, m);
    TailAfter([], Split.Tail(tail.pair, false));
    NewDirLog(m, tail, pair);
  }

  lemma SoftTailIs(s: Pair)
    ensures SoftTail(s) == Split.TailItem(Split.Tail(s, false)) && NoState([SoftTail(s)])
  {
  }

  lemma NothingAtAll()
    ensures DeltaOf([]) == ZERO && Replay([]) == [] && Refs([]) == {}
  {
  }

  lemma NewDirLog(m: Memory, tail: Split.Tail, pair: Pair)
    ensures NewDir(m, tail, pair) == Mdir(pair, [] + Written(Mdir(pair, []), [SoftTail(tail.pair)], m))
  {
    hide Written;
    assert [] + Written(Mdir(pair, []), [SoftTail(tail.pair)], m) == Written(Mdir(pair, []), [SoftTail(tail.pair)], m);
  }

  // A commit to pair p that also threads the new directory.
  lemma JoinedState(t: seq<Mdir>, m: Memory, n: Memory, p: nat, attrs: seq<Item>, tail: Split.Tail, pair: Pair)
    requires p < |t| && NoState(attrs) && Clean(t, m) && Off(t, m) == ZERO && !HasMove(m.pending)
    requires Clean(t, n) && Off(t, n) == Off(t, Memory(m.pending, ZERO)) && !HasMove(n.pending)
    ensures var u := Joined(Committed(t, p, attrs, n), p, NewDir(m, tail, pair));
            Off(u, Memory(n.pending, ZERO)) == ZERO && Clean(u, Memory(n.pending, ZERO))
  {
    hide *;
    var v, d := Committed(t, p, attrs, n), NewDir(m, tail, pair);
    TakenOut(t, m);
    CleanParts(t, m);
    CleanParts(t, n);
    CommitConserves(t, p, attrs, n);
    CommitStaysClean(t, p, attrs, n);
    NoMoveAfter(n, t[p].pair);
    NewDirIs(m, tail, pair);
    InsertedOff(v, p, d, Memory(n.pending, ZERO));
    Twice(ZERO, m.delta);
    JoinedIs(v, p, d);
  }

  lemma JoinedIs(t: seq<Mdir>, p: nat, d: Mdir)
    requires p < |t|
    ensures Joined(t, p, d) == t[..p + 1] + [d] + t[p + 1..]
  {
  }

  lemma CountedIs(t: seq<Mdir>, m: Memory)
    requires Clean(t, m) && !HasMove(m.pending) && Count(m.pending.tag) == 0
    ensures Clean(t, Counted(m)) && Off(t, Counted(m)) == Off(t, Memory(m.pending, ZERO))
            && !HasMove(Counted(m).pending)
    ensures Count(Counted(m).pending.tag) == 1 && TopBit(Counted(m).pending.tag) != 0
  {
    hide *;
    var n := Memory(m.pending, ZERO);
    TakenOut(t, m);
    OneMore(m.pending.tag);
    OrphansPreparedKeeps(t, n, ONE);
    CountedMemory(m);
    SameMoveItem(Counted(m).pending, m.pending);
    HasOrphansIs(Counted(m).pending);
    TopBitNotZero();
  }

  lemma CountedMemory(m: Memory)
    ensures Counted(m) == OrphansPrepared(Memory(m.pending, ZERO), ONE)
  {
    hide OrphansPrepared;
  }

  lemma TopBitNotZero()
    ensures (0x8000_0000 as bv32) != 0
  {
  }

  // Taking the orphan back.
  lemma UncountedIs(t: seq<Mdir>, m: Memory)
    requires Clean(t, m) && !HasMove(m.pending) && Count(m.pending.tag) == 1
    ensures var n := OrphansPrepared(m, MINUS_ONE);
            && Clean(t, n) && Off(t, n) == Off(t, m) && !HasMove(n.pending)
            && Count(n.pending.tag) == 0 && TopBit(n.pending.tag) == 0
  {
    hide *;
    var n := OrphansPrepared(m, MINUS_ONE);
    OneLess(m.pending.tag);
    OrphansPreparedKeeps(t, m, MINUS_ONE);
    SameMoveItem(n.pending, m.pending);
    HasOrphansIs(n.pending);
  }

  // The parent is in one pair: one commit threads and enters the directory.
  lemma MadeAtOnce(t: seq<Mdir>, m: Memory, k: Making)
    requires MakeReady(t, m, k) && !Nodes(t)[k.c].split
    ensures Proper(Nodes(t)) && ChainEnd(Nodes(t), k.c) == k.c
    ensures var u := MakeStates(t, m, k, 1);
            && Nodes(u) == Refer(Link(Nodes(t), k.c, k.pair), k.c, k.pair)
            && Off(u, Memory(m.pending, ZERO)) == ZERO && Clean(u, Memory(m.pending, ZERO))
  {
    hide *;
    MakeParts(t, m, k);
    ChainEndIs(Nodes(t), k.c);
    var n, attrs, tail := Memory(m.pending, ZERO), Entering(k.id, k.Name(), k.pair, true), TailFound(t[k.c].log);
    TakenOut(t, m);
    EnteringIs(k.id, k.Name(), k.pair, true);
    JoinedState(t, m, n, k.c, attrs, tail, k.pair);
    EnteringAfter(t[k.c].log, k.id, k.Name(), k.pair, true);
    NoMoveHere(n.pending, t[k.c].pair);
    NodeAfter(t[k.c], attrs, n);
    CommittedIs(t, k.c, attrs, n);
    var own := Mdir(t[k.c].pair, t[k.c].log + Written(t[k.c], attrs, n));
    NodesUpdate(t, k.c, own);
    NewDirIs(m, tail, k.pair);
    NodesInsert(Committed(t, k.c, attrs, n), k.c, NewDir(m, tail, k.pair));
    JoinedIs(Committed(t, k.c, attrs, n), k.c, NewDir(m, tail, k.pair));
    NodeIs(t[k.c]);
    NodesAt(t, k.c);
    LinkAndRefer(Nodes(t), k.c, k.pair);
    MakeOnceIs(t, m, k);
  }

  lemma NodesAt(t: seq<Mdir>, k: nat)
    requires k < |t|
    ensures Nodes(t)[k] == NodeOf(t[k])
  {
    hide NodeOf;
  }

  lemma ChainEndIs(t: Thread, c: nat)
    requires Proper(t) && c < |t| && !t[c].split
    ensures ChainEnd(t, c) == c
  {
  }

  lemma LinkAndRefer(t: Thread, c: nat, id: Pair)
    requires c < |t| && !t[c].split
    ensures var u := t[c := Node(t[c].id, false, t[c].refs + {id})];
            Refer(Link(t, c, id), c, id) == u[..c + 1] + [Node(id, false, {})] + u[c + 1..]
  {
    var u := t[c := Node(t[c].id, false, t[c].refs + {id})];
    assert u[..c + 1] == t[..c + 1][c := u[c]];
    assert u[c + 1..] == t[c + 1..];
  }

  lemma MakeOnceIs(t: seq<Mdir>, m: Memory, k: Making)
    requires Proper(Nodes(t)) && k.c < |t| && !Nodes(t)[k.c].split && ChainEnd(Nodes(t), k.c) == k.c
    ensures MakeStates(t, m, k, 0) == t && MakeStates(t, m, k, 2) == MakeStates(t, m, k, 1)
    ensures MakeStates(t, m, k, 1)
         == Joined(Committed(t, k.c, Entering(k.id, k.Name(), k.pair, true), Memory(m.pending, ZERO)), k.c,
                   NewDir(m, TailFound(t[k.c].log), k.pair))
  {
    hide Committed, Entering, NewDir, TailFound, Nodes, Joined, ChainEnd;
  }

  lemma MakeTwiceIs(t: seq<Mdir>, m: Memory, k: Making)
    requires Proper(Nodes(t)) && k.c < |t| && Nodes(t)[k.c].split
    ensures var p := ChainEnd(Nodes(t), k.c);
            var u := Joined(Committed(t, p, [SoftTail(k.pair)], Counted(m)), p,
              NewDir(m, TailFound(t[p].log), k.pair));
            && MakeStates(t, m, k, 0) == t && MakeStates(t, m, k, 1) == u && k.c < |u|
            && MakeStates(t, m, k, 2) == Committed(u, k.c, Entering(k.id, k.Name(), k.pair, false),
                                                   OrphansPrepared(After(Counted(m), t[p].pair), MINUS_ONE))
  {
    hide Committed, Entering, NewDir, TailFound, Nodes, ChainEnd, SoftTail, PairBytes, Counted, After, OrphansPrepared;
  }

  // The parent is split: first the directory is threaded, as an orphan ...
  lemma MadeOrphan(t: seq<Mdir>, m: Memory, k: Making)
    requires MakeReady(t, m, k) && Nodes(t)[k.c].split
    ensures Proper(Nodes(t))
    ensures var p, u, n := ChainEnd(Nodes(t), k.c), MakeStates(t, m, k, 1), Memory(Counted(m).pending, ZERO);
            && Nodes(u) == Link(Nodes(t), p, k.pair) && Off(u, n) == ZERO && Clean(u, n) && Flag(u)
            && After(Counted(m), t[p].pair) == n && !HasMove(n.pending) && Count(n.pending.tag) == 1
            && k.c < p < |t| && |u| == |t| + 1 && u[k.c] == t[k.c] && !Nodes(t)[p].split
  {
    hide *;
    MakeParts(t, m, k);
    MakeTwiceIs(t, m, k);
    ChainEndBeyond(Nodes(t), k.c);
    var p, n := ChainEnd(Nodes(t), k.c), Counted(m);
    var attrs, tail := [SoftTail(k.pair)], TailFound(t[p].log);
    CountedIs(t, m);
    SoftTailIs(k.pair);
    JoinedState(t, m, n, p, attrs, tail, k.pair);
    NoMoveAfter(n, t[p].pair);
    TailAfter(t[p].log, Split.Tail(k.pair, false));
    NodeAfter(t[p], attrs, n);
    CommittedIs(t, p, attrs, n);
    var v := Committed(t, p, attrs, n);
    NodesUpdate(t, p, v[p]);
    NewDirIs(m, tail, k.pair);
    NodesInsert(v, p, NewDir(m, tail, k.pair));
    JoinedIs(v, p, NewDir(m, tail, k.pair));
    NodeIs(t[p]);
    NodesAt(t, p);
    LinkIs(Nodes(t), p, k.pair);
    FlagIs(MakeStates(t, m, k, 1), Memory(n.pending, ZERO));
  }

  lemma ChainEndBeyond(t: Thread, c: nat)
    requires Proper(t) && c < |t| && t[c].split
    ensures c < ChainEnd(t, c) < |t| && !t[ChainEnd(t, c)].split
  {
  }

  lemma LinkIs(t: Thread, p: nat, id: Pair)
    requires p < |t| && !t[p].split
    ensures var u := t[p := Node(t[p].id, false, t[p].refs)];
            u == t && Link(t, p, id) == u[..p + 1] + [Node(id, false, {})] + u[p + 1..]
  {
    assert t[p] == Node(t[p].id, false, t[p].refs);
  }

  // ... then it is entered, and no longer counted.
  lemma MadeWhole(t: seq<Mdir>, m: Memory, k: Making)
    requires MakeReady(t, m, k) && Nodes(t)[k.c].split
    ensures Proper(Nodes(t))
    ensures var p, u := ChainEnd(Nodes(t), k.c), MakeStates(t, m, k, 2);
            var n := OrphansPrepared(Memory(Counted(m).pending, ZERO), MINUS_ONE);
            && Nodes(u) == Refer(Link(Nodes(t), p, k.pair), k.c, k.pair)
            && Off(u, Memory(n.pending, ZERO)) == ZERO && Clean(u, Memory(n.pending, ZERO)) && !Flag(u)
  {
    hide *;
    MakeParts(t, m, k);
    MadeOrphan(t, m, k);
    MakeTwiceIs(t, m, k);
    var v, o := MakeStates(t, m, k, 1), Memory(Counted(m).pending, ZERO);
    var n, attrs := OrphansPrepared(o, MINUS_ONE), Entering(k.id, k.Name(), k.pair, false);
    UncountedIs(v, o);
    CleanParts(v, n);
    EnteringIs(k.id, k.Name(), k.pair, false);
    CommitConserves(v, k.c, attrs, n);
    CommitStaysClean(v, k.c, attrs, n);
    NoMoveAfter(n, v[k.c].pair);
    EnteringAfter(t[k.c].log, k.id, k.Name(), k.pair, false);
    NodeAfter(v[k.c], attrs, n);
    CommittedIs(v, k.c, attrs, n);
    var own := Mdir(v[k.c].pair, v[k.c].log + Written(v[k.c], attrs, n));
    NodesUpdate(v, k.c, own);
    NodeIs(v[k.c]);
    NodesAt(v, k.c);
    ReferIs(Nodes(v), k.c, k.pair);
    FlagIs(MakeStates(t, m, k, 2), Memory(n.pending, ZERO));
  }

  lemma ReferIs(t: Thread, c: nat, id: Pair)
    requires c < |t|
    ensures Refer(t, c, id) == t[c := Node(t[c].id, t[c].split, t[c].refs + {id})]
  {
  }

  // At every crash point of a mkdir the flag on the device tells of the orphan if there is
  // one, there is at most one, and recovery gives the thread of before or that of after.
  lemma MkdirIsSafe(t: seq<Mdir>, m: Memory, k: Making, n: nat)
    requires MakeReady(t, m, k) && n <= 2
    ensures Proper(Nodes(t)) && Safe(DiskOf(MakeStates(t, m, k, n)), Nodes(t), Nodes(MakeStates(t, m, k, 2)))
  {
    hide *;
    MakeParts(t, m, k);
    var s, p := Nodes(t), ChainEnd(Nodes(t), k.c);
    DiskIs(MakeStates(t, m, k, n));
    if s[k.c].split {
      ChainEndBeyond(s, k.c);
      MakeTwiceIs(t, m, k);
      MadeOrphan(t, m, k);
      MadeWhole(t, m, k);
      MkdirConsistent(s, p, k.c, k.pair);
      if n == 1 {
        LinkedIsSafe(DiskOf(MakeStates(t, m, k, 1)), s, p, k.pair, Nodes(MakeStates(t, m, k, 2)));
      } else {
        ConsistentIsSafe(DiskOf(MakeStates(t, m, k, n)), s, Nodes(MakeStates(t, m, k, 2)));
      }
    } else {
      MadeAtOnce(t, m, k);
      MakeOnceIs(t, m, k);
      MkdirConsistent(s, k.c, k.c, k.pair);
      ConsistentIsSafe(DiskOf(MakeStates(t, m, k, n)), s, Nodes(MakeStates(t, m, k, 2)));
    }
  }

  lemma DiskIs(t: seq<Mdir>)
    ensures DiskOf(t) == Disk(Nodes(t), Flag(t))
  {
    hide Nodes, Flag;
  }

  // ---- mkdir when a commit fails -----------------------------------------------------------------

  // The commit after that to the new directory: its memory and its attributes.
  function LinkMemory(t: seq<Mdir>, m: Memory, k: Making): Memory
    requires k.c < |t|
  {
    if Nodes(t)[k.c].split then Counted(m) else Memory(m.pending, ZERO)
  }

  function LinkAttrs(t: seq<Mdir>, k: Making): seq<Item>
    requires k.c < |t|
  {
    if Nodes(t)[k.c].split then [SoftTail(k.pair)] else Entering(k.id, k.Name(), k.pair, true)
  }

  lemma LinkIsIt(t: seq<Mdir>, m: Memory, k: Making)
    requires k.c < |t|
    ensures Nodes(t)[k.c].split ==> LinkMemory(t, m, k) == Counted(m) && LinkAttrs(t, k) == [SoftTail(k.pair)]
    ensures !Nodes(t)[k.c].split ==>
              && LinkMemory(t, m, k) == Memory(m.pending, ZERO)
              && LinkAttrs(t, k) == Entering(k.id, k.Name(), k.pair, true)
  {
    hide Nodes, Counted, SoftTail, Entering;
  }

  lemma LinkReady(t: seq<Mdir>, m: Memory, k: Making)
    requires MakeReady(t, m, k)
    ensures k.c < |t| && Proper(Nodes(t)) && ChainEnd(Nodes(t), k.c) < |t|
    ensures var n := LinkMemory(t, m, k);
            && Clean(t, n) && Off(t, n) == m.delta && !HasMove(n.pending) && NoState(LinkAttrs(t, k))
            && (Nodes(t)[k.c].split ==> Count(n.pending.tag) == 1 && k.c < ChainEnd(Nodes(t), k.c))
            && (!Nodes(t)[k.c].split ==> k.c == ChainEnd(Nodes(t), k.c))
  {
    hide *;
    MakeParts(t, m, k);
    LinkIsIt(t, m, k);
    CountedIs(t, m);
    TakenOut(t, m);
    XorSelf(m.delta);
    SoftTailIs(k.pair);
    EnteringIs(k.id, k.Name(), k.pair, true);
    NodesLength(t);
    if Nodes(t)[k.c].split {
      ChainEndBeyond(Nodes(t), k.c);
    } else {
      ChainEndIs(Nodes(t), k.c);
    }
  }

  // The first commit has taken what there was to write into a directory that is not in the
  // thread. When the next one fails, the global state survives exactly when that is what the
  // failure itself puts into the delta. A parent of a single pair can put only its own delta
  // there.
  lemma MkdirFails(t: seq<Mdir>, m: Memory, k: Making, room: Room)
    requires MakeReady(t, m, k) && room.Valid()
    ensures k.c < |t| && Proper(Nodes(t)) && ChainEnd(Nodes(t), k.c) < |t|
    ensures var d, n, attrs := t[ChainEnd(Nodes(t), k.c)], LinkMemory(t, m, k), LinkAttrs(t, k);
            !Succeeds(room, d, attrs, n) ==>
              var n' := Memory(n.pending, Packed(room, d, attrs, n).delta);
              && Off(t, n') == Xor(m.delta, FailureTerms(room, d, attrs, n))
              && (Off(t, n') == ZERO <==> m.delta == FailureTerms(room, d, attrs, n))
    ensures !Nodes(t)[k.c].split ==>
              && FailureTerms(room, t[k.c], LinkAttrs(t, k), LinkMemory(t, m, k))
              == (if Packed(room, t[k.c], LinkAttrs(t, k), LinkMemory(t, m, k)).folded then DeltaOf(t[k.c].log)
                  else ZERO)
              && !Late(room, t[k.c], LinkAttrs(t, k), LinkMemory(t, m, k))
  {
    hide *;
    LinkReady(t, m, k);
    var d, n, attrs := t[ChainEnd(Nodes(t), k.c)], LinkMemory(t, m, k), LinkAttrs(t, k);
    var x := FailureTerms(room, d, attrs, n);
    if !Succeeds(room, d, attrs, n) {
      FailureConserves(t, room, d, attrs, n);
      XorSelf(x);
      XorBoth(m.delta, x, x);
    }
    if !Nodes(t)[k.c].split {
      LinkIsIt(t, m, k);
      NothingToWrite(room, d, attrs, n);
    }
  }

  // With nothing to be written a commit is never late, and can lose nothing.
  lemma NothingToWrite(room: Room, d: Mdir, attrs: seq<Item>, n: Memory)
    requires room.Valid() && n.delta == ZERO && !HasMove(n.pending)
    ensures !Late(room, d, attrs, n) && LateTerm(room, d, attrs, n) == ZERO
    ensures FailureTerms(room, d, attrs, n) == if Packed(room, d, attrs, n).folded then DeltaOf(d.log) else ZERO
  {
    hide *;
    NoMoveHere(n.pending, d.pair);
    TermsAre(room, d, attrs, n);
    RoomIs(room, d, attrs, n);
    XorSelf(ZERO);
    XorSelf(DeltaOf(d.log));
  }

  // The loop that goes to the last pair of a directory.
  method FindEnd(t: seq<Mdir>, c: nat) returns (p: nat)
    requires Proper(Nodes(t)) && c < |t|
    ensures p == ChainEnd(Nodes(t), c) < |t|
  {
    hide *;
    NodesLength(t);
    p := c;
    while TailFound(t[p].log).split
      invariant c <= p < |t| && ChainEnd(Nodes(t), c) == ChainEnd(Nodes(t), p)
      decreases |t| - p
    {
      NodesAt(t, p);
      NodeIs(t[p]);
      ChainStep(Nodes(t), p);
      p := p + 1;
    }
    NodesAt(t, p);
    NodeIs(t[p]);
    ChainEndIs(Nodes(t), p);
  }

  lemma EndIsLast(t: Thread, c: nat)
    requires Proper(t) && c < |t|
    ensures c <= ChainEnd(t, c) < |t| && !t[ChainEnd(t, c)].split
  {
  }

  // lfs_mkdir from the search on.
  method MakeDirectory(fs: Fs, k: Making) returns (ghost between: seq<Mdir>)
    requires fs.Valid() && MakeReady(fs.thread, fs.Mem(), k)
    modifies fs
    ensures Proper(Nodes(old(fs.thread)))
    ensures between == MakeStates(old(fs.thread), old(fs.Mem()), k, 1)
    ensures fs.thread == MakeStates(old(fs.thread), old(fs.Mem()), k, 2)
    ensures fs.Valid() && Off(fs.thread, fs.Mem()) == ZERO
  {
    hide *;
    ghost var t, m := fs.thread, fs.Mem();
    fs.MemIs();
    MakeParts(t, m, k);
    // the end of the chain
    var p := FindEnd(fs.thread, k.c);
    var split := TailFound(fs.thread[k.c].log).split;
    NodesAt(fs.thread, k.c);
    NodeIs(fs.thread[k.c]);
    NodesAt(t, p);
    NodeIs(t[p]);
    NodesLength(t);
    EndIsLast(Nodes(t), k.c);
    ChainEndIs(Nodes(t), p);
    // the new directory
    var tail := TailFound(fs.thread[p].log);
    var d := fs.CommitFresh(k.pair, [SoftTail(tail.pair)]);
    NewDirLog(m, tail, k.pair);
    NewDirWhole(m, tail, k.pair);
    TakenOut(t, m);
    fs.MemIs();
    if split {
      MakeTwiceIs(t, m, k);
      MadeOrphan(t, m, k);
      MadeWhole(t, m, k);
      CountedMemory(m);
      CountedIs(t, m);
      SoftTailIs(k.pair);
      // thread it, as an orphan
      fs.PrepOrphans(ONE);
      fs.MemIs();
      fs.Commit(p, [SoftTail(k.pair)]);
      fs.MemIs();
      JoinedIs(fs.thread, p, d);
      fs.thread := fs.thread[..p + 1] + [d] + fs.thread[p + 1..];
      between := fs.thread;
      fs.MemIs();
      UncountedIs(between, fs.Mem());
      fs.PrepOrphans(MINUS_ONE);
      fs.MemIs();
      EnteringIs(k.id, k.Name(), k.pair, false);
      fs.Commit(k.c, Entering(k.id, k.Name(), k.pair, false));
    } else {
      MakeOnceIs(t, m, k);
      MadeAtOnce(t, m, k);
      EnteringIs(k.id, k.Name(), k.pair, true);
      fs.Commit(k.c, Entering(k.id, k.Name(), k.pair, true));
      NoMoveAfter(Memory(m.pending, ZERO), t[k.c].pair);
      fs.MemIs();
      JoinedIs(fs.thread, p, d);
      fs.thread := fs.thread[..p + 1] + [d] + fs.thread[p + 1..];
      between := fs.thread;
      fs.MemIs();
    }
  }

  // A commit that has succeeded: the pairs that a compaction has made, and the thread.
  datatype Step = Step(logs: map<Pair, seq<Item>>, chain: seq<Pair>, thread: seq<Mdir>)

  // lfs_mkdir when its commits may have to compact, or may fail: link is the room for the one
  // that threads the new directory, enter for the one that enters it into a parent of several
  // pairs.
  method TryMakeDirectory(fs: Fs, k: Making, link: Room, enter: Room)
    returns (ok: bool, ghost first: Step, ghost second: Step)
    requires fs.Valid() && MakeReady(fs.thread, fs.Mem(), k) && link.Valid() && enter.Valid()
    requires forall i :: 0 <= i < |fs.thread| ==> Settled(fs.thread[i].log)
    requires forall i :: 0 <= i < |fs.thread| ==> fs.thread[i].pair !in link.unused + enter.unused
    modifies fs
    ensures k.c < |old(fs.thread)| && Proper(Nodes(old(fs.thread)))
            && ChainEnd(Nodes(old(fs.thread)), k.c) < |old(fs.thread)|
    ensures fs.Valid()
    ensures var t, m := old(fs.thread), old(fs.Mem());
            var d, n, attrs := t[ChainEnd(Nodes(t), k.c)], LinkMemory(t, m, k), LinkAttrs(t, k);
            var last := Entering(k.id, k.Name(), k.pair, false);
            var n2 := OrphansPrepared(Memory(n.pending, ZERO), MINUS_ONE);
            && (!Succeeds(link, d, attrs, n) ==>
                  !ok && fs.thread == t && Off(fs.thread, fs.Mem()) == Xor(m.delta, FailureTerms(link, d, attrs, n)))
            && (Succeeds(link, d, attrs, n) && !Nodes(t)[k.c].split ==> ok && Off(fs.thread, fs.Mem()) == ZERO)
            && (Succeeds(link, d, attrs, n) && Nodes(t)[k.c].split ==>
                  && (ok <==> Succeeds(enter, t[k.c], last, n2))
                  && Off(fs.thread, fs.Mem())
                  == Xor(LateTerm(link, d, attrs, n), if ok then LateTerm(enter, t[k.c], last, n2)
                                                      else FailureTerms(enter, t[k.c], last, n2)))
    // the first commit makes first.thread, in which the new directory goes behind the pair that
    // it is linked to; the second commits to that
    ensures var t, m := old(fs.thread), old(fs.Mem());
            var p := ChainEnd(Nodes(t), k.c);
            var n, attrs, last := LinkMemory(t, m, k), LinkAttrs(t, k), Entering(k.id, k.Name(), k.pair, false);
            Succeeds(link, t[p], attrs, n) ==>
              var u := first.thread;
              var at := p + (|u| - |t|);
              && CommitMakes(t, p, attrs, n, link, first.logs, first.chain, u) && p <= at < |u| && k.c <= p
              && var v := Joined(u, at, NewDir(m, TailFound(t[p].log), k.pair));
              && (Nodes(t)[k.c].split && ok ==>
                    && k.c < |v| && v[k.c] == t[k.c] && second.thread == fs.thread
                    && CommitMakes(v, k.c, last, OrphansPrepared(Memory(n.pending, ZERO), MINUS_ONE), enter,
                                   second.logs, second.chain, fs.thread))
              && (!(Nodes(t)[k.c].split && ok) ==> fs.thread == v)
  {
    hide *;
    ghost var t, m := fs.thread, fs.Mem();
    fs.MemIs();
    MakeParts(t, m, k);
    LinkReady(t, m, k);
    LinkIsIt(t, m, k);
    MkdirFails(t, m, k, link);
    var p := FindEnd(fs.thread, k.c);
    var split := TailFound(fs.thread[k.c].log).split;
    NodesAt(t, k.c);
    NodeIs(t[k.c]);
    var tail, pairs := TailFound(fs.thread[p].log), |fs.thread|;
    var d := fs.CommitFresh(k.pair, [SoftTail(tail.pair)]);
    NewDirLog(m, tail, k.pair);
    NewDirWhole(m, tail, k.pair);
    NewDirIs(m, tail, k.pair);
    TakenOut(t, m);
    fs.MemIs();
    if split {
      CountedMemory(m);
      CountedIs(t, m);
      fs.PrepOrphans(ONE);
      fs.MemIs();
    }
    ghost var n, attrs := LinkMemory(t, m, k), LinkAttrs(t, k);
    LinkSettles(t, m, k, p);
    ghost var logs, chain;
    var linking := if split then [SoftTail(k.pair)] else Entering(k.id, k.Name(), k.pair, true);
    ok, logs, chain := fs.DirCommit(p, linking, link);
    first := Step(logs, chain, fs.thread);
    second := first;
    fs.MemIs();
    if !ok {
      return;
    }
    // where the chain ends now
    var at := p + (|fs.thread| - pairs);
    ghost var u := fs.thread;
    Shape(t, p, attrs, n, link, logs, chain, u, k.c);
    JoinedIs(u, at, d);
    CleanParts(t, m);
    InsertedOff(u, at, d, fs.Mem());
    LateIs(link, t[p], attrs, n);
    NoMoveAfter(n, t[p].pair);
    XorSwap(m.delta, LateTerm(link, t[p], attrs, n), m.delta);
    XorSelf(m.delta);
    XorSelf(LateTerm(link, t[p], attrs, n));
    XorSelf(Off(t, n));
    fs.thread := fs.thread[..at + 1] + [d] + fs.thread[at + 1..];
    fs.MemIs();
    ghost var v := fs.thread;
    InsertedBelow(u, at, d, k.c);
    fs.IsValidNow();
    if split {
      UncountedIs(v, fs.Mem());
      OneLess(n.pending.tag);
      fs.PrepOrphans(MINUS_ONE);
      fs.MemIs();
      EnteringIs(k.id, k.Name(), k.pair, false);
      EnteringAfter(t[k.c].log, k.id, k.Name(), k.pair, false);
      ghost var last, n2 := Entering(k.id, k.Name(), k.pair, false), fs.Mem();
      WithMoveIs(t[k.c], last, n2);
      NoMoveHere(n2.pending, t[k.c].pair);
      assert last + [] == last;
      assert k.c < |fs.thread| && fs.thread[k.c] == t[k.c];
      ok, logs, chain := fs.DirCommit(k.c, Entering(k.id, k.Name(), k.pair, false), enter);
      second := Step(logs, chain, fs.thread);
      fs.MemIs();
      LateIs(enter, t[k.c], last, n2);
      XorSelf(Off(v, n2));
      if !ok {
        FailureConserves(v, enter, t[k.c], last, n2);
      }
    } else {
      NothingToWrite(link, t[p], attrs, n);
      XorSelf(ZERO);
    }
  }

  lemma LinkSettles(t: seq<Mdir>, m: Memory, k: Making, p: nat)
    requires MakeReady(t, m, k) && p < |t| && Settled(t[p].log)
    ensures k.c < |t|
    ensures !HasMove(LinkMemory(t, m, k).pending) && (!Nodes(t)[k.c].split ==> p == k.c) ==>
              Settled(t[p].log + WithMove(t[p], LinkAttrs(t, k), LinkMemory(t, m, k)))
  {
    hide *;
    MakeParts(t, m, k);
    var n, attrs := LinkMemory(t, m, k), LinkAttrs(t, k);
    LinkIsIt(t, m, k);
    if !HasMove(n.pending) {
      WithMoveIs(t[p], attrs, n);
      NoMoveHere(n.pending, t[p].pair);
      assert attrs + [] == attrs;
      if Nodes(t)[k.c].split {
        SoftTailIs(k.pair);
        TailAfter(t[p].log, Split.Tail(k.pair, false));
      } else if p == k.c {
        EnteringAfter(t[p].log, k.id, k.Name(), k.pair, true);
      }
    }
  }

  // A commit to pair p leaves what is before it where it was.
  lemma Shape(t: seq<Mdir>, p: nat, attrs: seq<Item>, n: Memory, room: Room, logs: map<Pair, seq<Item>>,
              chain: seq<Pair>, u: seq<Mdir>, c: nat)
    requires p < |t| && room.Valid() && c <= p && CommitMakes(t, p, attrs, n, room, logs, chain, u)
    ensures |u| >= |t| && p + (|u| - |t|) < |u| && (c < p ==> u[c] == t[c])
  {
    hide CommitMakes;
    CommitShape(t, p, attrs, n, room, logs, chain, u);
  }

  lemma InsertedBelow(u: seq<Mdir>, at: nat, d: Mdir, c: nat)
    requires at < |u| && c <= at
    ensures (u[..at + 1] + [d] + u[at + 1..])[c] == u[c]
  {
  }

  lemma ChainStep(t: Thread, p: nat)
    requires Proper(t) && p < |t| && t[p].split
    ensures p + 1 < |t| && ChainEnd(t, p) == ChainEnd(t, p + 1)
  {
  }

  lemma NewDirWhole(m: Memory, tail: Split.Tail, pair: Pair)
    ensures NewDir(m, tail, pair) == Mdir(pair, Written(Mdir(pair, []), [SoftTail(tail.pair)], m))
  {
    hide Written, SoftTail;
  }

  // ---- removing a directory ------------------------------------------------------------------------

  // The removal of directory k, which entry id of pair c refers to.
  datatype Removal = Removal(c: nat, id: nat, k: nat)

  ghost predicate RemoveReady(t: seq<Mdir>, m: Memory, r: Removal) {
    && Clean(t, m) && Off(t, m) == ZERO && !HasMove(m.pending) && Count(m.pending.tag) == 0
    && Consistent(Nodes(t)) && Empty(Nodes(t), r.k) && OnlyParent(Nodes(t), r.c, t[r.k].pair)
    && Settled(t[r.c].log) && OnlyRef(Replay(t[r.c].log), r.id, t[r.k].pair)
  }

  // The entry is the only one of a pair that is not the first of its directory.
  predicate Emptied(t: seq<Mdir>, r: Removal) {
    0 < r.c < |t| && |Replay(t[r.c].log)| == 1 && TailFound(t[r.c - 1].log).split
  }

  function Place(t: seq<Mdir>, r: Removal): nat {
    if Emptied(t, r) then Shifted(r.c, r.k) else r.k
  }

  // The device after the entry has been deleted, and with it its pair if that is empty then.
  function Unentered(t: seq<Mdir>, m: Memory, r: Removal): seq<Mdir>
    requires r.c < |t|
  {
    if Emptied(t, r) then Dropped(t, r.c - 1, OrphansPrepared(m, ONE))
    else Committed(t, r.c, [DeleteAt(r.id)], OrphansPrepared(m, ONE))
  }

  // What is wanted once the orphan has been counted.
  function Orphaned(m: Memory): Memory {
    Memory(OrphansPrepared(m, ONE).pending, ZERO)
  }

  // The device before lfs_remove, between its commits and after them.
  function RemoveStates(t: seq<Mdir>, m: Memory, r: Removal, n: nat): seq<Mdir>
    requires r.c < |t|
  {
    var u, k := Unentered(t, m, r), Place(t, r);
    if n == 0 then t
    else if n == 1 || k == 0 || k >= |u| then u
    else Dropped(u, k - 1, OrphansPrepared(Orphaned(m), MINUS_ONE))
  }

  lemma RemoveParts(t: seq<Mdir>, m: Memory, r: Removal)
    requires RemoveReady(t, m, r)
    ensures Clean(t, m) && Off(t, m) == ZERO && !HasMove(m.pending) && Count(m.pending.tag) == 0
    ensures Consistent(Nodes(t)) && Empty(Nodes(t), r.k) && r.c < |t| && 0 < r.k < |t|
    ensures OnlyParent(Nodes(t), r.c, t[r.k].pair) && Nodes(t)[r.k].id == t[r.k].pair
    ensures Settled(t[r.c].log) && OnlyRef(Replay(t[r.c].log), r.id, t[r.k].pair) && r.id < |Replay(t[r.c].log)|
  {
    hide Clean, Off, HasMove, Count, Proper, Threaded, Referenced, WellFormed, AllNamed, Replay, RefOf, Head;
  }

  lemma OneOrphan(t: seq<Mdir>, m: Memory)
    requires Clean(t, m) && !HasMove(m.pending) && Count(m.pending.tag) == 0
    ensures var n := OrphansPrepared(m, ONE);
            && Clean(t, n) && Off(t, n) == Off(t, m) && !HasMove(n.pending)
            && Count(n.pending.tag) == 1 && TopBit(n.pending.tag) != 0
  {
    hide *;
    var n := OrphansPrepared(m, ONE);
    OneMore(m.pending.tag);
    OrphansPreparedKeeps(t, m, ONE);
    SameMoveItem(n.pending, m.pending);
    HasOrphansIs(n.pending);
    TopBitNotZero();
  }

  lemma OrphanedIs(m: Memory)
    ensures Orphaned(m) == Memory(OrphansPrepared(m, ONE).pending, ZERO)
  {
    hide OrphansPrepared;
  }

  // With the entry deleted, its directory is no longer referred to.
  lemma EntryDeleted(t: seq<Mdir>, m: Memory, r: Removal)
    requires RemoveReady(t, m, r) && !Emptied(t, r)
    ensures r.c < |t| && r.k < |t|
    ensures Nodes(Unentered(t, m, r)) == Unrefer(Nodes(t), r.c, t[r.k].pair)
    ensures Off(Unentered(t, m, r), Orphaned(m)) == ZERO && Clean(Unentered(t, m, r), Orphaned(m))
  {
    hide *;
    RemoveParts(t, m, r);
    OneOrphan(t, m);
    var n, attrs := OrphansPrepared(m, ONE), [DeleteAt(r.id)];
    OrphanedIs(m);
    CleanParts(t, n);
    DeleteIsNoState(r.id);
    CommitConserves(t, r.c, attrs, n);
    CommitStaysClean(t, r.c, attrs, n);
    NoMoveAfter(n, t[r.c].pair);
    DeleteReplays(t[r.c].log, r.id);
    RefsRemove(Replay(t[r.c].log), r.id, t[r.k].pair);
    NoTailIn(t[r.c].log, DeleteAt(r.id));
    NodeAfter(t[r.c], attrs, n);
    CommittedIs(t, r.c, attrs, n);
    NodesUpdate(t, r.c, Mdir(t[r.c].pair, t[r.c].log + Written(t[r.c], attrs, n)));
    NodeIs(t[r.c]);
    NodesAt(t, r.c);
    UnreferIs(Nodes(t), r.c, t[r.k].pair);
    UnenteredIs(t, m, r);
  }

  lemma DeleteIsNoState(id: nat)
    ensures NoState([DeleteAt(id)]) && Kind(DeleteAt(id).tag.type3) != TYPE_TAIL
  {
  }

  lemma UnreferIs(t: Thread, c: nat, id: Pair)
    requires c < |t|
    ensures Unrefer(t, c, id) == t[c := Node(t[c].id, t[c].split, t[c].refs - {id})]
  {
  }

  lemma UnenteredIs(t: seq<Mdir>, m: Memory, r: Removal)
    requires r.c < |t|
    ensures Emptied(t, r) ==> 0 < r.c && Unentered(t, m, r) == Dropped(t, r.c - 1, OrphansPrepared(m, ONE))
    ensures !Emptied(t, r) ==> Unentered(t, m, r) == Committed(t, r.c, [DeleteAt(r.id)], OrphansPrepared(m, ONE))
    ensures Place(t, r) == if Emptied(t, r) then Shifted(r.c, r.k) else r.k
  {
    hide Dropped, Committed, OrphansPrepared, Replay, TailFound, Shifted;
  }

  // With its pair dropped, too.
  lemma PairDropped(t: seq<Mdir>, m: Memory, r: Removal)
    requires RemoveReady(t, m, r) && Emptied(t, r)
    ensures r.c < |t| && r.k < |t| && LastInPair(Nodes(t), r.c, r.k)
    ensures Nodes(Unentered(t, m, r)) == Drop(Nodes(t), r.c)
    ensures Off(Unentered(t, m, r), Orphaned(m)) == ZERO && Clean(Unentered(t, m, r), Orphaned(m))
  {
    hide *;
    RemoveParts(t, m, r);
    OneOrphan(t, m);
    var n := OrphansPrepared(m, ONE);
    OrphanedIs(m);
    UnenteredIs(t, m, r);
    EmptiedParts(t, r);
    DropConserves(t, r.c - 1, n);
    NoMoveAfter(n, t[r.c - 1].pair);
    DroppedNodes(t, r.c - 1, n);
    OneEntry(Replay(t[r.c].log), r.id, t[r.k].pair);
    NodeIs(t[r.c]);
    NodeIs(t[r.c - 1]);
    NodesAt(t, r.c);
    NodesAt(t, r.c - 1);
    IsLastInPair(Nodes(t), r.c, r.k);
  }

  lemma EmptiedParts(t: seq<Mdir>, r: Removal)
    requires Emptied(t, r)
    ensures 0 < r.c < |t| && |Replay(t[r.c].log)| == 1 && TailFound(t[r.c - 1].log).split
  {
    hide Replay, TailFound;
  }

  lemma OneEntry(s: seq<Entry>, i: nat, p: Pair)
    requires OnlyRef(s, i, p) && |s| == 1
    ensures Refs(s) == {p}
  {
    hide RefOf;
    assert s[0] == s[i];
    forall q | q in Refs(s)
      ensures q == p
    {
      var j :| 0 <= j < |s| && RefOf(s[j]).Some? && RefOf(s[j]).value == q;
    }
    assert p in Refs(s);
  }

  lemma IsLastInPair(t: Thread, c: nat, k: nat)
    requires Empty(t, k) && OnlyParent(t, c, t[k].id) && 0 < c && t[c - 1].split && t[c].refs == {t[k].id}
    ensures LastInPair(t, c, k)
  {
    hide Empty, Head;
  }

  lemma LastParts(t: Thread, c: nat, k: nat)
    requires LastInPair(t, c, k)
    ensures Continues(t, c) && Empty(t, k)
  {
    hide Empty, OnlyParent, Continues;
  }

  // Where the directory to be dropped is after the first commit, and that it is still there.
  lemma StillThere(t: seq<Mdir>, m: Memory, r: Removal)
    requires RemoveReady(t, m, r)
    ensures r.c < |t|
    ensures var u := Unentered(t, m, r); 0 < Place(t, r) < |u|
  {
    hide *;
    RemoveParts(t, m, r);
    UnenteredIs(t, m, r);
    if Emptied(t, r) {
      PairDropped(t, m, r);
      IsConsistent(Nodes(t));
      LastParts(Nodes(t), r.c, r.k);
      HardDroppedProper(Nodes(t), r.c, r.k);
      EmptyIsInside(Drop(Nodes(t), r.c), Shifted(r.c, r.k));
      NodesLength(Unentered(t, m, r));
    }
  }

  lemma NodesLength(t: seq<Mdir>)
    ensures |Nodes(t)| == |t|
  {
    hide NodeOf;
  }

  lemma IsConsistent(t: Thread)
    requires Consistent(t)
    ensures Proper(t)
  {
    hide Proper, Threaded, Referenced;
  }

  lemma EmptyIsInside(t: Thread, k: nat)
    requires Empty(t, k)
    ensures 0 < k < |t|
  {
    hide Head;
  }

  lemma RemoveStatesAre(t: seq<Mdir>, m: Memory, r: Removal)
    requires r.c < |t| && 0 < Place(t, r) < |Unentered(t, m, r)|
    ensures RemoveStates(t, m, r, 0) == t && RemoveStates(t, m, r, 1) == Unentered(t, m, r)
    ensures RemoveStates(t, m, r, 2)
         == Dropped(Unentered(t, m, r), Place(t, r) - 1, OrphansPrepared(Orphaned(m), MINUS_ONE))
  {
    hide Place, Unentered, Dropped, OrphansPrepared, Orphaned;
  }

  // The second commit drops the directory, and the orphan is no longer counted.
  lemma DirectoryDropped(t: seq<Mdir>, m: Memory, r: Removal)
    requires RemoveReady(t, m, r)
    ensures r.c < |t| && 0 < Place(t, r) < |Unentered(t, m, r)|
    ensures var u, n := RemoveStates(t, m, r, 2), OrphansPrepared(Orphaned(m), MINUS_ONE);
            && Nodes(u) == Drop(Nodes(Unentered(t, m, r)), Place(t, r))
            && Off(u, Memory(n.pending, ZERO)) == ZERO && Clean(u, Memory(n.pending, ZERO)) && !Flag(u)
    ensures Flag(Unentered(t, m, r))
  {
    hide *;
    RemoveParts(t, m, r);
    StillThere(t, m, r);
    RemoveStatesAre(t, m, r);
    OneOrphan(t, m);
    OrphanedIs(m);
    if Emptied(t, r) {
      PairDropped(t, m, r);
    } else {
      EntryDeleted(t, m, r);
    }
    var v, p := Unentered(t, m, r), Place(t, r) - 1;
    FlagIs(v, Orphaned(m));
    UncountedIs(v, Orphaned(m));
    var n := OrphansPrepared(Orphaned(m), MINUS_ONE);
    DropConserves(v, p, n);
    NoMoveAfter(n, v[p].pair);
    DroppedNodes(v, p, n);
    FlagIs(RemoveStates(t, m, r, 2), Memory(n.pending, ZERO));
  }

  // At every crash point of the removal of a directory the flag on the device tells of the
  // orphan if there is one, there is at most one, and recovery gives the thread of before
  // or that of after. That holds also when the deletion of the entry empties a pair of its
  // directory, which is then dropped in the first commit.
  lemma RemoveIsSafe(t: seq<Mdir>, m: Memory, r: Removal, n: nat)
    requires RemoveReady(t, m, r) && n <= 2
    ensures r.c < |t| && Safe(DiskOf(RemoveStates(t, m, r, n)), Nodes(t), Nodes(RemoveStates(t, m, r, 2)))
  {
    hide *;
    RemoveParts(t, m, r);
    DirectoryDropped(t, m, r);
    RemoveStatesAre(t, m, r);
    UnenteredIs(t, m, r);
    DiskIs(RemoveStates(t, m, r, n));
    var s, after := Nodes(t), Nodes(RemoveStates(t, m, r, 2));
    if Emptied(t, r) {
      PairDropped(t, m, r);
      HardDroppedIsSafe(Disk(Drop(s, r.c), true), s, r.c, r.k);
    } else {
      EntryDeleted(t, m, r);
      UnreferAbandons(s, r.c, r.k);
      AbandonedConsistent(s, Unrefer(s, r.c, t[r.k].pair), r.k, r.k);
      AbandonedIsSafe(Disk(Unrefer(s, r.c, t[r.k].pair), true), s, Unrefer(s, r.c, t[r.k].pair), r.k, r.k);
    }
    if n != 1 {
      ConsistentIsSafe(DiskOf(RemoveStates(t, m, r, n)), s, after);
    }
  }

  // lfs_remove for a directory, from the checks on.
  method RemoveDirectory(fs: Fs, r: Removal) returns (ghost between: seq<Mdir>)
    requires fs.Valid() && RemoveReady(fs.thread, fs.Mem(), r)
    modifies fs
    ensures r.c < |old(fs.thread)|
    ensures between == RemoveStates(old(fs.thread), old(fs.Mem()), r, 1)
    ensures fs.thread == RemoveStates(old(fs.thread), old(fs.Mem()), r, 2)
    ensures fs.Valid() && Off(fs.thread, fs.Mem()) == ZERO
  {
    hide *;
    ghost var t, m := fs.thread, fs.Mem();
    fs.MemIs();
    RemoveParts(t, m, r);
    DirectoryDropped(t, m, r);
    RemoveStatesAre(t, m, r);
    UnenteredIs(t, m, r);
    OneOrphan(t, m);
    OrphanedIs(m);
    OneMore(m.pending.tag);
    var place := Place(fs.thread, r);
    // the directory is about to be an orphan
    fs.PrepOrphans(ONE);
    fs.MemIs();
    if Emptied(fs.thread, r) {
      PairDropped(t, m, r);
      EmptiedParts(t, r);
      NoMoveAfter(fs.Mem(), t[r.c].pair);
      NoMoveAfter(fs.Mem(), t[r.c - 1].pair);
      DeleteIsNoState(r.id);
      fs.CommitEmptied(r.c, [DeleteAt(r.id)]);
    } else {
      EntryDeleted(t, m, r);
      NoMoveAfter(fs.Mem(), t[r.c].pair);
      DeleteIsNoState(r.id);
      fs.Commit(r.c, [DeleteAt(r.id)]);
    }
    between := fs.thread;
    fs.MemIs();
    UncountedIs(between, Orphaned(m));
    OneLess(Orphaned(m).pending.tag);
    // and is none any more when it is dropped
    fs.PrepOrphans(MINUS_ONE);
    fs.MemIs();
    fs.Drop(place - 1);
  }

  // ---- deorphaning ---------------------------------------------------------------------------------

  // lfs_fs_parent
  method Parent(t: seq<Mdir>, pair: Pair) returns (found: bool)
    ensures found <==> Referenced(Nodes(t), pair)
  {
    hide Replay, Refs, RefOf;
    for i := 0 to |t|
      invariant forall j :: 0 <= j < i ==> pair !in Nodes(t)[j].refs
    {
      var here := RefersTo(Replay(t[i].log), pair);
      assert Nodes(t)[i].refs == Refs(Replay(t[i].log));
      if here {
        return true;
      }
    }
    return false;
  }

  method RefersTo(s: seq<Entry>, pair: Pair) returns (found: bool)
    ensures found <==> pair in Refs(s)
  {
    hide RefOf, Refs;
    for i := 0 to |s|
      invariant forall j :: 0 <= j < i ==> RefOf(s[j]) != Some(pair)
    {
      if RefOf(s[i]) == Some(pair) {
        RefIsThere(s, i, pair);
        return true;
      }
    }
    RefIsNotThere(s, pair);
    return false;
  }

  lemma RefIsThere(s: seq<Entry>, i: nat, pair: Pair)
    requires i < |s| && RefOf(s[i]) == Some(pair)
    ensures pair in Refs(s)
  {
    hide RefOf;
  }

  lemma RefIsNotThere(s: seq<Entry>, pair: Pair)
    requires forall j :: 0 <= j < |s| ==> RefOf(s[j]) != Some(pair)
    ensures pair !in Refs(s)
  {
    hide RefOf;
  }

  // lfs_fs_deorphan: the first orphan is dropped. What is counted as of the last commit is
  // counted no longer then. More may be wanted, when an operation has failed since it counted an
  // orphan; less only when one has failed that was about to get rid of an orphan, which is still
  // there. Otherwise the count would run out.
  method Deorphan(fs: Fs) returns (ghost k: nat)
    requires fs.Valid() && (HasOrphans(fs.gstate) ==> NowhereMoving(fs.gpending, fs.thread))
    modifies fs
    ensures var enough := Orphan(Nodes(old(fs.thread)), k)
                          || Words.AtMost(old(Count(fs.gstate.tag)), old(Count(fs.gpending.tag)));
            && (Off(fs.thread, fs.Mem()) == Off(old(fs.thread), old(fs.Mem())) <==> enough)
            && (enough ==> fs.Valid() && (old(HasOrphans(fs.gstate)) ==>
                                            && MoveIn(fs.gpending) == old(MoveIn(fs.gpending))
                                            && TopBit(fs.gpending.tag)
                                            == if HasOrphans(fs.gpending) then 0x8000_0000 else 0))
    ensures !old(HasOrphans(fs.gstate)) ==>
              && fs.thread == old(fs.thread) && fs.Mem() == old(fs.Mem()) && fs.gstate == old(fs.gstate)
              && !Orphan(Nodes(old(fs.thread)), k)
    ensures old(HasOrphans(fs.gstate)) ==>
              var was, t := Nodes(old(fs.thread)), fs.thread;
              && fs.gstate == fs.gpending
              && (if Orphan(was, k)
                  then (forall j: nat :: j < k ==> !Orphan(was, j)) && Nodes(t) == Drop(was, k)
                       && 0 < k < |old(fs.thread)| && t == Dropped(old(fs.thread), k - 1, old(fs.Mem()))
                       && Count(fs.gpending.tag) == 0
                  else t == old(fs.thread) && (forall j: nat :: !Orphan(was, j))
                       && (Words.AtMost(old(Count(fs.gstate.tag)), old(Count(fs.gpending.tag))) ==>
                             Count(fs.gpending.tag)
                             == Words.Minus(old(Count(fs.gpending.tag)), old(Count(fs.gstate.tag)))))
  {
    hide *;
    fs.MemIs();
    ghost var t, m := fs.thread, fs.Mem();
    k := |t|;
    NodesLength(t);
    NoOrphanBeyond(Nodes(t));
    HasOrphansIs(fs.gstate);
    if !HasOrphans(fs.gstate) {
      Words.ZeroAtMost(Count(fs.gpending.tag));
      return;
    }
    var prevSplit, i, looking := true, 0, true;
    while i < |fs.thread| && looking
      invariant 0 <= i <= |t| && fs.thread == t && k == |t|
      invariant prevSplit <==> i == 0 || Nodes(t)[i - 1].split
      invariant forall j: nat :: j < i ==> !Orphan(Nodes(t), j)
      invariant !looking ==> i < |t| && Orphan(Nodes(t), i)
      invariant !looking ==> i > 0
      modifies {}
      decreases |t| - i, looking
    {
      NodesAt(t, i);
      NodeIs(t[i]);
      OrphanIs(Nodes(t), i);
      // only the first pair of a directory has a parent
      if !prevSplit {
        var found := Parent(fs.thread, fs.thread[i].pair);
        if !found {
          looking := false;
        }
      }
      if looking {
        prevSplit := TailFound(fs.thread[i].log).split;
        i := i + 1;
      }
    }
    if !looking {
      k := i;
      NotMovingAt(m.pending, t, i - 1);
      DroppedNodes(t, i - 1, m);
      MemoryIs(m, t[i - 1].pair);
      fs.Drop(i - 1);
      fs.MemIs();
      Words.MinusSelf(Count(fs.gpending.tag));
    }
    // no orphans any more
    ghost var n := fs.Mem();
    SomeLess(fs.gpending.tag, fs.gstate.tag);
    fs.PrepOrphans(Words.Minus(0, Count(fs.gstate.tag)));
    fs.MemIs();
    fs.gstate := fs.gpending;
    fs.MemIs();
  }

  lemma NoOrphanBeyond(t: Thread)
    ensures forall k: nat :: k >= |t| ==> !Orphan(t, k)
  {
    hide Head, Referenced;
  }

  lemma OrphanIs(t: Thread, i: nat)
    requires i < |t|
    ensures Orphan(t, i) <==> i > 0 && !t[i - 1].split && !Referenced(t, t[i].id)
  {
    hide Referenced;
  }

  // Mounting and deorphaning is the recovery that the safety of mkdir and remove is about.
  method Recover(t: seq<Mdir>) returns (fs: Fs)
    requires OnlyStored(Dirs(t)) && !HasMove(Total(Dirs(t)))
    ensures fresh(fs) && fs.Valid() && Off(fs.thread, fs.Mem()) == ZERO && !HasOrphans(fs.gpending)
    ensures Recovers(DiskOf(t), Nodes(fs.thread))
  {
    hide *;
    FileSystem.IsProper(Total(Dirs(t)));
    MountedState(t);
    SameMoveItem(Mounted(t), Total(Dirs(t)));
    fs := new Fs.Mount(t);
    fs.MemIs();
    NoneMoving(fs.gpending, t);
    FlagSays(t);
    DiskIs(t);
    Words.MinusSelf(Count(fs.gpending.tag));
    ghost var k := Deorphan(fs);
    RecoversBy(DiskOf(t), Nodes(fs.thread), k);
    fs.MemIs();
    HasOrphansIs(fs.gpending);
  }

  lemma RecoversBy(d: Disk, u: Thread, k: nat)
    requires !d.flag ==> u == d.thread
    requires d.flag ==> if Orphan(d.thread, k)
                        then (forall j: nat :: j < k ==> !Orphan(d.thread, j)) && u == Drop(d.thread, k)
                        else u == d.thread && forall j: nat :: !Orphan(d.thread, j)
    ensures Recovers(d, u)
  {
    hide Orphan, Drop;
  }
}
