// The file system as its commits see it: the metadata logs of all directories, in the order
// of the thread, and the three global states in memory.
module FileSystem {
  import opened Wrappers
  import opened Tags
  import opened Log
  import opened Gstate
  import opened Traverse
  import opened Util
  import Compaction
  import Split
  import Words

  // A metadata pair and its log.
  datatype Mdir = Mdir(pair: Pair, log: seq<Item>)

  function View(d: Mdir): Dir {
    Dir(d.pair, DeltaOf(d.log))
  }

  function Dirs(t: seq<Mdir>): (r: seq<Dir>)
    ensures |r| == |t| && forall i :: 0 <= i < |t| ==> r[i] == View(t[i])
  {
    seq(|t|, i requires 0 <= i < |t| => View(t[i]))
  }

  // What is wanted, and what the next commit has to fold in.
  datatype Memory = Memory(pending: G, delta: G)

  // How far what is stored, with what is still to be written, is from what is wanted.
  function Off(t: seq<Mdir>, m: Memory): G {
    Gap(Dirs(t), m.pending, m.delta)
  }

  // A pending move is the deletion of an entry.
  predicate ProperMove(g: G) {
    HasMove(g) ==> MoveItem(g).tag.type3 == TYPE_DELETE
  }

  // The count of orphans is kept out of what is stored.
  ghost predicate Clean(t: seq<Mdir>, m: Memory) {
    OnlyStored(Dirs(t)) && Count(m.delta.tag) == 0 && ProperMove(m.pending)
  }

  // ---- commits, as values ---------------------------------------------------------------------

  // The attribute that finishes a move.
  function MoveItem(g: G): Item {
    Item(Unpack(MoveBits(g.tag)), [])
  }

  // The delta once a move that is pending on the directory is about to be finished.
  function Unmoved(m: Memory, pair: Pair): G {
    if HasMoveHere(m.pending, pair) then NoMove(m.delta, m.pending) else m.delta
  }

  // The attributes of a commit: a move pending on the directory is finished with it.
  function WithMove(d: Mdir, attrs: seq<Item>, m: Memory): seq<Item> {
    attrs + if HasMoveHere(m.pending, d.pair) then [MoveItem(m.pending)] else []
  }

  // What is appended to the log. When there is a delta to be written, the directory's own
  // is folded in.
  function Written(d: Mdir, attrs: seq<Item>, m: Memory): seq<Item> {
    var g := Unmoved(m, d.pair);
    WithMove(d, attrs, m) + (if g != ZERO then [StateItem(Xor(g, DeltaOf(d.log)))] else []) + [SEAL]
  }

  function Committed(t: seq<Mdir>, k: nat, attrs: seq<Item>, m: Memory): (r: seq<Mdir>)
    requires k < |t|
    ensures |r| == |t| && r[k].pair == t[k].pair && forall i :: 0 <= i < |t| && i != k ==> r[i] == t[i]
  {
    t[k := Mdir(t[k].pair, t[k].log + Written(t[k], attrs, m))]
  }

  function After(m: Memory, pair: Pair): Memory {
    Memory(if HasMoveHere(m.pending, pair) then NoMove(m.pending, m.pending) else m.pending, ZERO)
  }

  lemma DirsUpdate(t: seq<Mdir>, k: nat, d: Mdir)
    requires k < |t|
    ensures Dirs(t[k := d]) == Dirs(t)[k := View(d)]
  {
    hide View;
  }

  lemma DirsConcat(s: seq<Mdir>, t: seq<Mdir>)
    ensures Dirs(s + t) == Dirs(s) + Dirs(t)
  {
    hide View;
  }

  // In a directory a commit leaves its delta exclusive-ored with what was there.
  lemma WrittenDelta(d: Mdir, attrs: seq<Item>, m: Memory)
    requires NoState(attrs) && ProperMove(m.pending)
    ensures DeltaOf(d.log + Written(d, attrs, m)) == Xor(Unmoved(m, d.pair), DeltaOf(d.log))
  {
    hide *;
    var g, w := Unmoved(m, d.pair), WithMove(d, attrs, m);
    MoveIsNoState(d, attrs, m);
    DeltaOfOther(d.log, w);
    SealIsNoState();
    WrittenIs(d, attrs, m);
    XorSelf(DeltaOf(d.log));
    if g != ZERO {
      var x := StateItem(Xor(g, DeltaOf(d.log)));
      DeltaOfState(d.log + w, Xor(g, DeltaOf(d.log)));
      DeltaOfOther(d.log + w + [x], [SEAL]);
      assert d.log + (w + [x] + [SEAL]) == d.log + w + [x] + [SEAL];
    } else {
      DeltaOfOther(d.log + w, [SEAL]);
      assert d.log + (w + [] + [SEAL]) == d.log + w + [SEAL];
    }
  }

  lemma WrittenIs(d: Mdir, attrs: seq<Item>, m: Memory)
    ensures var g := Unmoved(m, d.pair);
            Written(d, attrs, m)
            == WithMove(d, attrs, m) + (if g != ZERO then [StateItem(Xor(g, DeltaOf(d.log)))] else []) + [SEAL]
  {
    hide WithMove, Unmoved, Xor, DeltaOf, StateItem;
  }

  lemma SealIsNoState()
    ensures NoState([SEAL])
  {
  }

  lemma MoveIsNoState(d: Mdir, attrs: seq<Item>, m: Memory)
    requires NoState(attrs) && ProperMove(m.pending)
    ensures NoState(WithMove(d, attrs, m))
  {
    hide SamePair, Unpack, MoveBits;
  }

  lemma CommittedDirs(t: seq<Mdir>, k: nat, attrs: seq<Item>, m: Memory)
    requires k < |t| && NoState(attrs) && ProperMove(m.pending)
    ensures Dirs(Committed(t, k, attrs, m)) == Store(Dirs(t), k, Xor(Unmoved(m, t[k].pair), Dirs(t)[k].delta))
  {
    hide Written, Unmoved, DeltaOf, Xor, ProperMove, Dirs;
    var d := Mdir(t[k].pair, t[k].log + Written(t[k], attrs, m));
    DirsUpdate(t, k, d);
    WrittenDelta(t[k], attrs, m);
  }

  // A commit conserves the global state.
  lemma CommitConserves(t: seq<Mdir>, k: nat, attrs: seq<Item>, m: Memory)
    requires k < |t| && NoState(attrs) && ProperMove(m.pending)
    ensures Off(Committed(t, k, attrs, m), After(m, t[k].pair)) == Off(t, m)
  {
    hide *;
    var g, pair := Unmoved(m, t[k].pair), t[k].pair;
    CommittedDirs(t, k, attrs, m);
    FoldOff(t, k, g, m.pending);
    XorSelf(g);
    XorSelf(Off(t, m));
    MoveOff(Dirs(Committed(t, k, attrs, m)), Dirs(t), pair, m, ZERO);
    OffIs(t, m);
    OffIs(Committed(t, k, attrs, m), After(m, pair));
    MemoryIs(m, pair);
  }

  lemma OffIs(t: seq<Mdir>, m: Memory)
    ensures Off(t, m) == Gap(Dirs(t), m.pending, m.delta)
  {
    hide Gap, Dirs;
  }

  lemma MemoryIs(m: Memory, pair: Pair)
    ensures Unmoved(m, pair) == if HasMoveHere(m.pending, pair) then Xor(m.delta, MoveIn(m.pending)) else m.delta
    ensures After(m, pair).delta == ZERO
    ensures After(m, pair).pending
         == if HasMoveHere(m.pending, pair) then Xor(m.pending, MoveIn(m.pending)) else m.pending
  {
    hide HasMoveHere, Xor, MoveIn;
  }

  lemma FoldOff(t: seq<Mdir>, k: nat, g: G, pending: G)
    requires k < |t|
    ensures Gap(Store(Dirs(t), k, Xor(g, Dirs(t)[k].delta)), pending, ZERO) == Gap(Dirs(t), pending, g)
  {
    hide Gap, Xor, Dirs;
    GapFold(Dirs(t), k, pending, g);
  }

  // Finishing a move in memory and on the device cancels out.
  lemma MoveOff(s: seq<Dir>, d: seq<Dir>, pair: Pair, m: Memory, x: G)
    requires Gap(s, m.pending, ZERO) == Gap(d, m.pending, Xor(Unmoved(m, pair), x))
    ensures Gap(s, After(m, pair).pending, ZERO) == Xor(Gap(d, m.pending, m.delta), x)
  {
    hide *;
    MemoryIs(m, pair);
    var c, gap := MoveIn(m.pending), Gap(d, m.pending, m.delta);
    GapDelta(d, m.pending, Unmoved(m, pair), x);
    PersistedMove(m.pending);
    GapPending(s, m.pending, ZERO, c);
    GapDelta(d, m.pending, m.delta, c);
    XorSwap(Xor(gap, c), x, c);
    Twice(gap, c);
  }

  lemma CommitStaysClean(t: seq<Mdir>, k: nat, attrs: seq<Item>, m: Memory)
    requires k < |t| && NoState(attrs) && Clean(t, m)
    ensures Clean(Committed(t, k, attrs, m), After(m, t[k].pair))
  {
    hide *;
    CleanParts(t, m);
    CommittedDirs(t, k, attrs, m);
    MemoryIs(m, t[k].pair);
    UncountedXor(m.delta, MoveIn(m.pending));
    UncountedMove(m.pending);
    StoreUncounted(Dirs(t), k, Unmoved(m, t[k].pair));
    NothingCountedIn();
    ProperAfter(m, t[k].pair);
    IsClean(Committed(t, k, attrs, m), After(m, t[k].pair));
  }

  lemma CleanParts(t: seq<Mdir>, m: Memory)
    requires Clean(t, m)
    ensures OnlyStored(Dirs(t)) && Count(m.delta.tag) == 0 && ProperMove(m.pending)
  {
    hide OnlyStored, Count, ProperMove, Dirs;
  }

  lemma IsClean(t: seq<Mdir>, m: Memory)
    requires OnlyStored(Dirs(t)) && Count(m.delta.tag) == 0 && ProperMove(m.pending)
    ensures Clean(t, m)
  {
    hide OnlyStored, Count, ProperMove, Dirs;
  }

  lemma UncountedMove(g: G)
    ensures Count(MoveIn(g).tag) == 0
  {
    assert Words.And(0x7fff_fc00, 0x3ff) == 0;
    hide Words.And;
    Words.AndAnd(g.tag, 0x7fff_fc00, 0x3ff);
    Words.AndZero(g.tag);
  }

  lemma StoreUncounted(s: seq<Dir>, k: nat, g: G)
    requires k < |s| && OnlyStored(s) && Count(g.tag) == 0
    ensures OnlyStored(Store(s, k, Xor(g, s[k].delta)))
  {
    hide Xor, Count;
    UncountedXor(g, s[k].delta);
  }

  lemma ProperAfter(m: Memory, pair: Pair)
    requires ProperMove(m.pending)
    ensures ProperMove(After(m, pair).pending)
  {
    hide Unpack, MoveBits, NoMove, SamePair;
    if HasMoveHere(m.pending, pair) {
      NoMoveLeft(m.pending);
      NoMoveIsNone(NoMove(m.pending, m.pending));
    }
  }

  lemma NoMoveIsNone(g: G)
    requires MoveIn(g) == MoveIn(ZERO)
    ensures !HasMove(g)
  {
    assert Words.And(0x7fff_fc00, 0x7000_0000) == 0x7000_0000;
    hide Words.And;
    Masks(0);
    Words.AndAnd(g.tag, 0x7fff_fc00, 0x7000_0000);
    Words.AndZero(0x7000_0000);
  }

  // ---- what a commit does to the entries ----------------------------------------------------------

  // The entries after a commit are those that its attributes make.
  lemma CommitReplays(d: Mdir, attrs: seq<Item>, m: Memory)
    ensures Replay(d.log + Written(d, attrs, m)) == Replay(d.log + WithMove(d, attrs, m))
    ensures Settled(d.log + WithMove(d, attrs, m)) ==> Settled(d.log + Written(d, attrs, m))
    ensures Split.TailOf(d.log + Written(d, attrs, m)) == Split.TailOf(d.log + WithMove(d, attrs, m))
  {
    hide *;
    var w, g := WithMove(d, attrs, m), Unmoved(m, d.pair);
    WrittenIs(d, attrs, m);
    if g != ZERO {
      var x := StateItem(Xor(g, DeltaOf(d.log)));
      Split.StateItemIs(d.log + w, Xor(g, DeltaOf(d.log)));
      Split.SealIs(d.log + w + [x]);
      assert d.log + (w + [x] + [SEAL]) == d.log + w + [x] + [SEAL];
    } else {
      Split.SealIs(d.log + w);
      assert d.log + (w + [] + [SEAL]) == d.log + w + [SEAL];
    }
  }

  lemma WithMoveIs(d: Mdir, attrs: seq<Item>, m: Memory)
    ensures WithMove(d, attrs, m) == attrs + if HasMoveHere(m.pending, d.pair) then [MoveItem(m.pending)] else []
  {
    hide HasMoveHere, MoveItem;
  }

  lemma DeleteReplays(log: seq<Item>, id: nat)
    requires Settled(log) && id < |Replay(log)|
    ensures Replay(log + [DeleteAt(id)]) == Remove(Replay(log), id) && Settled(log + [DeleteAt(id)])
  {
    hide Replay, WellFormed;
    ReplaySnoc(log, DeleteAt(id));
  }

  predicate IsStruct(x: Item) {
    TYPE_STRUCT <= x.tag.type3 < TYPE_USERATTR
  }

  // Room, a name and a struct are a new entry.
  lemma EntryMade(s: seq<Entry>, id: nat, name: Item, struct: Item)
    requires AllNamed(s) && id <= |s| < NO_ID && name.IsName() && !name.tag.IsDelete()
    requires struct.tag.id == id && IsStruct(struct)
    ensures var u := Apply(s, CreateAt(id));
            var v := Apply(u, name.At(id));
            && Fits(s, CreateAt(id)) && Fits(u, name.At(id)) && Fits(v, struct)
            && Apply(v, struct) == Insert(s, id, [WriteOf(name), WriteOf(struct)]) && AllNamed(Apply(v, struct))
  {
    var u := s[..id] + [[]] + s[id..];
    assert Apply(s, CreateAt(id)) == u;
    var v := u[id := [WriteOf(name)]];
    assert Apply(u, name.At(id)) == v by {
      assert Extend(u, id + 1) == u;
      assert u[id] + [WriteOf(name)] == [WriteOf(name)];
    }
    assert Apply(v, struct) == v[id := [WriteOf(name), WriteOf(struct)]] by {
      assert v[id] + [WriteOf(struct)] == [WriteOf(name), WriteOf(struct)];
    }
    assert v[id := [WriteOf(name), WriteOf(struct)]] == Insert(s, id, [WriteOf(name), WriteOf(struct)]);
    hide Apply;
  }

  lemma EntryEnters(log: seq<Item>, id: nat, name: Item, struct: Item)
    requires Settled(log) && id <= |Replay(log)| < NO_ID && name.IsName() && !name.tag.IsDelete()
    requires struct.tag.id == id && IsStruct(struct)
    ensures var three := [CreateAt(id), name.At(id), struct];
            && Replay(log + three) == Insert(Replay(log), id, [WriteOf(name), WriteOf(struct)])
            && Settled(log + three) && TailFound(log + three) == TailFound(log) && NoState(three)
  {
    hide *;
    var s := Replay(log);
    var u := Apply(s, CreateAt(id));
    SettledIs(log);
    EntryMade(s, id, name, struct);
    ReplaySnoc(log, CreateAt(id));
    ReplaySnoc(log + [CreateAt(id)], name.At(id));
    ReplaySnoc(log + [CreateAt(id)] + [name.At(id)], struct);
    NoTailInThree(log, id, name, struct);
    var three := [CreateAt(id), name.At(id), struct];
    assert log + three == log + [CreateAt(id)] + [name.At(id)] + [struct];
    SettledIs(log + three);
  }

  // None of the three is a tail.
  lemma NoTailInThree(log: seq<Item>, id: nat, name: Item, struct: Item)
    requires name.IsName() && IsStruct(struct)
    ensures TailFound(log + [CreateAt(id)] + [name.At(id)] + [struct]) == TailFound(log)
    ensures NoState([CreateAt(id), name.At(id), struct])
  {
    hide Split.TailOf;
    NoTailIn(log, CreateAt(id));
    NoTailIn(log + [CreateAt(id)], name.At(id));
    NoTailIn(log + [CreateAt(id)] + [name.At(id)], struct);
  }

  lemma NoTailIn(log: seq<Item>, x: Item)
    requires Kind(x.tag.type3) != TYPE_TAIL
    ensures TailFound(log + [x]) == TailFound(log)
  {
    SnocPrefix(log, x);
  }

  lemma {:induction false} NoTails(log: seq<Item>, xs: seq<Item>)
    requires forall i :: 0 <= i < |xs| ==> Kind(xs[i].tag.type3) != TYPE_TAIL
    ensures TailFound(log + xs) == TailFound(log)
    decreases |xs|
  {
    hide TailFound, Kind;
    if xs == [] {
      assert log + xs == log;
    } else {
      var init, x := xs[..|xs| - 1], xs[|xs| - 1];
      assert forall i :: 0 <= i < |init| ==> init[i] == xs[i];
      NoTails(log, init);
      assert log + xs == log + init + [x];
      NoTailIn(log + init, x);
    }
  }

  lemma FinishedMove(m: Memory, pair: Pair)
    ensures HasMoveHere(m.pending, pair) ==> !HasMove(After(m, pair).pending)
  {
    hide HasMove, NoMove, SamePair;
    if HasMoveHere(m.pending, pair) {
      NoMoveLeft(m.pending);
      NoMoveIsNone(NoMove(m.pending, m.pending));
    }
  }

  lemma NoStateIn(xs: seq<Item>)
    requires xs == []
    ensures NoState(xs)
  {
  }

  // ---- preparing a move or an orphan ------------------------------------------------------------

  function MovePrepared(m: Memory, id: nat, pair: Pair): Memory
    requires id < 0x400
  {
    Memory(XorMove(m.pending, m.pending, id, pair), XorMove(m.delta, m.pending, id, pair))
  }

  function OrphansPrepared(m: Memory, n: bv32): Memory {
    var g := G(Words.Plus(m.pending.tag, n), m.pending.a, m.pending.b);
    var change := OrphanBit(g, HasOrphans(g));
    Memory(Xor(g, change), Xor(m.delta, change))
  }

  lemma MovePreparedKeeps(t: seq<Mdir>, m: Memory, id: nat, pair: Pair)
    requires id < 0x400
    ensures Off(t, MovePrepared(m, id, pair)) == Off(t, m)
    ensures Clean(t, m) ==> Clean(t, MovePrepared(m, id, pair))
    ensures var g := MovePrepared(m, id, pair).pending;
            MoveIn(g) == MoveIn(MoveOf(id, pair)) && OrphanBits(g.tag) == OrphanBits(m.pending.tag)
  {
    hide *;
    var n, c := MovePrepared(m, id, pair), Xor(MoveIn(m.pending), MoveIn(MoveOf(id, pair)));
    PreparedIs(m, id, pair);
    OffIs(t, m);
    OffIs(t, n);
    PersistedChange(m.pending, MoveOf(id, pair));
    GapBoth(Dirs(t), m.pending, m.delta, c);
    MoveReplaced(m.pending, id, pair);
    if Clean(t, m) {
      CleanParts(t, m);
      UncountedMove(m.pending);
      UncountedMove(MoveOf(id, pair));
      UncountedXor(MoveIn(m.pending), MoveIn(MoveOf(id, pair)));
      UncountedXor(m.delta, c);
      ProperPrepared(n.pending, id, pair);
      IsClean(t, n);
    }
  }

  lemma PreparedIs(m: Memory, id: nat, pair: Pair)
    requires id < 0x400
    ensures var c := Xor(MoveIn(m.pending), MoveIn(MoveOf(id, pair)));
            MovePrepared(m, id, pair) == Memory(Xor(m.pending, c), Xor(m.delta, c))
    ensures MovePrepared(m, id, pair).pending == XorMove(m.pending, m.pending, id, pair)
  {
    hide Xor, MoveIn, MoveOf;
  }

  // The attribute that a move in memory stands for depends on its stored bits alone.
  lemma SameMoveItem(g: G, h: G)
    requires MoveIn(g) == MoveIn(h)
    ensures MoveItem(g) == MoveItem(h) && (HasMove(g) <==> HasMove(h))
    ensures forall pair :: HasMoveHere(g, pair) <==> HasMoveHere(h, pair)
  {
    assert Words.And(0x7fff_fc00, 0x7000_0000) == 0x7000_0000;
    hide Words.And, Unpack;
    Words.AndAnd(g.tag, 0x7fff_fc00, 0x7000_0000);
    Words.AndAnd(h.tag, 0x7fff_fc00, 0x7000_0000);
  }

  lemma MoveItemOf(id: nat, pair: Pair)
    requires id < NO_ID
    ensures MoveItem(MoveOf(id, pair)) == DeleteAt(id) && HasMove(MoveOf(id, pair))
    ensures HasMoveHere(MoveOf(id, pair), pair)
  {
    hide Pack, Unpack, MoveBits;
    var t := RawTag.Tag(TYPE_DELETE, id, 0);
    UnpackPack(t);
    NoSizeBits(Pack(t));
    DeleteHasMove(id);
  }

  lemma NoSizeBits(w: bv32)
    requires Unpack(w).size == 0 && IsValid(w)
    ensures MoveBits(w) == w
  {
    assert (0 as bv10) as nat == 0;
    SameField10(SizeBits(w), 0);
    AllMoveBits(w);
  }

  lemma AllMoveBits(w: bv32)
    requires (w & 0x3ff) as bv10 == 0 && w & 0x8000_0000 == 0
    ensures w & 0x7fff_fc00 == w
  {
  }

  lemma DeleteHasMove(id: nat)
    requires id < 0x400
    ensures Words.And(Pack(RawTag.Tag(TYPE_DELETE, id, 0)), 0x7000_0000) != 0
  {
    UnpackPack(RawTag.Tag(TYPE_DELETE, id, 0));
    KindBits(Pack(RawTag.Tag(TYPE_DELETE, id, 0)));
    hide Pack;
  }

  lemma KindBits(w: bv32)
    requires TypeBits(w) as nat == TYPE_DELETE
    ensures w & 0x7000_0000 != 0
  {
    FieldOfDelete(TypeBits(w));
    KindRaw(w);
  }

  lemma FieldOfDelete(b: bv11)
    requires b as nat == TYPE_DELETE
    ensures b == 0x4ff
  {
    assert (0x4ff as bv11) as nat == 0x4ff;
    SameField11(b, 0x4ff);
  }

  lemma KindRaw(w: bv32)
    requires ((w >> 20) & 0x7ff) as bv11 == 0x4ff
    ensures w & 0x7000_0000 != 0
  {
  }

  lemma ProperPrepared(g: G, id: nat, pair: Pair)
    requires id < 0x400 && MoveIn(g) == MoveIn(MoveOf(id, pair))
    ensures ProperMove(g)
  {
    hide *;
    if id == NO_ID {
      NoMoveOf(pair);
      NoMoveIsNone(g);
      IsProper(g);
    } else {
      IdIs(id);
      MoveItemOf(id, pair);
      SameMoveItem(g, MoveOf(id, pair));
      IsProper(g);
    }
  }

  lemma IdIs(id: nat)
    requires id < 0x400 && id != NO_ID
    ensures id < NO_ID && DeleteAt(id).tag.type3 == TYPE_DELETE
  {
  }

  lemma NoMoveOf(pair: Pair)
    ensures MoveOf(NO_ID, pair) == ZERO
  {
  }

  lemma IsProper(g: G)
    ensures !HasMove(g) || MoveItem(g).tag.type3 == TYPE_DELETE ==> ProperMove(g)
  {
    hide HasMove, MoveItem;
  }

  // Preparing for orphans keeps the global state exactly when the count does not run out of
  // its ten bits; then the bit that is stored says whether there are orphans.
  lemma OrphansPreparedKeeps(t: seq<Mdir>, m: Memory, n: bv32)
    ensures Off(t, OrphansPrepared(m, n)) == Off(t, m)
            <==> Stored(Words.Plus(m.pending.tag, n)) == Stored(m.pending.tag)
    ensures var r := OrphansPrepared(m, n).pending;
            && Count(r.tag) == Count(Words.Plus(m.pending.tag, n))
            && TopBit(r.tag) == (if HasOrphans(r) then 0x8000_0000 else 0)
            && (Stored(Words.Plus(m.pending.tag, n)) == Stored(m.pending.tag) ==> MoveIn(r) == MoveIn(m.pending))
    ensures Clean(t, m) && Stored(Words.Plus(m.pending.tag, n)) == Stored(m.pending.tag)
            ==> Clean(t, OrphansPrepared(m, n))
  {
    hide *;
    var g := G(Words.Plus(m.pending.tag, n), m.pending.a, m.pending.b);
    var r, change := OrphansPrepared(m, n), OrphanBit(g, HasOrphans(g));
    OrphansPreparedIs(m, n);
    OffIs(t, m);
    OffIs(t, r);
    PersistedOrphanBit(g, HasOrphans(g));
    OrphanBitSet(g, HasOrphans(g));
    GapBoth(Dirs(t), g, m.delta, change);
    GapOfTag(Dirs(t), m.pending, g, m.delta);
    if Stored(g.tag) == Stored(m.pending.tag) {
      SameStored(Dirs(t), m.pending, m.delta, g.tag);
      SameMoveItem(r.pending, m.pending);
      if Clean(t, m) {
        CleanParts(t, m);
        UncountedOrphanBit(g, HasOrphans(g));
        UncountedXor(m.delta, change);
        SameProper(m.pending, r.pending);
        IsClean(t, r);
      }
    }
  }

  lemma OrphansPreparedIs(m: Memory, n: bv32)
    ensures var g := G(Words.Plus(m.pending.tag, n), m.pending.a, m.pending.b);
            var change := OrphanBit(g, HasOrphans(g));
            OrphansPrepared(m, n) == Memory(Xor(g, change), Xor(m.delta, change))
  {
    hide Words.Plus, OrphanBit, HasOrphans, Xor;
  }

  lemma GapOfTag(s: seq<Dir>, g: G, h: G, delta: G)
    requires g.a == h.a && g.b == h.b
    ensures Gap(s, g, delta) == Gap(s, h, delta) <==> Stored(g.tag) == Stored(h.tag)
  {
    hide Xor, Stored, Total;
    XorBoth(Persisted(g), Persisted(h), Xor(Total(s), delta));
  }

  lemma UncountedOrphanBit(g: G, orphans: bool)
    ensures Count(OrphanBit(g, orphans).tag) == 0
  {
    assert Words.And(0x8000_0000, 0x3ff) == 0;
    hide Words.And, Words.Xor;
    var w := Words.Xor(g.tag, if orphans then 0x8000_0000 else 0);
    Words.AndAnd(w, 0x8000_0000, 0x3ff);
    Words.AndZero(w);
  }

  lemma SameProper(g: G, h: G)
    requires MoveItem(g) == MoveItem(h) && (HasMove(g) <==> HasMove(h))
    ensures ProperMove(g) ==> ProperMove(h)
  {
    hide HasMove, MoveItem;
  }

  // No move is pending on any of the directories.
  predicate NowhereMoving(g: G, t: seq<Mdir>) {
    forall i :: 0 <= i < |t| ==> !HasMoveHere(g, t[i].pair)
  }

  lemma NotMovingAt(g: G, t: seq<Mdir>, i: nat)
    requires NowhereMoving(g, t) && i < |t|
    ensures !HasMoveHere(g, t[i].pair)
  {
    hide HasMoveHere;
  }

  lemma NoneMoving(g: G, t: seq<Mdir>)
    requires !HasMove(g)
    ensures NowhereMoving(g, t)
  {
    hide HasMove;
  }

  // ---- mounting -----------------------------------------------------------------------------------

  // What a mount makes of the device: the sum of the deltas, with one orphan counted when
  // the stored bit says that there are some.
  function Mounted(t: seq<Mdir>): G {
    var g := Total(Dirs(t));
    G(if IsValid(g.tag) then g.tag else Words.Plus(g.tag, 1), g.a, g.b)
  }

  lemma MountedState(t: seq<Mdir>)
    requires OnlyStored(Dirs(t))
    ensures Off(t, Memory(Mounted(t), ZERO)) == ZERO
    ensures HasOrphans(Mounted(t)) <==> TopBit(Total(Dirs(t)).tag) != 0
    ensures Count(Mounted(t).tag) == if HasOrphans(Mounted(t)) then 1 else 0
    ensures MoveIn(Mounted(t)) == MoveIn(Total(Dirs(t))) && TopBit(Mounted(t).tag) == TopBit(Total(Dirs(t)).tag)
  {
    hide *;
    var g := Total(Dirs(t));
    MountedIs(t);
    OffIs(t, Memory(Mounted(t), ZERO));
    TotalUncounted(Dirs(t));
    FirstOrphan(g.tag);
    ValidIsUnmarked(g.tag);
    HasOrphansIs(Mounted(t));
    MountGap(Dirs(t), g, Mounted(t));
    SameStored(Dirs(t), g, ZERO, Mounted(t).tag);
  }

  lemma MountedIs(t: seq<Mdir>)
    ensures var g := Total(Dirs(t)); Mounted(t) == G(if IsValid(g.tag) then g.tag else Words.Plus(g.tag, 1), g.a, g.b)
  {
    hide Total, Dirs, IsValid, Words.Plus;
  }

  // What a device has been left with when a commit is done: the sum of its deltas is what
  // was wanted, without the count.
  lemma StoredState(t: seq<Mdir>, m: Memory)
    requires Off(t, m) == ZERO && m.delta == ZERO
    ensures Total(Dirs(t)) == Persisted(m.pending)
    ensures MoveIn(Total(Dirs(t))) == MoveIn(m.pending) && TopBit(Total(Dirs(t)).tag) == TopBit(m.pending.tag)
  {
    hide *;
    OffIs(t, m);
    GapZero(Dirs(t), m.pending);
    PersistedParts(m.pending);
  }

  lemma GapZero(s: seq<Dir>, g: G)
    requires Gap(s, g, ZERO) == ZERO
    ensures Total(s) == Persisted(g)
  {
    hide Xor, Persisted, Total;
    XorSelf(Total(s));
    XorBoth(Persisted(g), Total(s), Total(s));
  }

  lemma PersistedParts(g: G)
    ensures MoveIn(Persisted(g)) == MoveIn(g) && TopBit(Persisted(g).tag) == TopBit(g.tag)
  {
    Meets();
    assert Words.And(0xffff_fc00, 0x8000_0000) == 0x8000_0000;
    hide Words.And;
    Words.AndAnd(g.tag, 0xffff_fc00, 0x7fff_fc00);
    Words.AndAnd(g.tag, 0xffff_fc00, 0x8000_0000);
  }

  // ---- dropping a directory -------------------------------------------------------------------------

  const NULL_PAIR := Pair(0xffff_ffff, 0xffff_ffff)

  // The tail that a fetch of the log finds; without one the thread ends.
  function TailFound(log: seq<Item>): Split.Tail {
    match Split.TailOf(log)
    case Some(tail) => tail
    case None => Split.Tail(NULL_PAIR, false)
  }

  lemma TailFoundIs(log: seq<Item>)
    ensures TailFound(log)
         == match Split.TailOf(log) { case Some(tail) => tail case None => Split.Tail(NULL_PAIR, false) }
  {
    hide Split.TailOf;
  }

  // lfs_dir_drop: the directory after p leaves the thread. Pair p takes over its tail and
  // inherits its delta.
  function Inherited(t: seq<Mdir>, p: nat, m: Memory): Memory
    requires p + 1 < |t|
  {
    Memory(m.pending, Xor(m.delta, DeltaOf(t[p + 1].log)))
  }

  function Dropped(t: seq<Mdir>, p: nat, m: Memory): (r: seq<Mdir>)
    requires p + 1 < |t|
    ensures |r| == |t| - 1 && r[p].pair == t[p].pair
    ensures forall i :: 0 <= i < |r| && i != p ==> r[i] == t[if i < p then i else i + 1]
  {
    var u := Committed(t, p, [Split.TailItem(TailFound(t[p + 1].log))], Inherited(t, p, m));
    u[..p + 1] + u[p + 2..]
  }

  // The pair before takes over the tail and keeps its entries.
  lemma DroppedEntries(t: seq<Mdir>, p: nat, m: Memory)
    requires p + 1 < |t| && !HasMoveHere(m.pending, t[p].pair)
    ensures var u := Dropped(t, p, m);
            && Replay(u[p].log) == Replay(t[p].log) && TailFound(u[p].log) == TailFound(t[p + 1].log)
            && (Settled(t[p].log) ==> Settled(u[p].log))
  {
    hide *;
    var tail, n := TailFound(t[p + 1].log), Inherited(t, p, m);
    var attrs := [Split.TailItem(tail)];
    InheritedIs(t, p, m);
    DroppedIs(t, p, m);
    CommittedIs(t, p, attrs, n);
    CommitReplays(t[p], attrs, n);
    WithMoveIs(t[p], attrs, n);
    assert attrs + [] == attrs;
    Split.TailItemIs(t[p].log, tail);
    TailFoundIs(t[p].log + Written(t[p], attrs, n));
  }

  lemma DropConserves(t: seq<Mdir>, p: nat, m: Memory)
    requires p + 1 < |t| && Clean(t, m)
    ensures Off(Dropped(t, p, m), After(m, t[p].pair)) == Off(t, m)
    ensures Clean(Dropped(t, p, m), After(m, t[p].pair))
  {
    hide *;
    CleanParts(t, m);
    var attrs, n, d := [Split.TailItem(TailFound(t[p + 1].log))], Inherited(t, p, m), DeltaOf(t[p + 1].log);
    TailIsNoState(TailFound(t[p + 1].log));
    InheritedIs(t, p, m);
    StoredUncounted(t, p + 1);
    UncountedXor(m.delta, d);
    IsClean(t, n);
    CommitConserves(t, p, attrs, n);
    CommitStaysClean(t, p, attrs, n);
    var u := Committed(t, p, attrs, n);
    OffIs(t, m);
    OffIs(t, n);
    GapDelta(Dirs(t), m.pending, m.delta, d);
    Twice(Gap(Dirs(t), m.pending, m.delta), d);
    RemovedOff(u, p + 1, After(n, t[p].pair));
    DroppedIs(t, p, m);
    SameAfter(m, n, t[p].pair);
  }

  lemma DroppedIs(t: seq<Mdir>, p: nat, m: Memory)
    requires p + 1 < |t|
    ensures var u := Committed(t, p, [Split.TailItem(TailFound(t[p + 1].log))], Inherited(t, p, m));
            Dropped(t, p, m) == u[..p + 1] + u[p + 2..]
  {
    hide Committed, TailFound, Inherited;
  }

  lemma InheritedIs(t: seq<Mdir>, p: nat, m: Memory)
    requires p + 1 < |t|
    ensures Inherited(t, p, m) == Memory(m.pending, Xor(m.delta, DeltaOf(t[p + 1].log)))
  {
    hide Xor, DeltaOf;
  }

  lemma SameAfter(m: Memory, n: Memory, pair: Pair)
    requires m.pending == n.pending
    ensures After(m, pair) == After(n, pair)
  {
    hide HasMoveHere, NoMove;
  }

  lemma TailIsNoState(tail: Split.Tail)
    ensures NoState([Split.TailItem(tail)])
  {
  }

  lemma StoredUncounted(t: seq<Mdir>, k: nat)
    requires k < |t| && OnlyStored(Dirs(t))
    ensures Count(DeltaOf(t[k].log).tag) == 0
  {
    hide Count, DeltaOf;
    assert Dirs(t)[k] == View(t[k]);
  }

  lemma RemovedOff(t: seq<Mdir>, k: nat, m: Memory)
    requires k < |t|
    ensures Off(t[..k] + t[k + 1..], m) == Xor(Off(t, m), DeltaOf(t[k].log))
    ensures Clean(t, m) ==> Clean(t[..k] + t[k + 1..], m)
  {
    hide *;
    RemovedDirs(t, k);
    OffIs(t, m);
    OffIs(t[..k] + t[k + 1..], m);
    GapRemove(Dirs(t), k, m.pending, m.delta);
    if Clean(t, m) {
      CleanParts(t, m);
      RemovedUncounted(Dirs(t), k);
      IsClean(t[..k] + t[k + 1..], m);
    }
  }

  lemma RemovedDirs(t: seq<Mdir>, k: nat)
    requires k < |t|
    ensures Dirs(t[..k] + t[k + 1..]) == Dirs(t)[..k] + Dirs(t)[k + 1..] && Dirs(t)[k].delta == DeltaOf(t[k].log)
  {
    hide DeltaOf;
  }

  lemma RemovedUncounted(s: seq<Dir>, k: nat)
    requires k < |s| && OnlyStored(s)
    ensures OnlyStored(s[..k] + s[k + 1..])
  {
    hide Count;
  }

  // A directory that joins the thread brings its delta with it.
  lemma InsertedOff(t: seq<Mdir>, k: nat, d: Mdir, m: Memory)
    requires k < |t|
    ensures Off(t[..k + 1] + [d] + t[k + 1..], m) == Xor(Off(t, m), DeltaOf(d.log))
    ensures Clean(t, m) && Count(DeltaOf(d.log).tag) == 0 ==> Clean(t[..k + 1] + [d] + t[k + 1..], m)
  {
    hide *;
    var u := t[..k + 1] + [d] + t[k + 1..];
    InsertedAt(t, k, d);
    RemovedOff(u, k + 1, m);
    Twice(Off(u, m), DeltaOf(d.log));
    if Clean(t, m) && Count(DeltaOf(d.log).tag) == 0 {
      CleanParts(t, m);
      InsertedUncounted(t, k, d);
      IsClean(u, m);
    }
  }

  lemma InsertedAt<T>(t: seq<T>, k: nat, d: T)
    requires k < |t|
    ensures var u := t[..k + 1] + [d] + t[k + 1..];
            |u| == |t| + 1 && u[k + 1] == d && u[..k + 1] + u[k + 2..] == t
  {
    var u := t[..k + 1] + [d] + t[k + 1..];
    assert u[..k + 1] == t[..k + 1] && u[k + 2..] == t[k + 1..];
  }

  lemma InsertedUncounted(t: seq<Mdir>, k: nat, d: Mdir)
    requires k < |t| && OnlyStored(Dirs(t)) && Count(DeltaOf(d.log).tag) == 0
    ensures OnlyStored(Dirs(t[..k + 1] + [d] + t[k + 1..]))
  {
    hide Count, DeltaOf;
    var u := t[..k + 1] + [d] + t[k + 1..];
    forall i | 0 <= i < |u|
      ensures Count(Dirs(u)[i].delta.tag) == 0
    {
      if i != k + 1 {
        assert u[i] == t[if i <= k then i else i - 1];
        assert Dirs(u)[i] == Dirs(t)[if i <= k then i else i - 1];
      }
    }
  }

  // ---- dropping instead of committing ----------------------------------------------------------------

  predicate HasDelete(xs: seq<Item>) {
    exists i :: 0 <= i < |xs| && xs[i].tag.type3 == TYPE_DELETE
  }

  // The commit deletes the last entry of a pair that is not the first of its directory.
  predicate Empties(t: seq<Mdir>, k: nat, attrs: seq<Item>, m: Memory) {
    && 0 < k < |t| && TailFound(t[k - 1].log).split
    && HasDelete(WithMove(t[k], attrs, m)) && Replay(t[k].log + WithMove(t[k], attrs, m)) == []
  }

  // What lfs_dir_commit makes of the thread, when there is room: such a pair is dropped, and
  // with it the commit.
  function Performed(t: seq<Mdir>, k: nat, attrs: seq<Item>, m: Memory): seq<Mdir>
    requires k < |t|
  {
    if Empties(t, k, attrs, m) then Dropped(t, k - 1, Memory(m.pending, Unmoved(m, t[k].pair)))
    else Committed(t, k, attrs, m)
  }

  // The pair that is written.
  function Target(t: seq<Mdir>, k: nat, attrs: seq<Item>, m: Memory): Pair
    requires k < |t|
  {
    if Empties(t, k, attrs, m) then t[k - 1].pair else t[k].pair
  }

  lemma PerformedIs(t: seq<Mdir>, k: nat, attrs: seq<Item>, m: Memory)
    requires k < |t|
    ensures Empties(t, k, attrs, m) ==>
              && 0 < k && Target(t, k, attrs, m) == t[k - 1].pair
              && Performed(t, k, attrs, m) == Dropped(t, k - 1, Memory(m.pending, Unmoved(m, t[k].pair)))
    ensures !Empties(t, k, attrs, m) ==>
              Performed(t, k, attrs, m) == Committed(t, k, attrs, m) && Target(t, k, attrs, m) == t[k].pair
  {
    hide WithMove, HasDelete, Replay, TailFound, Dropped, Unmoved, Committed;
  }

  // Dropping finishes a move that was pending on the directory on the device, but not in
  // memory.
  lemma PerformedConserves(t: seq<Mdir>, k: nat, attrs: seq<Item>, m: Memory)
    requires k < |t| && NoState(attrs) && Clean(t, m)
    ensures var u, n := Performed(t, k, attrs, m), After(m, Target(t, k, attrs, m));
            && Clean(u, n)
            && Off(u, n) == if Empties(t, k, attrs, m) && HasMoveHere(m.pending, t[k].pair)
                            then Xor(Off(t, m), MoveIn(m.pending)) else Off(t, m)
  {
    hide *;
    PerformedIs(t, k, attrs, m);
    CleanParts(t, m);
    if Empties(t, k, attrs, m) {
      var n := Memory(m.pending, Unmoved(m, t[k].pair));
      UnmovedOff(t, k, m);
      DropConserves(t, k - 1, n);
      SameAfter(m, n, t[k - 1].pair);
    } else {
      CommitConserves(t, k, attrs, m);
      CommitStaysClean(t, k, attrs, m);
    }
  }

  // Either way what is stored is then what is wanted without the move.
  lemma PerformedFinishes(t: seq<Mdir>, k: nat, attrs: seq<Item>, m: Memory)
    requires k < |t| && NoState(attrs) && Clean(t, m) && HasMoveHere(m.pending, t[k].pair)
    requires 0 < k ==> !HasMoveHere(m.pending, t[k - 1].pair)
    ensures var u, n := Performed(t, k, attrs, m), After(m, t[k].pair);
            Clean(u, n) && Off(u, n) == Off(t, m) && !HasMove(n.pending) && n.delta == ZERO
  {
    hide *;
    PerformedIs(t, k, attrs, m);
    PerformedConserves(t, k, attrs, m);
    FinishedMove(m, t[k].pair);
    MemoryIs(m, t[k].pair);
    if Empties(t, k, attrs, m) {
      MemoryIs(m, t[k - 1].pair);
      FinishedInMemory(Performed(t, k, attrs, m), m, t[k].pair, Off(t, m));
    }
  }

  lemma FinishedInMemory(u: seq<Mdir>, m: Memory, pair: Pair, off: G)
    requires HasMoveHere(m.pending, pair) && Clean(u, Memory(m.pending, ZERO))
    requires Off(u, Memory(m.pending, ZERO)) == Xor(off, MoveIn(m.pending))
    ensures Off(u, After(m, pair)) == off && Clean(u, After(m, pair))
  {
    hide *;
    var n := Memory(m.pending, ZERO);
    MemoryIs(m, pair);
    OffIs(u, n);
    OffIs(u, After(m, pair));
    PersistedMove(m.pending);
    GapPending(Dirs(u), m.pending, ZERO, MoveIn(m.pending));
    Twice(off, MoveIn(m.pending));
    CleanParts(u, n);
    ProperAfter(m, pair);
    IsClean(u, After(m, pair));
  }

  // ---- room for a commit -----------------------------------------------------------------------------

  // Where the next commit to a block begins: every commit ends with its checksum, at a
  // multiple of the program unit.
  function EndOf(log: seq<Item>, progSize: nat): nat
    requires progSize > 0
  {
    if log == [] then 4
    else
      var x, at := log[|log| - 1], EndOf(log[..|log| - 1], progSize);
      if Kind(x.tag.type3) == TYPE_CRC then AlignUp(at + 8, progSize) else at + x.tag.Dsize()
  }

  // The sizes of the device, whether an append is tried at all (what follows the last commit of
  // the block is erased, or there are 255 entries and more), and the pairs that the allocator
  // can hand out.
  datatype Room = Room(blockSize: nat, progSize: nat, erased: bool, unused: set<Pair>) {
    predicate Valid() {
      blockSize >= 36 && progSize > 0
    }
  }

  predicate HasPlace(room: Room, d: Mdir, items: seq<Item>)
    requires room.Valid()
  {
    items == [] || EndOf(d.log, room.progSize) + Split.SizeOf(items) + 8 <= room.blockSize
  }

  predicate HasPlaceWithState(room: Room, d: Mdir, items: seq<Item>)
    requires room.Valid()
  {
    EndOf(d.log, room.progSize) + Split.SizeOf(items) + 16 + 8 <= room.blockSize
  }

  // The commit is appended to the log.
  predicate Appends(room: Room, d: Mdir, attrs: seq<Item>, m: Memory)
    requires room.Valid()
  {
    var items := WithMove(d, attrs, m);
    room.erased && HasPlace(room, d, items) && (Unmoved(m, d.pair) != ZERO ==> HasPlaceWithState(room, d, items))
  }

  // The attributes have room, but the record of the global state that is to follow has not.
  predicate Late(room: Room, d: Mdir, attrs: seq<Item>, m: Memory)
    requires room.Valid()
  {
    var items := WithMove(d, attrs, m);
    room.erased && HasPlace(room, d, items) && Unmoved(m, d.pair) != ZERO && !HasPlaceWithState(room, d, items)
  }

  // What is to be written once appending has been given up. When that was late, the delta of
  // the directory has been folded in.
  function Tried(room: Room, d: Mdir, attrs: seq<Item>, m: Memory): G
    requires room.Valid()
  {
    if Late(room, d, attrs, m) then Xor(Unmoved(m, d.pair), DeltaOf(d.log)) else Unmoved(m, d.pair)
  }

  // What the compaction comes to that follows.
  ghost function Packed(room: Room, d: Mdir, attrs: seq<Item>, m: Memory): Split.Packing
    requires room.Valid()
  {
    var log := d.log + WithMove(d, attrs, m);
    Split.Compacted(room.blockSize, room.progSize, OnDisk(log), 0, |Replay(log)|, Split.TailOf(log).Some?,
                    |room.unused|, Tried(room, d, attrs, m), DeltaOf(d.log))
  }

  // The commit is appended, or else the directory is compacted.
  ghost predicate Succeeds(room: Room, d: Mdir, attrs: seq<Item>, m: Memory)
    requires room.Valid()
  {
    Appends(room, d, attrs, m) || Packed(room, d, attrs, m).ok
  }

  // ---- a commit that fails ---------------------------------------------------------------------------

  // The terms by which a failed commit changes the delta: the move that it was to finish has
  // been taken out of it, but not out of what is wanted ...
  function MoveTerm(d: Mdir, m: Memory): G {
    if HasMoveHere(m.pending, d.pair) then MoveIn(m.pending) else ZERO
  }

  // ... the delta of the directory has been folded in by an append that ran out of room late ...
  function LateTerm(room: Room, d: Mdir, attrs: seq<Item>, m: Memory): G
    requires room.Valid()
  {
    if Late(room, d, attrs, m) then DeltaOf(d.log) else ZERO
  }

  // ... and by a compaction that got as far as writing the directory itself ...
  ghost function FoldTerm(room: Room, d: Mdir, attrs: seq<Item>, m: Memory): G
    requires room.Valid()
  {
    if Packed(room, d, attrs, m).folded then DeltaOf(d.log) else ZERO
  }

  // ... and what there was to write has gone into a pair that was given up.
  ghost function TakenTerm(room: Room, d: Mdir, attrs: seq<Item>, m: Memory): G
    requires room.Valid()
  {
    if Packed(room, d, attrs, m).written then Xor(Xor(m.delta, MoveTerm(d, m)), LateTerm(room, d, attrs, m)) else ZERO
  }

  ghost function FailureTerms(room: Room, d: Mdir, attrs: seq<Item>, m: Memory): G
    requires room.Valid()
  {
    Xor(Xor(Xor(MoveTerm(d, m), LateTerm(room, d, attrs, m)), FoldTerm(room, d, attrs, m)),
        TakenTerm(room, d, attrs, m))
  }

  // A failed commit leaves the thread as it was, and the delta changed by these four.
  lemma FailedDelta(room: Room, d: Mdir, attrs: seq<Item>, m: Memory)
    requires room.Valid() && !Succeeds(room, d, attrs, m)
    ensures Packed(room, d, attrs, m).delta == Xor(m.delta, FailureTerms(room, d, attrs, m))
  {
    hide *;
    var log, tried, own := d.log + WithMove(d, attrs, m), Tried(room, d, attrs, m), DeltaOf(d.log);
    var r := Packed(room, d, attrs, m);
    Sizes(room);
    Split.PackingDelta(room.blockSize, room.progSize, OnDisk(log), 0, |Replay(log)|, Split.TailOf(log).Some?,
                       |room.unused|, tried, own);
    PackedIs(room, d, attrs, m);
    TermsAre(room, d, attrs, m);
    MemoryIs(m, d.pair);
    var a, b, c := MoveTerm(d, m), LateTerm(room, d, attrs, m), FoldTerm(room, d, attrs, m);
    XorSelf(m.delta);
    XorSelf(Xor(m.delta, a));
    assert tried == Xor(Xor(m.delta, a), b);
    FourTerms(m.delta, a, b, c);
  }

  lemma FourTerms(g: G, a: G, b: G, c: G)
    ensures Xor(g, Xor(Xor(Xor(a, b), c), ZERO)) == Xor(Xor(Xor(g, a), b), c)
    ensures Xor(g, Xor(Xor(Xor(a, b), c), Xor(Xor(g, a), b))) == Xor(ZERO, c)
  {
    hide Xor;
    XorSelf(Xor(Xor(a, b), c));
    XorAssoc(g, Xor(a, b), c);
    XorAssoc(g, a, b);
    var t := Xor(Xor(g, a), b);
    XorSwap(Xor(a, b), c, t);
    XorAssoc(g, Xor(Xor(a, b), t), c);
    XorAssoc(g, Xor(a, b), t);
    XorSelf(t);
  }

  lemma PackedIs(room: Room, d: Mdir, attrs: seq<Item>, m: Memory)
    requires room.Valid()
    ensures var log := d.log + WithMove(d, attrs, m);
            Packed(room, d, attrs, m)
            == Split.Compacted(room.blockSize, room.progSize, OnDisk(log), 0, |Replay(log)|, Split.TailOf(log).Some?,
                               |room.unused|, Tried(room, d, attrs, m), DeltaOf(d.log))
    ensures Succeeds(room, d, attrs, m) <==> Appends(room, d, attrs, m) || Packed(room, d, attrs, m).ok
  {
    hide WithMove, Replay, Tried, DeltaOf, Split.TailOf, Split.Compacted, Appends;
  }

  lemma TermsAre(room: Room, d: Mdir, attrs: seq<Item>, m: Memory)
    requires room.Valid()
    ensures Unmoved(m, d.pair) == if HasMoveHere(m.pending, d.pair) then Xor(m.delta, MoveTerm(d, m)) else m.delta
    ensures !HasMoveHere(m.pending, d.pair) ==> MoveTerm(d, m) == ZERO
    ensures Late(room, d, attrs, m) ==> Tried(room, d, attrs, m) == Xor(Unmoved(m, d.pair), LateTerm(room, d, attrs, m))
    ensures !Late(room, d, attrs, m) ==>
              LateTerm(room, d, attrs, m) == ZERO && Tried(room, d, attrs, m) == Unmoved(m, d.pair)
    ensures var r, c := Packed(room, d, attrs, m), FoldTerm(room, d, attrs, m);
            && c == (if r.folded then DeltaOf(d.log) else ZERO)
            && FailureTerms(room, d, attrs, m)
            == Xor(Xor(Xor(MoveTerm(d, m), LateTerm(room, d, attrs, m)), c),
                   if r.written then Xor(Xor(m.delta, MoveTerm(d, m)), LateTerm(room, d, attrs, m)) else ZERO)
  {
    hide Late, HasMoveHere, MoveIn, Xor, DeltaOf, Packed;
    MemoryIs(m, d.pair);
  }

  // The global state survives a failed commit exactly when the four cancel out.
  lemma FailureConserves(t: seq<Mdir>, room: Room, d: Mdir, attrs: seq<Item>, m: Memory)
    requires room.Valid() && !Succeeds(room, d, attrs, m)
    ensures var n := Memory(m.pending, Packed(room, d, attrs, m).delta);
            && Off(t, n) == Xor(Off(t, m), FailureTerms(room, d, attrs, m))
            && (Off(t, n) == Off(t, m) <==> FailureTerms(room, d, attrs, m) == ZERO)
  {
    hide *;
    var x := FailureTerms(room, d, attrs, m);
    FailedDelta(room, d, attrs, m);
    OffIs(t, m);
    OffIs(t, Memory(m.pending, Xor(m.delta, x)));
    GapDelta(Dirs(t), m.pending, m.delta, x);
    OffTwice(Off(t, m), x);
  }

  // Without an unused pair, and without a move to be finished: exactly when the directory has
  // no delta of its own, or it is folded in twice, or not at all. It is folded in by the
  // compaction unless there are several entries, too big for one block.
  lemma FailsWithoutPairs(room: Room, d: Mdir, attrs: seq<Item>, m: Memory)
    requires room.Valid() && !Succeeds(room, d, attrs, m) && room.unused == {} && !HasMoveHere(m.pending, d.pair)
    ensures var log := d.log + attrs;
            FailureTerms(room, d, attrs, m) == ZERO
            <==> (DeltaOf(d.log) == ZERO
                  || (Late(room, d, attrs, m)
                      <==> |Replay(log)| <= 1 || Split.RangeSize(OnDisk(log), 0, |Replay(log)|) <= room.blockSize - 36))
  {
    hide *;
    var log, own := d.log + attrs, DeltaOf(d.log);
    WithMoveIs(d, attrs, m);
    assert attrs + [] == attrs;
    PackedIs(room, d, attrs, m);
    NonePaired(room.unused);
    Sizes(room);
    Split.NoneUnused(room.blockSize, room.progSize, OnDisk(log), 0, |Replay(log)|, Split.TailOf(log).Some?,
                     Tried(room, d, attrs, m), own);
    TermsAre(room, d, attrs, m);
    LateIs(room, d, attrs, m);
    XorSelf(ZERO);
    XorSelf(own);
  }

  lemma NonePaired(s: set<Pair>)
    ensures s == {} ==> |s| == 0
  {
  }

  lemma LateIs(room: Room, d: Mdir, attrs: seq<Item>, m: Memory)
    requires room.Valid()
    ensures LateTerm(room, d, attrs, m) == if Late(room, d, attrs, m) then DeltaOf(d.log) else ZERO
  {
    hide Late, DeltaOf;
  }

  // ---- the pairs that a compaction makes -------------------------------------------------------------

  function MdirsOf(logs: map<Pair, seq<Item>>, chain: seq<Pair>): (r: seq<Mdir>)
    requires forall i :: 0 <= i < |chain| ==> chain[i] in logs
    ensures |r| == |chain| && forall i :: 0 <= i < |r| ==> r[i] == Mdir(chain[i], logs[chain[i]])
  {
    seq(|chain|, i requires 0 <= i < |chain| => Mdir(chain[i], logs[chain[i]]))
  }

  lemma {:induction false} MdirsTotal(logs: map<Pair, seq<Item>>, chain: seq<Pair>)
    requires forall i :: 0 <= i < |chain| ==> chain[i] in logs
    ensures Total(Dirs(MdirsOf(logs, chain))) == Split.ChainTotal(logs, chain)
    decreases |chain|
  {
    hide Xor, Total, DeltaOf;
    if chain == [] {
      assert Dirs(MdirsOf(logs, chain)) == [];
      TotalNone();
    } else {
      var d := Mdir(chain[0], logs[chain[0]]);
      MdirsTotal(logs, chain[1..]);
      assert MdirsOf(logs, chain) == [d] + MdirsOf(logs, chain[1..]);
      DirsConcat([d], MdirsOf(logs, chain[1..]));
      OneDir(d);
      TotalConcat([View(d)], Dirs(MdirsOf(logs, chain[1..])));
      TotalOne(View(d));
    }
  }

  lemma OneDir(d: Mdir)
    ensures Dirs([d]) == [View(d)] && View(d) == Dir(d.pair, DeltaOf(d.log))
  {
    hide DeltaOf;
  }

  lemma DirsAt(t: seq<Mdir>, k: nat)
    requires k < |t|
    ensures Dirs(t)[k] == View(t[k]) == Dir(t[k].pair, DeltaOf(t[k].log))
  {
    hide DeltaOf;
  }

  lemma ReplacedDirs(t: seq<Mdir>, k: nat, more: seq<Mdir>)
    requires k < |t|
    ensures Dirs(t[..k] + more + t[k + 1..]) == Dirs(t)[..k] + Dirs(more) + Dirs(t)[k + 1..]
  {
    hide View;
  }

  // A directory is replaced by the pairs it has been split into.
  lemma ReplacedOff(t: seq<Mdir>, k: nat, logs: map<Pair, seq<Item>>, chain: seq<Pair>, pending: G, g: G)
    requires k < |t| && (forall i :: 0 <= i < |chain| ==> chain[i] in logs)
    requires Split.ChainTotal(logs, chain) == Xor(g, DeltaOf(t[k].log))
    ensures Gap(Dirs(t[..k] + MdirsOf(logs, chain) + t[k + 1..]), pending, ZERO) == Gap(Dirs(t), pending, g)
  {
    hide *;
    MdirsTotal(logs, chain);
    DirsAt(t, k);
    ReplacedDirs(t, k, MdirsOf(logs, chain));
    GapReplace(Dirs(t), k, Dirs(MdirsOf(logs, chain)), pending, g);
  }

  // The thread after a compaction: the directory is now a chain of pairs, the first its own,
  // the others fresh, that holds the entries of its log and goes on where it said.
  ghost predicate PackedInto(t: seq<Mdir>, k: nat, log: seq<Item>, room: Room, logs: map<Pair, seq<Item>>,
                             chain: seq<Pair>, u: seq<Mdir>)
    requires k < |t|
  {
    && chain != [] && chain[0] == t[k].pair && Split.AllIn(chain[1..], room.unused)
    && (forall i :: 0 <= i < |chain| ==> chain[i] in logs)
    && u == t[..k] + MdirsOf(logs, chain) + t[k + 1..]
    && Split.Chain(logs, chain, Split.TailOf(log))
    && Split.SameEntries(Split.ChainEntries(logs, chain), Replay(log))
  }

  // The thread after a commit that has succeeded: it was appended, or else the directory was
  // compacted with it.
  ghost predicate CommitMakes(t: seq<Mdir>, k: nat, attrs: seq<Item>, m: Memory, room: Room,
                              logs: map<Pair, seq<Item>>, chain: seq<Pair>, u: seq<Mdir>)
    requires k < |t| && room.Valid()
  {
    if Appends(room, t[k], attrs, m) then u == Committed(t, k, attrs, m)
    else PackedInto(t, k, t[k].log + WithMove(t[k], attrs, m), room, logs, chain, u)
  }

  lemma CommitMakesIs(t: seq<Mdir>, k: nat, attrs: seq<Item>, m: Memory, room: Room, logs: map<Pair, seq<Item>>,
                      chain: seq<Pair>, u: seq<Mdir>)
    requires k < |t| && room.Valid()
    ensures CommitMakes(t, k, attrs, m, room, logs, chain, u)
       <==> if Appends(room, t[k], attrs, m) then u == Committed(t, k, attrs, m)
            else PackedInto(t, k, t[k].log + WithMove(t[k], attrs, m), room, logs, chain, u)
  {
    hide Appends, Committed, PackedInto, WithMove;
  }

  // The directory, now first of its pairs, is where it was; what follows has moved up.
  lemma CommitShape(t: seq<Mdir>, k: nat, attrs: seq<Item>, m: Memory, room: Room, logs: map<Pair, seq<Item>>,
                    chain: seq<Pair>, u: seq<Mdir>)
    requires k < |t| && room.Valid() && CommitMakes(t, k, attrs, m, room, logs, chain, u)
    ensures |u| >= |t| && (forall i :: 0 <= i < k ==> u[i] == t[i])
    ensures k + 1 < |t| ==> u[k + 1 + (|u| - |t|)] == t[k + 1]
  {
    hide Appends, Written, Split.Chain, Split.ChainEntries, Split.SameEntries, Replay, Split.TailOf;
  }

  lemma IsPackedInto(t: seq<Mdir>, k: nat, log: seq<Item>, room: Room, logs: map<Pair, seq<Item>>, chain: seq<Pair>)
    requires k < |t| && chain != [] && chain[0] == t[k].pair && Split.AllLogged(logs, chain)
    requires Split.Chain(logs, chain, Split.TailOf(log))
    requires Split.SameEntries(Split.ChainEntries(logs, chain), Replay(log)[0..|Replay(log)|])
    requires exists unused: set<Pair> :: unused <= room.unused && Split.AllIn(chain[1..], room.unused - unused)
    ensures forall i :: 0 <= i < |chain| ==> chain[i] in logs
    ensures PackedInto(t, k, log, room, logs, chain, t[..k] + MdirsOf(logs, chain) + t[k + 1..])
  {
    hide Split.Chain, Split.ChainEntries, Split.SameEntries, Replay, Split.TailOf;
    Logged(logs, chain);
    assert Replay(log)[0..|Replay(log)|] == Replay(log);
  }

  lemma ReplacedUncounted(t: seq<Mdir>, k: nat, logs: map<Pair, seq<Item>>, chain: seq<Pair>)
    requires k < |t| && (forall i :: 0 <= i < |chain| ==> chain[i] in logs)
    requires OnlyStored(Dirs(t)) && Split.Uncounted(logs)
    ensures OnlyStored(Dirs(t[..k] + MdirsOf(logs, chain) + t[k + 1..]))
  {
    hide Count, DeltaOf;
    ReplacedDirs(t, k, MdirsOf(logs, chain));
    forall i | 0 <= i < |chain|
      ensures Count(Dirs(MdirsOf(logs, chain))[i].delta.tag) == 0
    {
      assert Dirs(MdirsOf(logs, chain))[i] == View(Mdir(chain[i], logs[chain[i]]));
    }
  }

  lemma ReplacedConserves(t: seq<Mdir>, k: nat, logs: map<Pair, seq<Item>>, chain: seq<Pair>, m: Memory, x: G)
    requires k < |t| && (forall i :: 0 <= i < |chain| ==> chain[i] in logs) && Clean(t, m) && Split.Uncounted(logs)
    requires Split.ChainTotal(logs, chain) == Xor(Xor(Unmoved(m, t[k].pair), x), DeltaOf(t[k].log))
    ensures var u, n := t[..k] + MdirsOf(logs, chain) + t[k + 1..], After(m, t[k].pair);
            Off(u, n) == Xor(Off(t, m), x) && Clean(u, n)
  {
    hide *;
    var u, pair := t[..k] + MdirsOf(logs, chain) + t[k + 1..], t[k].pair;
    CleanParts(t, m);
    MemoryIs(m, pair);
    ReplacedOff(t, k, logs, chain, m.pending, Xor(Unmoved(m, pair), x));
    ReplacedUncounted(t, k, logs, chain);
    MoveOff(Dirs(u), Dirs(t), pair, m, x);
    OffIs(t, m);
    OffIs(u, After(m, pair));
    ProperAfter(m, pair);
    NothingCountedIn();
    IsClean(u, After(m, pair));
  }

  lemma OffTwice(g: G, own: G)
    ensures Xor(g, own) == g <==> own == ZERO
  {
    hide Xor;
    XorSelf(g);
    XorFlip(g, own);
    XorFlip(g, ZERO);
    XorBoth(own, ZERO, g);
  }

  class Fs {
    // what the deltas on the device add up to, as of the last commit
    var gstate: G
    // what they are to add up to
    var gpending: G
    // what the next commit has to fold in
    var gdelta: G
    // the directories, in the order in which their tails lead from one to the next
    var thread: seq<Mdir>

    ghost function Mem(): Memory
      reads this
    {
      Memory(gpending, gdelta)
    }

    ghost predicate Valid()
      reads this
    {
      Clean(thread, Mem())
    }

    // lfs_mount: the state is what the deltas add up to.
    constructor Mount(thread: seq<Mdir>)
      requires OnlyStored(Dirs(thread)) && ProperMove(Total(Dirs(thread)))
      ensures this.thread == thread && Mem() == Memory(Mounted(thread), ZERO) && gstate == gpending
      ensures Valid() && Off(thread, Mem()) == ZERO
      ensures HasOrphans(gpending) <==> TopBit(Total(Dirs(thread)).tag) != 0
    {
      this.thread := thread;
      gdelta := ZERO;
      gstate := ZERO;
      gpending := ZERO;
      new;
      hide *;
      TotalNone();
      for i := 0 to |thread|
        invariant gpending == Total(Dirs(thread)[..i]) && this.thread == thread && gdelta == ZERO
      {
        TotalNext(Dirs(thread), i);
        ViewIs(thread, i);
        gpending := GetState(thread[i].log, gpending);
      }
      assert Dirs(thread)[..|thread|] == Dirs(thread);
      var tag := if IsValid(gpending.tag) then gpending.tag else Words.Plus(gpending.tag, 1);
      gpending := G(tag, gpending.a, gpending.b);
      gstate := gpending;
      MountedIs(thread);
      MountedState(thread);
      MemIs();
      SameMoveItem(gpending, Total(Dirs(thread)));
      SameProper(Total(Dirs(thread)), gpending);
      NothingCountedIn();
      IsClean(thread, Mem());
      IsValidNow();
    }

    lemma MemIs()
      ensures Mem() == Memory(gpending, gdelta)
      ensures Valid() <==> Clean(thread, Mem())
    {
      hide Clean;
    }

    lemma IsValidNow()
      requires Clean(thread, Mem())
      ensures Valid()
    {
      hide Clean;
    }

    // lfs_fs_prepmove
    method PrepMove(id: nat, pair: Pair)
      requires id < 0x400 && Valid()
      modifies this`gpending, this`gdelta
      ensures Mem() == MovePrepared(old(Mem()), id, pair) && Valid()
      ensures Off(thread, Mem()) == Off(thread, old(Mem()))
      ensures MoveIn(gpending) == MoveIn(MoveOf(id, pair)) && OrphanBits(gpending.tag) == old(OrphanBits(gpending.tag))
    {
      hide *;
      MemIs();
      MovePreparedKeeps(thread, Mem(), id, pair);
      PreparedMemory(Mem(), id, pair);
      gdelta := XorMove(gdelta, gpending, id, pair);
      gpending := XorMove(gpending, gpending, id, pair);
      MemIs();
    }

    // lfs_fs_preporphans: afterwards the bit that is stored says whether there are orphans.
    method PrepOrphans(n: bv32)
      requires Valid()
      modifies this`gpending, this`gdelta
      ensures Mem() == OrphansPrepared(old(Mem()), n)
      ensures Off(thread, Mem()) == Off(thread, old(Mem()))
              <==> Stored(Words.Plus(old(gpending.tag), n)) == Stored(old(gpending.tag))
      ensures Stored(Words.Plus(old(gpending.tag), n)) == Stored(old(gpending.tag))
              ==> Valid() && MoveIn(gpending) == old(MoveIn(gpending))
      ensures Count(gpending.tag) == Count(Words.Plus(old(gpending.tag), n))
      ensures TopBit(gpending.tag) == if HasOrphans(gpending) then 0x8000_0000 else 0
    {
      hide *;
      MemIs();
      OrphansPreparedKeeps(thread, Mem(), n);
      OrphansPreparedIs(Mem(), n);
      gpending := G(Words.Plus(gpending.tag, n), gpending.a, gpending.b);
      var change := OrphanBit(gpending, HasOrphans(gpending));
      gdelta := Xor(gdelta, change);
      gpending := Xor(gpending, change);
      MemIs();
    }

    // How lfs_dir_commit begins: a move that is pending on this directory is about to be
    // finished.
    method Begin(k: nat, attrs: seq<Item>) returns (items: seq<Item>)
      requires k < |thread|
      modifies this`gdelta
      ensures gdelta == Unmoved(old(Mem()), thread[k].pair)
      ensures items == WithMove(thread[k], attrs, old(Mem()))
    {
      hide HasMoveHere, NoMove, MoveItem;
      items := attrs;
      if HasMoveHere(gpending, thread[k].pair) {
        items := items + [MoveItem(gpending)];
        gdelta := NoMove(gdelta, gpending);
      }
    }

    // How it ends.
    method Finish(pair: Pair)
      modifies this`gstate, this`gpending, this`gdelta
      ensures Mem() == After(old(Mem()), pair) && gstate == gpending
    {
      hide HasMoveHere, NoMove;
      if HasMoveHere(gpending, pair) {
        gpending := NoMove(gpending, gpending);
      }
      // the states agree again
      gstate := gpending;
      gdelta := ZERO;
    }

    // lfs_dir_commit, when the commit is appended.
    method Commit(k: nat, attrs: seq<Item>)
      requires k < |thread| && NoState(attrs) && Valid()
      modifies this
      ensures thread == Committed(old(thread), k, attrs, old(Mem())) && Mem() == After(old(Mem()), old(thread)[k].pair)
      ensures Valid() && Off(thread, Mem()) == Off(old(thread), old(Mem())) && gstate == gpending
    {
      hide *;
      ghost var m := Mem();
      MemIs();
      var items := Begin(k, attrs);
      MemIs();
      Append(k, attrs, items, m);
    }

    method Append(k: nat, ghost attrs: seq<Item>, items: seq<Item>, ghost m: Memory)
      requires k < |thread| && NoState(attrs) && Clean(thread, m)
      requires gpending == m.pending && gdelta == Unmoved(m, thread[k].pair) && items == WithMove(thread[k], attrs, m)
      modifies this
      ensures thread == Committed(old(thread), k, attrs, m) && Mem() == After(m, old(thread)[k].pair)
      ensures Valid() && Off(thread, Mem()) == Off(old(thread), m) && gstate == gpending
    {
      hide *;
      ghost var t := thread;
      var pair := thread[k].pair;
      CleanParts(t, m);
      CommitConserves(t, k, attrs, m);
      CommitStaysClean(t, k, attrs, m);
      WrittenIs(t[k], attrs, m);
      CommittedIs(t, k, attrs, m);
      var all := items;
      // what the directory has to record
      if gdelta != ZERO {
        gdelta := GetState(thread[k].log, gdelta);
        all := all + [StateItem(gdelta)];
      } else {
        assert all + [] == all;
      }
      thread := thread[k := Mdir(thread[k].pair, thread[k].log + (all + [SEAL]))];
      ghost var n := Mem();
      MemIs();
      Finish(pair);
      SameAfter(m, n, t[k].pair);
      IsValidNow();
    }

    // The compaction of a directory, x being what has been folded in too much.
    method Pack(k: nat, items: seq<Item>, room: Room, ghost m: Memory, ghost x: G)
      returns (ok: bool, ghost logs: map<Pair, seq<Item>>, ghost chain: seq<Pair>)
      requires k < |thread| && Clean(thread, m) && Count(x.tag) == 0
      requires gpending == m.pending && gdelta == Xor(Unmoved(m, thread[k].pair), x)
      requires room.Valid() && thread[k].pair !in room.unused && Settled(thread[k].log + items)
      modifies this
      ensures var log, pair := old(thread)[k].log + items, old(thread)[k].pair;
              var o := Split.Compacted(room.blockSize, room.progSize, OnDisk(log), 0, |Replay(log)|,
                                       Split.TailOf(log).Some?, |room.unused|, old(gdelta),
                                       DeltaOf(old(thread)[k].log));
              && (ok <==> o.ok)
              && (!ok ==> thread == old(thread) && gpending == old(gpending) && gdelta == o.delta
                          && gstate == if o.written then gpending else old(gstate))
              && (ok ==> && PackedInto(old(thread), k, log, room, logs, chain, thread)
                         && Mem() == After(m, pair) && gstate == gpending && Valid()
                         && Off(thread, Mem()) == Xor(Off(old(thread), m), x))
    {
      hide *;
      ghost var t, g := thread, gdelta;
      var pair, log := thread[k].pair, thread[k].log + items;
      CleanParts(t, m);
      MemoryIs(m, pair);
      UncountedMove(m.pending);
      UncountedXor(m.delta, MoveIn(m.pending));
      UncountedXor(Unmoved(m, pair), x);
      StoredUncounted(t, k);
      StreamIs(log);
      OneLog(pair, thread[k].log, room);
      var store := new Split.Store(room.blockSize, room.progSize, map[pair := thread[k].log], room.unused, gdelta);
      var r := store.Compact(pair, OnDisk(log), 0, |Replay(log)|, Split.TailOf(log));
      gdelta := store.delta;
      if store.written {
        gstate := gpending;
      }
      logs, chain := store.logs, [];
      if r.Err? {
        return false, logs, chain;
      }
      chain := r.value;
      var parts := r.value;
      store.ValidParts();
      Logged(store.logs, parts);
      IsPackedInto(t, k, log, room, store.logs, parts);
      ReplacedConserves(t, k, store.logs, parts, m, x);
      thread := thread[..k] + MdirsOf(store.logs, parts) + thread[k + 1..];
      ghost var n := Mem();
      MemIs();
      Finish(pair);
      SameAfter(m, n, pair);
      IsValidNow();
      return true, logs, chain;
    }

    // lfs_dir_commit with its choice, for a commit that does not empty the directory:
    // appending when there is room, else compacting, which may fail. When the append gets as
    // far as the record of the global state before it turns out not to fit, the delta of the
    // directory goes in twice. What a failure does to the delta is in FailureConserves.
    method DirCommit(k: nat, attrs: seq<Item>, room: Room)
      returns (ok: bool, ghost logs: map<Pair, seq<Item>>, ghost chain: seq<Pair>)
      requires k < |thread| && NoState(attrs) && Valid() && room.Valid() && thread[k].pair !in room.unused
      requires Settled(thread[k].log + WithMove(thread[k], attrs, Mem()))
      modifies this
      ensures Valid() && (ok <==> Succeeds(room, old(thread)[k], attrs, old(Mem())))
      ensures ok ==> CommitMakes(old(thread), k, attrs, old(Mem()), room, logs, chain, thread)
      ensures var d, m := old(thread)[k], old(Mem());
              && (ok ==> && Mem() == After(m, d.pair) && gstate == gpending
                         && Off(thread, Mem())
                         == (if Late(room, d, attrs, m) then Xor(Off(old(thread), m), DeltaOf(d.log))
                             else Off(old(thread), m))
                         && (Off(thread, Mem()) == Off(old(thread), m)
                             <==> !Late(room, d, attrs, m) || DeltaOf(d.log) == ZERO))
              && (!ok ==> && thread == old(thread) && Mem() == Memory(m.pending, Packed(room, d, attrs, m).delta)
                          && gstate == if Packed(room, d, attrs, m).written then gpending else old(gstate))
    {
      hide *;
      ghost var t, m := thread, Mem();
      MemIs();
      PackedIs(room, t[k], attrs, m);
      RoomIs(room, t[k], attrs, m);
      TriedIs(room, t[k], attrs, m);
      OffTwice(Off(t, m), DeltaOf(t[k].log));
      XorSelf(Off(t, m));
      CleanParts(t, m);
      StoredUncounted(t, k);
      logs, chain := map[], [];
      var items := Begin(k, attrs);
      MemIs();
      XorSelf(gdelta);
      NothingCountedIn();
      ghost var x := ZERO;
      if room.erased && HasPlace(room, thread[k], items) {
        if gdelta == ZERO || HasPlaceWithState(room, thread[k], items) {
          Append(k, attrs, items, m);
          CommitMakesIs(t, k, attrs, m, room, logs, chain, thread);
          return true, logs, chain;
        }
        x := DeltaOf(t[k].log);
        gdelta := GetState(thread[k].log, gdelta);
      }
      ok, logs, chain := Pack(k, items, room, m, x);
      CommitMakesIs(t, k, attrs, m, room, logs, chain, thread);
      if !ok {
        FailedUncounted(t, room, t[k], attrs, m);
        MemIs();
        IsValidNow();
      }
    }

    // lfs_dir_drop when its commit may have to compact, or may fail: then the delta of the
    // directory stays folded in, although the directory is still threaded.
    method DirDrop(p: nat, room: Room)
      returns (ok: bool, ghost logs: map<Pair, seq<Item>>, ghost chain: seq<Pair>, ghost u: seq<Mdir>)
      requires p + 1 < |thread| && Valid() && room.Valid() && thread[p].pair !in room.unused
      requires Settled(thread[p].log + WithMove(thread[p], [Split.TailItem(TailFound(thread[p + 1].log))], Mem()))
      modifies this
      ensures Valid()
      ensures var t, n, attrs := old(thread), Inherited(old(thread), p, old(Mem())),
                                 [Split.TailItem(TailFound(old(thread)[p + 1].log))];
              && (ok <==> Succeeds(room, t[p], attrs, n))
              && (ok ==> Off(thread, Mem()) == Xor(Off(t, old(Mem())), LateTerm(room, t[p], attrs, n)))
              && (!ok ==> && thread == t && Mem() == Memory(n.pending, Packed(room, t[p], attrs, n).delta)
                          && Off(thread, Mem())
                          == Xor(Off(t, old(Mem())), Xor(DeltaOf(t[p + 1].log), FailureTerms(room, t[p], attrs, n))))
      // the commit makes u of the thread, from which the directory is then taken out
      ensures ok ==>
                var t, n, attrs := old(thread), Inherited(old(thread), p, old(Mem())),
                                   [Split.TailItem(TailFound(old(thread)[p + 1].log))];
                var at := p + 1 + (|u| - |t|);
                && CommitMakes(t, p, attrs, n, room, logs, chain, u) && p < at < |u| && u[at] == t[p + 1]
                && thread == u[..at] + u[at + 1..]
                && (Appends(room, t[p], attrs, n) ==> thread == Dropped(t, p, old(Mem())))
    {
      hide *;
      ghost var t, m, own := thread, Mem(), DeltaOf(thread[p + 1].log);
      var tail, pairs := TailFound(thread[p + 1].log), |thread|;
      ghost var attrs, n := [Split.TailItem(tail)], Inherited(t, p, m);
      MemIs();
      InheritedIs(t, p, m);
      DroppedIs(t, p, m);
      gdelta := GetState(thread[p + 1].log, gdelta);
      MemIs();
      InheritedClean(t, p, m);
      TailIsNoState(tail);
      SameWithMove(t[p], attrs, m, n);
      OffIs(t, m);
      OffIs(t, n);
      GapDelta(Dirs(t), m.pending, m.delta, own);
      IsValidNow();
      ok, logs, chain := DirCommit(p, [Split.TailItem(tail)], room);
      u := thread;
      MemIs();
      if !ok {
        FailureConserves(t, room, t[p], attrs, n);
        XorAssoc(Off(t, m), own, FailureTerms(room, t[p], attrs, n));
        return;
      }
      CommitShape(t, p, attrs, n, room, logs, chain, u);
      CommitMakesIs(t, p, attrs, n, room, logs, chain, u);
      CommittedIs(t, p, attrs, n);
      // where the directory is now
      var at := p + 1 + (|thread| - pairs);
      RemovedOff(u, at, Mem());
      LateIs(room, t[p], attrs, n);
      XorSelf(Off(t, n));
      XorSwap(Off(t, m), own, LateTerm(room, t[p], attrs, n));
      Twice(Xor(Off(t, m), LateTerm(room, t[p], attrs, n)), own);
      thread := thread[..at] + thread[at + 1..];
      MemIs();
      IsValidNow();
    }

    // The first commit of a directory that is not in the thread yet: it takes the delta.
    method CommitFresh(pair: Pair, attrs: seq<Item>) returns (d: Mdir)
      requires !HasMove(gpending)
      modifies this`gstate, this`gpending, this`gdelta
      ensures d == Mdir(pair, Written(Mdir(pair, []), attrs, old(Mem())))
      ensures Mem() == Memory(old(gpending), ZERO) && gstate == gpending
    {
      hide HasMove, SamePair, Xor, DeltaOf, StateItem, NoMove, MoveItem;
      ghost var m := Mem();
      var items := attrs;
      WrittenIs(Mdir(pair, []), attrs, m);
      assert attrs + [] == attrs;
      // what the directory has to record
      if gdelta != ZERO {
        gdelta := GetState([], gdelta);
        items := items + [StateItem(gdelta)];
      }
      d := Mdir(pair, items + [SEAL]);
      gstate := gpending;
      gdelta := ZERO;
    }

    // lfs_dir_drop: the directory after p leaves the thread, and p inherits its delta.
    method Drop(p: nat)
      requires p + 1 < |thread| && Valid()
      modifies this
      ensures thread == Dropped(old(thread), p, old(Mem())) && Mem() == After(old(Mem()), old(thread)[p].pair)
      ensures Valid() && Off(thread, Mem()) == Off(old(thread), old(Mem())) && gstate == gpending
    {
      hide *;
      ghost var t, m := thread, Mem();
      MemIs();
      DropConserves(t, p, m);
      DroppedIs(t, p, m);
      InheritedIs(t, p, m);
      // its state and its tail go to p
      gdelta := GetState(thread[p + 1].log, gdelta);
      MemIs();
      InheritedClean(t, p, m);
      var tail := TailFound(thread[p + 1].log);
      TailIsNoState(tail);
      Commit(p, [Split.TailItem(tail)]);
      MemIs();
      SameAfter(m, Inherited(t, p, m), t[p].pair);
      thread := thread[..p + 1] + thread[p + 2..];
      MemIs();
      IsValidNow();
    }

    // lfs_dir_commit, when the commit empties a directory that is not the first of its
    // chain: the directory is dropped instead. A move pending on it is finished on the
    // device, but stays in memory.
    method CommitEmptied(k: nat, attrs: seq<Item>)
      requires 0 < k < |thread| && Valid()
      modifies this
      ensures var m := Memory(old(gpending), Unmoved(old(Mem()), old(thread)[k].pair));
              && thread == Dropped(old(thread), k - 1, m) && Mem() == After(m, old(thread)[k - 1].pair)
      ensures Valid() && gstate == gpending
      ensures var here := HasMoveHere(old(gpending), old(thread)[k].pair);
              && Off(thread, Mem()) == (if here then Xor(Off(old(thread), old(Mem())), MoveIn(old(gpending)))
                                        else Off(old(thread), old(Mem())))
              && (Off(thread, Mem()) == Off(old(thread), old(Mem())) <==> !here)
    {
      hide *;
      ghost var t, m := thread, Mem();
      MemIs();
      UnmovedOff(t, k, m);
      MoveNotZero(gpending, t[k].pair);
      OffTwice(Off(t, m), MoveIn(gpending));
      var items := Begin(k, attrs);
      MemIs();
      IsValidNow();
      Drop(k - 1);
      MemIs();
    }

    // lfs_dir_commit with its other choice, when there is room for everything.
    method Perform(k: nat, attrs: seq<Item>)
      requires k < |thread| && NoState(attrs) && Valid()
      modifies this
      ensures thread == Performed(old(thread), k, attrs, old(Mem())) && gstate == gpending && Valid()
      ensures Mem() == After(old(Mem()), Target(old(thread), k, attrs, old(Mem())))
      ensures var t, m := old(thread), old(Mem());
              Off(thread, Mem()) == if Empties(t, k, attrs, m) && HasMoveHere(m.pending, t[k].pair)
                                    then Xor(Off(t, m), MoveIn(m.pending)) else Off(t, m)
    {
      hide *;
      ghost var t, m := thread, Mem();
      MemIs();
      CleanParts(t, m);
      PerformedIs(t, k, attrs, m);
      EmptiesIs(t, k, attrs, m);
      var deletes := HasDelete(attrs) || HasMoveHere(gpending, thread[k].pair);
      var items := if HasMoveHere(gpending, thread[k].pair) then attrs + [MoveItem(gpending)] else attrs;
      WithMoveIs(t[k], attrs, m);
      assert attrs + [] == attrs;
      if 0 < k && deletes && Replay(thread[k].log + items) == [] && TailFound(thread[k - 1].log).split {
        CommitEmptied(k, attrs);
        SameAfter(m, Memory(m.pending, Unmoved(m, t[k].pair)), t[k - 1].pair);
      } else {
        Commit(k, attrs);
      }
    }
  }

  lemma InheritedClean(t: seq<Mdir>, p: nat, m: Memory)
    requires p + 1 < |t| && Clean(t, m)
    ensures Clean(t, Inherited(t, p, m))
  {
    hide *;
    CleanParts(t, m);
    InheritedIs(t, p, m);
    StoredUncounted(t, p + 1);
    UncountedXor(m.delta, DeltaOf(t[p + 1].log));
    IsClean(t, Inherited(t, p, m));
  }

  lemma UnmovedOff(t: seq<Mdir>, k: nat, m: Memory)
    requires k < |t| && Clean(t, m)
    ensures var n := Memory(m.pending, Unmoved(m, t[k].pair));
            && Clean(t, n)
            && Off(t, n) == if HasMoveHere(m.pending, t[k].pair) then Xor(Off(t, m), MoveIn(m.pending)) else Off(t, m)
  {
    hide *;
    var n := Memory(m.pending, Unmoved(m, t[k].pair));
    CleanParts(t, m);
    MemoryIs(m, t[k].pair);
    UncountedMove(m.pending);
    UncountedXor(m.delta, MoveIn(m.pending));
    IsClean(t, n);
    OffIs(t, m);
    OffIs(t, n);
    GapDelta(Dirs(t), m.pending, m.delta, MoveIn(m.pending));
  }

  lemma CommittedIs(t: seq<Mdir>, k: nat, attrs: seq<Item>, m: Memory)
    requires k < |t|
    ensures Committed(t, k, attrs, m) == t[k := Mdir(t[k].pair, t[k].log + Written(t[k], attrs, m))]
  {
    hide Written;
  }

  lemma RoomIs(room: Room, d: Mdir, attrs: seq<Item>, m: Memory)
    requires room.Valid()
    ensures var items := WithMove(d, attrs, m);
            && (Appends(room, d, attrs, m)
                <==> (&& room.erased && HasPlace(room, d, items)
                      && (Unmoved(m, d.pair) != ZERO ==> HasPlaceWithState(room, d, items))))
            && (Late(room, d, attrs, m)
                <==> (&& room.erased && HasPlace(room, d, items)
                      && Unmoved(m, d.pair) != ZERO && !HasPlaceWithState(room, d, items)))
  {
    hide WithMove, HasPlace, HasPlaceWithState, Unmoved;
  }

  lemma TriedIs(room: Room, d: Mdir, attrs: seq<Item>, m: Memory)
    requires room.Valid()
    ensures Tried(room, d, attrs, m)
         == if Late(room, d, attrs, m) then Xor(Unmoved(m, d.pair), DeltaOf(d.log)) else Unmoved(m, d.pair)
  {
    hide Late, Unmoved, Xor, DeltaOf;
  }

  lemma Sizes(room: Room)
    requires room.Valid()
    ensures room.blockSize >= 36 && room.progSize > 0
  {
  }

  // What a log is as the stream of a compaction.
  lemma StreamIs(log: seq<Item>)
    ensures Compaction.Flat(Groups(OnDisk(log))) == log
  {
    hide Compaction.Flat, Groups, OnDisk;
    OnDiskGroups(log);
    FlatSingles(log);
  }

  lemma OneLog(pair: Pair, log: seq<Item>, room: Room)
    requires room.Valid() && pair !in room.unused && Count(DeltaOf(log).tag) == 0
    ensures room.blockSize >= 36 && room.progSize > 0
    ensures Split.Unlogged(map[pair := log], room.unused) && Split.Uncounted(map[pair := log])
    ensures Split.OwnDelta(map[pair := log], pair) == DeltaOf(log)
  {
    hide DeltaOf, Count;
  }

  lemma Logged(logs: map<Pair, seq<Item>>, chain: seq<Pair>)
    requires Split.AllLogged(logs, chain)
    ensures forall i :: 0 <= i < |chain| ==> chain[i] in logs
  {
    assert forall i :: 0 <= i < |chain| ==> chain[i] in chain;
  }

  // A failed commit leaves nothing in the delta that must not be stored.
  lemma FailedUncounted(t: seq<Mdir>, room: Room, d: Mdir, attrs: seq<Item>, m: Memory)
    requires room.Valid() && !Succeeds(room, d, attrs, m) && Clean(t, m) && Count(DeltaOf(d.log).tag) == 0
    ensures Clean(t, Memory(m.pending, Packed(room, d, attrs, m).delta))
  {
    hide *;
    CleanParts(t, m);
    FailedDelta(room, d, attrs, m);
    TermsAre(room, d, attrs, m);
    LateIs(room, d, attrs, m);
    MoveTermIs(d, m);
    NothingCountedIn();
    UncountedMove(m.pending);
    var a, b, c := MoveTerm(d, m), LateTerm(room, d, attrs, m), FoldTerm(room, d, attrs, m);
    UncountedXor(m.delta, a);
    UncountedXor(Xor(m.delta, a), b);
    UncountedXor(a, b);
    UncountedXor(Xor(a, b), c);
    UncountedXor(Xor(Xor(a, b), c), Xor(Xor(m.delta, a), b));
    UncountedXor(Xor(Xor(a, b), c), ZERO);
    UncountedXor(m.delta, FailureTerms(room, d, attrs, m));
    IsClean(t, Memory(m.pending, Packed(room, d, attrs, m).delta));
  }

  lemma MoveTermIs(d: Mdir, m: Memory)
    ensures MoveTerm(d, m) == ZERO || MoveTerm(d, m) == MoveIn(m.pending)
  {
    hide HasMoveHere, MoveIn;
  }

  lemma SameWithMove(d: Mdir, attrs: seq<Item>, m: Memory, n: Memory)
    requires m.pending == n.pending
    ensures WithMove(d, attrs, m) == WithMove(d, attrs, n)
  {
    hide HasMoveHere, MoveItem;
  }

  lemma EmptiesIs(t: seq<Mdir>, k: nat, attrs: seq<Item>, m: Memory)
    requires k < |t| && ProperMove(m.pending)
    ensures Empties(t, k, attrs, m)
       <==> && 0 < k && TailFound(t[k - 1].log).split
            && (HasDelete(attrs) || HasMoveHere(m.pending, t[k].pair))
            && Replay(t[k].log + WithMove(t[k], attrs, m)) == []
  {
    hide *;
    WithMoveIs(t[k], attrs, m);
    EmptiesParts(t, k, attrs, m);
    assert attrs + [] == attrs;
    if HasMoveHere(m.pending, t[k].pair) {
      MoveDeletes(m.pending, t[k].pair);
      DeletesAlso(attrs, MoveItem(m.pending));
    }
  }

  lemma EmptiesParts(t: seq<Mdir>, k: nat, attrs: seq<Item>, m: Memory)
    requires k < |t|
    ensures Empties(t, k, attrs, m)
       <==> && 0 < k && TailFound(t[k - 1].log).split
            && HasDelete(WithMove(t[k], attrs, m)) && Replay(t[k].log + WithMove(t[k], attrs, m)) == []
  {
    hide HasDelete, WithMove, Replay, TailFound;
  }

  lemma MoveDeletes(g: G, pair: Pair)
    requires HasMoveHere(g, pair) && ProperMove(g)
    ensures MoveItem(g).tag.type3 == TYPE_DELETE
  {
    hide SamePair, HasMove, MoveItem;
  }

  lemma DeletesAlso(xs: seq<Item>, x: Item)
    ensures HasDelete(xs + [x]) <==> HasDelete(xs) || x.tag.type3 == TYPE_DELETE
  {
    assert (xs + [x])[|xs|] == x;
    if HasDelete(xs) {
      var i :| 0 <= i < |xs| && xs[i].tag.type3 == TYPE_DELETE;
      assert (xs + [x])[i] == xs[i];
    }
  }

  lemma PreparedMemory(m: Memory, id: nat, pair: Pair)
    requires id < 0x400
    ensures MovePrepared(m, id, pair)
         == Memory(XorMove(m.pending, m.pending, id, pair), XorMove(m.delta, m.pending, id, pair))
  {
    hide XorMove;
  }

  lemma ViewIs(t: seq<Mdir>, i: nat)
    requires i < |t|
    ensures Dirs(t)[i].delta == DeltaOf(t[i].log)
  {
    hide DeltaOf;
  }
}
