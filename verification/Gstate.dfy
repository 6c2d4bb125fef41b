// The global state: pending moves and orphans, kept as the exclusive or of deltas that are
// spread over all directories.
module Gstate {
  import opened Wrappers
  import opened Tags
  import opened Log
  import opened Lookup
  import Words

  datatype Pair = Pair(first: bv32, second: bv32)

  // A pair as it is stored.
  function PairBytes(p: Pair): (s: seq<byte>)
    ensures |s| == 8
  {
    ToLe(p.first) + ToLe(p.second)
  }

  function PairOf(s: seq<byte>): Pair
    requires |s| == 8
  {
    Pair(FromLe(s[..4]), FromLe(s[4..]))
  }

  lemma PairRoundTrip(p: Pair)
    ensures PairOf(PairBytes(p)) == p && Padded(PairBytes(p), 8) == PairBytes(p)
  {
    hide ToLe, FromLe;
    FromLeToLe(p.first);
    FromLeToLe(p.second);
    var s := PairBytes(p);
    assert s[..4] == ToLe(p.first) && s[4..] == ToLe(p.second);
  }

  // The low ten bits of the tag count orphans, in memory only; the top bit says on disk
  // that there are some; what is between names a move.
  datatype G = G(tag: bv32, a: bv32, b: bv32)

  const ZERO := G(0, 0, 0)

  function Xor(g: G, h: G): G {
    G(Words.Xor(g.tag, h.tag), Words.Xor(g.a, h.a), Words.Xor(g.b, h.b))
  }

  function Stored(tag: bv32): bv32 {
    Words.And(tag, 0xffff_fc00)
  }

  function MoveBits(tag: bv32): bv32 {
    Words.And(tag, 0x7fff_fc00)
  }

  function Persisted(g: G): G {
    G(Stored(g.tag), g.a, g.b)
  }

  function MoveIn(g: G): G {
    G(MoveBits(g.tag), g.a, g.b)
  }

  predicate HasMove(g: G) {
    Words.And(g.tag, 0x7000_0000) != 0
  }

  // lfs_pair_cmp: pairs are the same when they share a block.
  predicate SamePair(p: Pair, q: Pair) {
    p.first == q.first || p.second == q.second || p.first == q.second || p.second == q.first
  }

  // Pairs are the same when they have a block in common, in whichever place.
  lemma SamePairShares(p: Pair, q: Pair)
    ensures SamePair(p, q) <==> {p.first, p.second} * {q.first, q.second} != {}
  {
    var both := {p.first, p.second} * {q.first, q.second};
    assert p.first in both || p.second in both <==> both != {};
  }

  predicate HasMoveHere(g: G, pair: Pair) {
    HasMove(g) && SamePair(Pair(g.a, g.b), pair)
  }

  // A move of the entry with the given id, or no move.
  function MoveOf(id: nat, pair: Pair): G
    requires id < 0x400
  {
    if id != NO_ID then G(Pack(RawTag.Tag(TYPE_DELETE, id, 0)), pair.first, pair.second) else ZERO
  }

  // lfs_gstate_xormove: takes the move of g out of f and puts another one in.
  function XorMove(f: G, g: G, id: nat, pair: Pair): G
    requires id < 0x400
  {
    Xor(f, Xor(MoveIn(g), MoveIn(MoveOf(id, pair))))
  }

  function OrphanBit(g: G, orphans: bool): G {
    G(TopBit(Words.Xor(g.tag, if orphans then 0x8000_0000 else 0)), 0, 0)
  }

  function TopBit(tag: bv32): bv32 {
    Words.And(tag, 0x8000_0000)
  }

  // How many orphans there are.
  function Count(tag: bv32): bv32 {
    Words.And(tag, 0x3ff)
  }

  predicate HasOrphans(g: G) {
    Count(g.tag) != 0
  }

  // ---- exclusive or ----------------------------------------------------------------------

  lemma XorAssoc(f: G, g: G, h: G)
    ensures Xor(Xor(f, g), h) == Xor(f, Xor(g, h))
  {
    hide Words.Xor;
    Words.XorAssoc(f.tag, g.tag, h.tag);
    Words.XorAssoc(f.a, g.a, h.a);
    Words.XorAssoc(f.b, g.b, h.b);
  }

  lemma XorFlip(f: G, g: G)
    ensures Xor(f, g) == Xor(g, f)
  {
  }

  lemma XorSelf(g: G)
    ensures Xor(g, g) == ZERO && Xor(g, ZERO) == g && Xor(ZERO, g) == g
  {
  }

  // The same thing on both sides.
  lemma XorBoth(f: G, g: G, h: G)
    ensures Xor(f, h) == Xor(g, h) <==> f == g
  {
    hide Xor;
    if Xor(f, h) == Xor(g, h) {
      XorAssoc(f, h, h);
      XorAssoc(g, h, h);
      XorSelf(h);
      XorSelf(f);
      XorSelf(g);
    }
  }

  lemma XorSwap(f: G, g: G, h: G)
    ensures Xor(Xor(f, g), h) == Xor(Xor(f, h), g)
  {
    hide Words.Xor;
    Words.XorSwap(f.tag, g.tag, h.tag);
    Words.XorSwap(f.a, g.a, h.a);
    Words.XorSwap(f.b, g.b, h.b);
  }

  lemma PersistedXor(f: G, g: G)
    ensures Persisted(Xor(f, g)) == Xor(Persisted(f), Persisted(g))
  {
    StoredXor(f.tag, g.tag);
    hide Stored, Words.Xor;
  }

  lemma StoredXor(x: bv32, y: bv32)
    ensures Stored(Words.Xor(x, y)) == Words.Xor(Stored(x), Stored(y))
  {
    hide Words.And, Words.Xor;
    Words.AndXor(x, y, 0xffff_fc00);
  }

  // How the masks meet.
  lemma Meets()
    ensures Words.And(0x7fff_fc00, 0xffff_fc00) == 0x7fff_fc00 && Words.And(0xffff_fc00, 0x7fff_fc00) == 0x7fff_fc00
    ensures Words.And(0x8000_0000, 0xffff_fc00) == 0x8000_0000 && Words.And(0xffff_fc00, 0xffff_fc00) == 0xffff_fc00
    ensures Words.And(0x8000_0000, 0x8000_0000) == 0x8000_0000 && Words.And(0x7fff_fc00, 0x7fff_fc00) == 0x7fff_fc00
    ensures Words.And(0x8000_0000, 0x3ff) == 0 && Words.And(0x8000_0000, 0x7fff_fc00) == 0
    ensures Words.And(0x7fff_fc00, 0x8000_03ff) == 0
  {
  }

  lemma Masks(x: bv32)
    ensures Stored(MoveBits(x)) == MoveBits(x) && Stored(TopBit(x)) == TopBit(x) && Stored(Stored(x)) == Stored(x)
    ensures Stored(0) == 0 && MoveBits(0) == 0 && Count(0) == 0
  {
    Meets();
    hide Words.And;
    Words.AndAnd(x, 0x7fff_fc00, 0xffff_fc00);
    Words.AndAnd(x, 0x8000_0000, 0xffff_fc00);
    Words.AndAnd(x, 0xffff_fc00, 0xffff_fc00);
    Words.AndZero(0xffff_fc00);
    Words.AndZero(0x7fff_fc00);
    Words.AndZero(0x3ff);
  }

  lemma PersistedMove(g: G)
    ensures Persisted(MoveIn(g)) == MoveIn(g) && Persisted(Persisted(g)) == Persisted(g) && Persisted(ZERO) == ZERO
  {
    hide Stored, MoveBits;
    Masks(g.tag);
  }

  lemma PersistedOrphanBit(g: G, orphans: bool)
    ensures Persisted(OrphanBit(g, orphans)) == OrphanBit(g, orphans)
  {
    hide Stored, TopBit, Words.Xor, MoveBits, Count;
    Masks(Words.Xor(g.tag, if orphans then 0x8000_0000 else 0));
    Masks(0);
  }

  // ---- the record in a directory --------------------------------------------------------------

  function StateBytes(g: G): (s: seq<byte>)
    ensures |s| == 12
  {
    ToLe(g.tag) + ToLe(g.a) + ToLe(g.b)
  }

  function StateOf(s: seq<byte>): G
    requires |s| == 12
  {
    G(FromLe(s[..4]), FromLe(s[4..8]), FromLe(s[8..]))
  }

  lemma StateOfBytes(g: G)
    ensures StateOf(StateBytes(g)) == g
  {
    hide ToLe, FromLe;
    FromLeToLe(g.tag);
    FromLeToLe(g.a);
    FromLeToLe(g.b);
    var s := StateBytes(g);
    assert s[..4] == ToLe(g.tag) && s[4..8] == ToLe(g.a) && s[8..] == ToLe(g.b);
  }

  function StateItem(g: G): Item {
    Item(RawTag.Tag(TYPE_MOVESTATE, NO_ID, 12), StateBytes(g))
  }

  // What a directory adds to the global state: the newest record of its log, if there is one.
  function DeltaOf(log: seq<Item>): G {
    match LatestState(log)
    case None => ZERO
    case Some(s) => StateOf(Padded(s, 12))
  }

  predicate NoState(xs: seq<Item>) {
    forall i :: 0 <= i < |xs| ==> xs[i].tag.type3 != TYPE_MOVESTATE
  }

  lemma DeltaOfState(log: seq<Item>, g: G)
    ensures DeltaOf(log + [StateItem(g)]) == g
  {
    hide StateOf, StateBytes;
    SnocPrefix(log, StateItem(g));
    assert Padded(StateBytes(g), 12) == StateBytes(g);
    StateOfBytes(g);
  }

  lemma {:induction false} DeltaOfOther(log: seq<Item>, xs: seq<Item>)
    requires NoState(xs)
    ensures DeltaOf(log + xs) == DeltaOf(log)
    decreases |xs|
  {
    hide StateOf, Padded;
    if xs == [] {
      assert log + xs == log;
    } else {
      var init, x := xs[..|xs| - 1], xs[|xs| - 1];
      assert forall i :: 0 <= i < |init| ==> init[i] == xs[i];
      DeltaOfOther(log, init);
      assert log + xs == log + init + [x];
      SnocPrefix(log + init, x);
    }
  }

  lemma DeltaOfNothing(xs: seq<Item>)
    requires NoState(xs)
    ensures DeltaOf(xs) == ZERO
  {
    hide StateOf, Padded;
    DeltaOfOther([], xs);
    assert [] + xs == xs;
  }

  // lfs_dir_getgstate: the walk for the record goes by its type alone, whatever the ids.
  method GetState(log: seq<Item>, g: G) returns (r: G)
    ensures r == Xor(g, DeltaOf(log))
  {
    hide Xor, StateOf;
    assert log[..|log|] == log;
    for k := |log| downto 0
      invariant LatestState(log[..k]) == LatestState(log)
    {
      assert log[..k + 1][..k] == log[..k];
      var x := log[k];
      if x.tag.type3 == TYPE_MOVESTATE {
        if x.tag.IsDelete() {
          XorSelf(g);
          return g;
        }
        return Xor(g, StateOf(Padded(x.data, 12)));
      }
    }
    XorSelf(g);
    return g;
  }

  // ---- the state -----------------------------------------------------------------------------

  datatype Dir = Dir(pair: Pair, delta: G)

  function Total(thread: seq<Dir>): G {
    if thread == [] then ZERO
    else Xor(Total(thread[..|thread| - 1]), thread[|thread| - 1].delta)
  }

  lemma {:induction false} TotalConcat(s: seq<Dir>, t: seq<Dir>)
    ensures Total(s + t) == Xor(Total(s), Total(t))
    decreases |t|
  {
    hide Xor;
    if t == [] {
      assert s + t == s;
      XorSelf(Total(s));
    } else {
      var init := t[..|t| - 1];
      assert (s + t)[..|s + t| - 1] == s + init;
      TotalConcat(s, init);
      XorAssoc(Total(s), Total(init), t[|t| - 1].delta);
    }
  }

  lemma TotalOne(d: Dir)
    ensures Total([d]) == d.delta && Total([]) == ZERO
  {
    assert [d][..0] == [];
    XorSelf(d.delta);
    hide Xor;
  }

  // Every directory but the one at k.
  function Others(thread: seq<Dir>, k: nat): G
    requires k < |thread|
  {
    Xor(Total(thread[..k]), Total(thread[k + 1..]))
  }

  lemma TotalAround(a: seq<Dir>, d: Dir, b: seq<Dir>)
    ensures Total(a + ([d] + b)) == Xor(Xor(Total(a), Total(b)), d.delta)
  {
    hide *;
    TotalConcat(a, [d] + b);
    TotalConcat([d], b);
    TotalOne(d);
    XorFlip(d.delta, Total(b));
    XorAssoc(Total(a), Total(b), d.delta);
  }

  lemma PartsAt<T>(s: seq<T>, k: nat)
    requires k < |s|
    ensures s == s[..k] + ([s[k]] + s[k + 1..])
  {
  }

  lemma OthersIs(thread: seq<Dir>, k: nat)
    requires k < |thread|
    ensures Others(thread, k) == Xor(Total(thread[..k]), Total(thread[k + 1..]))
  {
    hide Xor, Total;
  }

  lemma TotalAt(thread: seq<Dir>, k: nat)
    requires k < |thread|
    ensures Total(thread) == Xor(Others(thread, k), thread[k].delta)
  {
    hide *;
    PartsAt(thread, k);
    TotalAround(thread[..k], thread[k], thread[k + 1..]);
    OthersIs(thread, k);
  }

  function Store(thread: seq<Dir>, k: nat, delta: G): seq<Dir>
    requires k < |thread|
  {
    thread[k := thread[k].(delta := delta)]
  }

  // Folding something into one directory folds it into the total.
  lemma TotalFold(thread: seq<Dir>, k: nat, g: G)
    requires k < |thread|
    ensures Total(Store(thread, k, Xor(g, thread[k].delta))) == Xor(Total(thread), g)
  {
    hide Xor, Total;
    var next := Store(thread, k, Xor(g, thread[k].delta));
    assert next[..k] == thread[..k] && next[k + 1..] == thread[k + 1..];
    TotalAt(thread, k);
    TotalAt(next, k);
    XorFlip(g, thread[k].delta);
    XorAssoc(Others(thread, k), thread[k].delta, g);
  }

  // Taking a directory out of the thread takes its delta out of the total.
  lemma TotalRemove(thread: seq<Dir>, k: nat)
    requires k < |thread|
    ensures Total(thread[..k] + thread[k + 1..]) == Xor(Total(thread), thread[k].delta)
  {
    hide Xor, Total;
    TotalConcat(thread[..k], thread[k + 1..]);
    TotalAt(thread, k);
    XorAssoc(Others(thread, k), thread[k].delta, thread[k].delta);
    XorSelf(thread[k].delta);
    XorSelf(Others(thread, k));
  }

  lemma TotalReplace(thread: seq<Dir>, k: nat, more: seq<Dir>)
    requires k < |thread|
    ensures Total(thread[..k] + more + thread[k + 1..]) == Xor(Others(thread, k), Total(more))
  {
    hide *;
    var a, b := thread[..k], thread[k + 1..];
    TotalConcat(a + more, b);
    TotalConcat(a, more);
    OthersIs(thread, k);
    XorSwap(Total(a), Total(more), Total(b));
  }

  // ---- the file system's three states ----------------------------------------------------------

  // How far the deltas of all threaded directories, with the delta still to be written, are
  // from the state that is wanted, on the bits that are stored.
  function Gap(thread: seq<Dir>, gpending: G, gdelta: G): G {
    Xor(Persisted(gpending), Xor(Total(thread), gdelta))
  }

  // ---- moves, orphans and deltas -----------------------------------------------------------------------

  function NoMove(f: G, g: G): (r: G)
    ensures r == XorMove(f, g, NO_ID, Pair(0, 0))
    ensures r == Xor(f, MoveIn(g))
  {
    XorMoveIs(f, g, NO_ID, Pair(0, 0));
    MoveZero();
    XorSelf(MoveIn(g));
    XorMove(f, g, NO_ID, Pair(0, 0))
  }

  lemma MoveZero()
    ensures MoveIn(ZERO) == ZERO && MoveOf(NO_ID, Pair(0, 0)) == ZERO
  {
    hide *;
    Masks(0);
    ZeroMoves();
  }

  lemma ZeroMoves()
    ensures MoveBits(0) == 0 ==> MoveIn(ZERO) == ZERO
    ensures MoveOf(NO_ID, Pair(0, 0)) == ZERO
  {
    hide MoveBits;
  }

  lemma MoveNotZero(g: G, pair: Pair)
    ensures HasMoveHere(g, pair) ==> MoveIn(g) != ZERO
  {
    assert Words.And(0x7fff_fc00, 0x7000_0000) == 0x7000_0000;
    hide Words.And, SamePair;
    Words.AndAnd(g.tag, 0x7fff_fc00, 0x7000_0000);
    Words.AndZero(0x7000_0000);
  }

  lemma NoMoveLeft(g: G)
    ensures MoveIn(NoMove(g, g)) == MoveIn(ZERO) && OrphanBits(NoMove(g, g).tag) == OrphanBits(g.tag)
  {
    hide MoveIn, OrphanBits, XorMove, Xor;
    MoveReplaced(g, NO_ID, Pair(0, 0));
    MoveZero();
  }

  lemma TotalNone()
    ensures Total([]) == ZERO
  {
  }

  lemma TotalNext(thread: seq<Dir>, i: nat)
    requires i < |thread|
    ensures thread[..0] == [] && Total(thread[..i + 1]) == Xor(Total(thread[..i]), thread[i].delta)
  {
    hide Xor;
    assert thread[..i + 1][..i] == thread[..i];
  }

  lemma Twice(g: G, h: G)
    ensures Xor(Xor(g, h), h) == g
  {
    hide Xor;
    XorAssoc(g, h, h);
    XorSelf(h);
    XorSelf(g);
  }

  lemma GapDelta(thread: seq<Dir>, gpending: G, gdelta: G, c: G)
    ensures Gap(thread, gpending, Xor(gdelta, c)) == Xor(Gap(thread, gpending, gdelta), c)
  {
    hide Persisted, Xor, Total;
    XorAssoc(Total(thread), gdelta, c);
    XorAssoc(Persisted(gpending), Xor(Total(thread), gdelta), c);
  }

  lemma GapPending(thread: seq<Dir>, gpending: G, gdelta: G, c: G)
    requires Persisted(c) == c
    ensures Gap(thread, Xor(gpending, c), gdelta) == Xor(Gap(thread, gpending, gdelta), c)
  {
    hide Persisted, Xor, Total;
    PersistedXor(gpending, c);
    XorSwap(Persisted(gpending), c, Xor(Total(thread), gdelta));
  }

  // The same change to the wanted state and to the delta.
  lemma GapBoth(thread: seq<Dir>, gpending: G, gdelta: G, c: G)
    requires Persisted(c) == c
    ensures Gap(thread, Xor(gpending, c), Xor(gdelta, c)) == Gap(thread, gpending, gdelta)
  {
    hide Gap, Xor, Persisted;
    GapDelta(thread, Xor(gpending, c), gdelta, c);
    GapPending(thread, gpending, gdelta, c);
    Twice(Gap(thread, gpending, gdelta), c);
  }

  // Writing the delta into a directory.
  lemma GapFold(thread: seq<Dir>, k: nat, gpending: G, gdelta: G)
    requires k < |thread|
    ensures Gap(thread[k := thread[k].(delta := Xor(gdelta, thread[k].delta))], gpending, ZERO)
            == Gap(thread, gpending, gdelta)
    ensures gdelta == ZERO ==> Gap(thread, gpending, ZERO) == Gap(thread, gpending, gdelta)
  {
    TotalFold(thread, k, gdelta);
    hide Persisted, Xor, Total;
    XorSelf(Xor(Total(thread), gdelta));
  }

  lemma GapRemove(thread: seq<Dir>, k: nat, gpending: G, gdelta: G)
    requires k < |thread|
    ensures Gap(thread[..k] + thread[k + 1..], gpending, gdelta) == Xor(Gap(thread, gpending, gdelta), thread[k].delta)
  {
    hide Persisted, Xor, Total;
    TotalRemove(thread, k);
    XorSwap(Total(thread), thread[k].delta, gdelta);
    XorAssoc(Persisted(gpending), Xor(Total(thread), gdelta), thread[k].delta);
  }

  // A directory gives way to others that together have its delta and the one to be written.
  lemma GapReplace(thread: seq<Dir>, k: nat, more: seq<Dir>, gpending: G, g: G)
    requires k < |thread| && Total(more) == Xor(g, thread[k].delta)
    ensures Gap(thread[..k] + more + thread[k + 1..], gpending, ZERO) == Gap(thread, gpending, g)
  {
    hide Persisted, Xor, Total, Others;
    TotalReplace(thread, k, more);
    TotalAt(thread, k);
    XorFlip(g, thread[k].delta);
    XorAssoc(Others(thread, k), thread[k].delta, g);
    XorSelf(Xor(Total(thread), g));
  }

  lemma SameStored(thread: seq<Dir>, gpending: G, gdelta: G, tag: bv32)
    requires Stored(tag) == Stored(gpending.tag)
    ensures Gap(thread, G(tag, gpending.a, gpending.b), gdelta) == Gap(thread, gpending, gdelta)
    ensures MoveBits(tag) == MoveBits(gpending.tag)
    ensures MoveIn(G(tag, gpending.a, gpending.b)) == MoveIn(gpending)
  {
    MoveIsStored(tag, gpending.tag);
    hide Stored, MoveBits, Xor, Total;
  }

  lemma MoveIsStored(x: bv32, y: bv32)
    requires Stored(x) == Stored(y)
    ensures MoveBits(x) == MoveBits(y)
  {
    Meets();
    hide Words.And;
    Words.AndAnd(x, 0xffff_fc00, 0x7fff_fc00);
    Words.AndAnd(y, 0xffff_fc00, 0x7fff_fc00);
  }

  lemma OrphanBitSet(g: G, orphans: bool)
    ensures var r := Xor(g, OrphanBit(g, orphans));
            && TopBit(r.tag) == (if orphans then 0x8000_0000 else 0)
            && Count(r.tag) == Count(g.tag) && MoveIn(r) == MoveIn(g) && (HasOrphans(r) <==> HasOrphans(g))
  {
    hide TopBit, MoveBits, Count, Words.Xor;
    TopBitSet(g.tag, if orphans then 0x8000_0000 else 0);
    Words.XorSelf(g.a);
    Words.XorSelf(g.b);
  }

  lemma TopBitSet(x: bv32, o: bv32)
    requires o == 0 || o == 0x8000_0000
    ensures var r := Words.Xor(x, TopBit(Words.Xor(x, o)));
            TopBit(r) == o && Count(r) == Count(x) && MoveBits(r) == MoveBits(x)
  {
    Meets();
    hide Words.And, Words.Xor;
    var y := Words.Xor(x, o);
    var top := Words.And(y, 0x8000_0000);
    Words.AndXor(x, top, 0x8000_0000);
    Words.AndXor(x, o, 0x8000_0000);
    Words.AndAnd(y, 0x8000_0000, 0x8000_0000);
    Words.AndZero(0x8000_0000);
    ReplacedWord(TopBit(x), o);
    Words.AndXor(x, top, 0x3ff);
    Words.AndAnd(y, 0x8000_0000, 0x3ff);
    Words.AndZero(y);
    Words.XorSelf(Count(x));
    Words.AndXor(x, top, 0x7fff_fc00);
    Words.AndAnd(y, 0x8000_0000, 0x7fff_fc00);
    Words.XorSelf(MoveBits(x));
  }

  // Counting up from zero leaves the stored bits alone.
  lemma FirstOrphan(tag: bv32)
    requires Count(tag) == 0
    ensures Stored(Words.Plus(tag, 1)) == Stored(tag) == tag && TopBit(Words.Plus(tag, 1)) == TopBit(tag)
            && Count(Words.Plus(tag, 1)) == 1
  {
    assert Words.And(0x3ff, 1) == 1 && Words.And(1, 0x3ff) == 1 && Words.And(1, 0xffff_fc00) == 0
      && Words.And(1, 0x8000_0000) == 0;
    NothingCounted(tag);
    hide Words.And, Words.Xor;
    Words.AndAnd(tag, 0x3ff, 1);
    Words.AndZero(1);
    EvenPlusOne(tag);
    hide Words.Plus;
    Words.AndXor(tag, 1, 0xffff_fc00);
    Words.AndXor(tag, 1, 0x8000_0000);
    Words.AndXor(tag, 1, 0x3ff);
    Words.XorSelf(1);
    Words.XorSelf(Stored(tag));
    Words.XorSelf(TopBit(tag));
  }

  lemma ValidIsUnmarked(tag: bv32)
    ensures IsValid(tag) <==> TopBit(tag) == 0
  {
  }

  lemma HasOrphansIs(g: G)
    ensures HasOrphans(g) <==> Count(g.tag) != 0
  {
    hide Count;
  }

  lemma EvenPlusOne(x: bv32)
    requires Words.And(x, 1) == 0
    ensures Words.Plus(x, 1) == Words.Xor(x, 1)
  {
  }

  lemma NothingCounted(x: bv32)
    requires Words.And(x, 0x3ff) == 0
    ensures Words.And(x, 0xffff_fc00) == x
  {
  }

  // What is stored in a directory has no count.
  predicate OnlyStored(thread: seq<Dir>) {
    forall i :: 0 <= i < |thread| ==> Count(thread[i].delta.tag) == 0
  }

  lemma UncountedXor(f: G, g: G)
    ensures Count(f.tag) == 0 && Count(g.tag) == 0 ==> Count(Xor(f, g).tag) == 0
  {
    hide Words.And, Words.Xor;
    Words.AndXor(f.tag, g.tag, 0x3ff);
    Words.XorSelf(0);
  }

  lemma NothingCountedIn()
    ensures Count(ZERO.tag) == 0
  {
    Masks(0);
  }

  lemma {:induction false} TotalUncounted(thread: seq<Dir>)
    requires OnlyStored(thread)
    ensures Count(Total(thread).tag) == 0
    decreases |thread|
  {
    hide Words.And, Words.Xor;
    if thread == [] {
      Words.AndZero(0x3ff);
    } else {
      var init := thread[..|thread| - 1];
      assert forall i :: 0 <= i < |init| ==> init[i] == thread[i];
      TotalUncounted(init);
      Words.AndXor(Total(init).tag, thread[|thread| - 1].delta.tag, 0x3ff);
      Words.XorSelf(0);
    }
  }

  lemma MountGap(thread: seq<Dir>, total: G, gpending: G)
    requires total == Total(thread) && Stored(gpending.tag) == total.tag && gpending.a == total.a
            && gpending.b == total.b
    ensures Gap(thread, gpending, ZERO) == ZERO
  {
    hide Stored, Xor, Total;
    XorSelf(total);
  }

  // What is in the tag besides the move.
  function OrphanBits(tag: bv32): bv32 {
    Words.And(tag, 0x8000_03ff)
  }

  lemma XorMoveIs(f: G, g: G, id: nat, pair: Pair)
    requires id < 0x400
    ensures XorMove(f, g, id, pair) == Xor(f, Xor(MoveIn(g), MoveIn(MoveOf(id, pair))))
  {
    hide Xor, MoveIn, MoveOf;
  }

  lemma MoveReplaced(g: G, id: nat, pair: Pair)
    requires id < 0x400
    ensures var r := XorMove(g, g, id, pair);
            MoveIn(r) == MoveIn(MoveOf(id, pair)) && OrphanBits(r.tag) == OrphanBits(g.tag)
  {
    hide MoveOf, MoveBits, OrphanBits, Words.Xor;
    var m := MoveOf(id, pair);
    ReplacedWord(g.a, m.a);
    ReplacedWord(g.b, m.b);
    ReplacedTag(g.tag, m.tag);
  }

  lemma ReplacedWord(x: bv32, y: bv32)
    ensures Words.Xor(x, Words.Xor(x, y)) == y
  {
    hide Words.Xor;
    Words.XorFlip(x, y);
    Words.XorFlip(x, Words.Xor(y, x));
    Words.XorTwice(y, x);
  }

  lemma ReplacedTag(x: bv32, y: bv32)
    ensures var r := Words.Xor(x, Words.Xor(MoveBits(x), MoveBits(y)));
            MoveBits(r) == MoveBits(y) && OrphanBits(r) == OrphanBits(x)
  {
    Meets();
    hide Words.And, Words.Xor;
    var mx, my := MoveBits(x), MoveBits(y);
    Words.AndXor(x, Words.Xor(mx, my), 0x7fff_fc00);
    Words.AndXor(mx, my, 0x7fff_fc00);
    Words.AndAnd(x, 0x7fff_fc00, 0x7fff_fc00);
    Words.AndAnd(y, 0x7fff_fc00, 0x7fff_fc00);
    ReplacedWord(mx, my);
    Words.AndXor(x, Words.Xor(mx, my), 0x8000_03ff);
    Words.AndXor(mx, my, 0x8000_03ff);
    Words.AndAnd(x, 0x7fff_fc00, 0x8000_03ff);
    Words.AndAnd(y, 0x7fff_fc00, 0x8000_03ff);
    Words.AndZero(x);
    Words.AndZero(y);
    Words.XorSelf(0);
    Words.XorSelf(OrphanBits(x));
  }

  // Changes of the move are all on stored bits.
  lemma PersistedChange(g: G, m: G)
    ensures Persisted(Xor(MoveIn(g), MoveIn(m))) == Xor(MoveIn(g), MoveIn(m))
  {
    hide Xor, MoveIn, Persisted;
    PersistedXor(MoveIn(g), MoveIn(m));
    PersistedMove(g);
    PersistedMove(m);
  }
}
