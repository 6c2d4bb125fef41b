// lfs_dir_compact and lfs_dir_split: rewriting a directory into a fresh log, spread over
// as many pairs as it needs, chained by hard tails.
module Split {
  import opened Wrappers
  import opened Tags
  import opened Log
  import opened Compaction
  import opened Traverse
  import opened Util
  import opened Gstate
  import Lookup

  // Where a directory goes on: hard tails continue the same directory.
  datatype Tail = Tail(pair: Pair, split: bool)

  function TailItem(t: Tail): Item {
    Item(RawTag.Tag(TYPE_TAIL + if t.split then 1 else 0, NO_ID, 8), PairBytes(t.pair))
  }

  // The tail that a fetch finds: the newest tail attribute of the log.
  function TailOf(log: seq<Item>): Option<Tail> {
    if log == [] then None
    else
      var x := log[|log| - 1];
      if Kind(x.tag.type3) == TYPE_TAIL && |x.data| == 8 then Some(Tail(PairOf(x.data), Chunk(x.tag.type3) % 2 == 1))
      else TailOf(log[..|log| - 1])
  }

  // Bytes that a list of attributes takes up in a block.
  function SizeOf(log: seq<Item>): nat {
    if log == [] then 0 else SizeOf(log[..|log| - 1]) + log[|log| - 1].tag.Dsize()
  }

  ghost predicate SameEntries(a: seq<Entry>, b: seq<Entry>) {
    |a| == |b| && forall i :: 0 <= i < |a| ==> SameView(a[i], b[i])
  }

  // ---- chains of pairs ----------------------------------------------------------------------

  // A directory spread over a chain of pairs; last is where the whole directory goes on.
  ghost predicate Chain(logs: map<Pair, seq<Item>>, chain: seq<Pair>, last: Option<Tail>) {
    chain != [] && chain[0] in logs && Settled(logs[chain[0]]) &&
    if |chain| == 1 then TailOf(logs[chain[0]]) == last
    else TailOf(logs[chain[0]]) == Some(Tail(chain[1], true)) && Chain(logs, chain[1..], last)
  }

  ghost function ChainEntries(logs: map<Pair, seq<Item>>, chain: seq<Pair>): seq<Entry> {
    if chain == [] then []
    else (if chain[0] in logs then Replay(logs[chain[0]]) else []) + ChainEntries(logs, chain[1..])
  }

  lemma {:induction false} ChainFrame(logs: map<Pair, seq<Item>>, logs': map<Pair, seq<Item>>, chain: seq<Pair>,
          last: Option<Tail>)
    requires Chain(logs, chain, last)
    requires forall p :: p in chain && p in logs ==> p in logs' && logs'[p] == logs[p]
    ensures Chain(logs', chain, last) && ChainEntries(logs', chain) == ChainEntries(logs, chain)
    decreases |chain|
  {
    hide Settled, TailOf, Replay;
    assert chain[0] in chain;
    if |chain| == 1 {
      assert chain[1..] == [];
    } else {
      assert forall p :: p in chain[1..] ==> p in chain;
      ChainFrame(logs, logs', chain[1..], last);
    }
  }

  lemma ChainCons(logs: map<Pair, seq<Item>>, p: Pair, rest: seq<Pair>, last: Option<Tail>)
    requires p in logs && Settled(logs[p])
    requires TailOf(logs[p]) == if rest == [] then last else Some(Tail(rest[0], true))
    requires rest != [] ==> Chain(logs, rest, last)
    ensures Chain(logs, [p] + rest, last)
    ensures ChainEntries(logs, [p] + rest) == Replay(logs[p]) + ChainEntries(logs, rest)
  {
    hide Settled, TailOf, Replay;
    assert ([p] + rest)[1..] == rest;
  }

  // ---- what is written for one pair -----------------------------------------------------------

  // Attributes of the directory as a whole leave the entries alone.
  lemma Unaffected(log: seq<Item>, x: Item)
    requires !x.IsAttr() && Kind(x.tag.type3) != TYPE_SPLICE
    ensures Replay(log + [x]) == Replay(log)
    ensures Settled(log) ==> Settled(log + [x])
    ensures TailOf(log + [x])
         == if Kind(x.tag.type3) == TYPE_TAIL && |x.data| == 8
            then Some(Tail(PairOf(x.data), Chunk(x.tag.type3) % 2 == 1)) else TailOf(log)
    ensures SizeOf(log + [x]) == SizeOf(log) + x.tag.Dsize()
  {
    ReplaySnoc(log, x);
    SnocPrefix(log, x);
  }

  lemma TailItemIs(log: seq<Item>, t: Tail)
    ensures TailOf(log + [TailItem(t)]) == Some(t)
    ensures Replay(log + [TailItem(t)]) == Replay(log) && (Settled(log) ==> Settled(log + [TailItem(t)]))
    ensures SizeOf(log + [TailItem(t)]) == SizeOf(log) + 12 && DeltaOf(log + [TailItem(t)]) == DeltaOf(log)
  {
    hide Replay, WellFormed, AllNamed, TailOf, SizeOf, DeltaOf, PairBytes, PairOf;
    Unaffected(log, TailItem(t));
    PairRoundTrip(t.pair);
    DeltaOfOther(log, [TailItem(t)]);
  }

  lemma StateItemIs(log: seq<Item>, g: G)
    ensures TailOf(log + [StateItem(g)]) == TailOf(log) && DeltaOf(log + [StateItem(g)]) == g
    ensures Replay(log + [StateItem(g)]) == Replay(log) && (Settled(log) ==> Settled(log + [StateItem(g)]))
    ensures SizeOf(log + [StateItem(g)]) == SizeOf(log) + 16
  {
    hide Replay, WellFormed, AllNamed, TailOf, SizeOf, DeltaOf, StateBytes;
    Unaffected(log, StateItem(g));
    DeltaOfState(log, g);
  }

  lemma SealIs(log: seq<Item>)
    ensures TailOf(log + [SEAL]) == TailOf(log) && DeltaOf(log + [SEAL]) == DeltaOf(log)
    ensures Replay(log + [SEAL]) == Replay(log) && (Settled(log) ==> Settled(log + [SEAL]))
  {
    hide Replay, WellFormed, AllNamed, TailOf, SizeOf, DeltaOf;
    Unaffected(log, SEAL);
    DeltaOfOther(log, [SEAL]);
  }

  lemma {:induction false} NoTail(log: seq<Item>)
    requires forall i :: 0 <= i < |log| ==> log[i].IsAttr()
    ensures TailOf(log) == None
    decreases |log|
  {
    if log != [] {
      NoTail(log[..|log| - 1]);
    }
  }

  lemma {:induction false} WindowAttrs(kept: seq<Item>, begin: nat, end: nat)
    requires forall i :: 0 <= i < |kept| ==> kept[i].IsAttr()
    ensures forall i :: 0 <= i < |Window(kept, begin, end, 0)| ==> Window(kept, begin, end, 0)[i].IsAttr()
    decreases |kept|
  {
    if kept != [] {
      var init, x := kept[..|kept| - 1], kept[|kept| - 1];
      assert forall i :: 0 <= i < |init| ==> init[i] == kept[i];
      WindowAttrs(init, begin, end);
      assert init + [x] == kept;
      WindowSnoc(init, x, begin, end, 0);
    }
  }

  lemma {:induction false} SelectAll(kept: seq<Item>)
    requires forall i :: 0 <= i < |kept| ==> kept[i].IsAttr()
    ensures Select(kept, false) == kept
    decreases |kept|
  {
    if kept != [] {
      var init := kept[..|kept| - 1];
      assert forall i :: 0 <= i < |init| ==> init[i] == kept[i];
      SelectAll(init);
    }
  }

  // What a traversal of a settled stream takes from an id range.
  ghost function Gathered(stream: seq<Attr>, begin: nat, end: nat): seq<Item>
    requires Legal(stream)
  {
    Window(Select(KeptOf(Groups(stream)), false), begin, end, 0)
  }

  lemma GatheredIsRange(stream: seq<Attr>, begin: nat, end: nat)
    requires Legal(stream) && Settled(Flat(Groups(stream)))
    requires begin <= end <= |Replay(Flat(Groups(stream)))|
    ensures var out := Gathered(stream, begin, end);
            && Settled(out) && TailOf(out) == None && NoState(out)
            && SameEntries(Replay(out), Replay(Flat(Groups(stream)))[begin..end])
  {
    hide KeptOf, Flat, Window, Select, Replay, AllNamed, WellFormed, TailOf, Expand;
    var groups := Groups(stream);
    GroupsOk(stream);
    KeptAgrees(groups);
    KeptSelected(stream, begin, end);
    CompactionPreserves(groups, begin, end);
  }

  lemma KeptSelected(stream: seq<Attr>, begin: nat, end: nat)
    requires Legal(stream) && NamesFirst(KeptOf(Groups(stream)))
    ensures Gathered(stream, begin, end) == Window(KeptOf(Groups(stream)), begin, end, 0)
    ensures TailOf(Gathered(stream, begin, end)) == None && NoState(Gathered(stream, begin, end))
  {
    hide KeptOf, Window, Select, TailOf;
    var kept := KeptOf(Groups(stream));
    NamesFirstAttrs(kept);
    SelectAll(kept);
    WindowAttrs(kept, begin, end);
    NoTail(Window(kept, begin, end, 0));
  }

  // ---- room -----------------------------------------------------------------------------------

  // The size check of the splitting loop.
  function SizeLimit(blockSize: nat, progSize: nat): nat
    requires blockSize >= 36 && progSize > 0
  {
    var half := AlignUp(blockSize / 2, progSize);
    if blockSize - 36 < half then blockSize - 36 else half
  }

  // A commit of the given size, with its header, tail and global state, ends early enough
  // for the checksum.
  predicate HasRoom(blockSize: nat, size: nat) {
    4 + size + 12 + 16 + 8 <= blockSize
  }

  // Whatever passes the size check has room, exactly when half a block, rounded up to a
  // program unit, is at least 40 bytes short of a block.
  lemma RoomAfterSizeCheck(blockSize: nat, progSize: nat)
    requires blockSize >= 40 && progSize > 0
    ensures (forall size: nat :: size <= SizeLimit(blockSize, progSize) ==> HasRoom(blockSize, size))
            <==> AlignUp(blockSize / 2, progSize) + 40 <= blockSize
  {
    var limit := SizeLimit(blockSize, progSize);
    assert AlignUp(blockSize / 2, progSize) >= 0;
    if forall size: nat :: size <= limit ==> HasRoom(blockSize, size) {
      assert HasRoom(blockSize, limit);
    }
  }

  // A block size for which the size check does not leave enough room, and a size.
  lemma NoRoomInWholeUnits()
    ensures 476 <= SizeLimit(512, 512) && !HasRoom(512, 476)
  {
  }

  // Nothing is taken from an empty range.
  lemma {:induction false} WindowEmpty(kept: seq<Item>, begin: nat)
    ensures Window(kept, begin, begin, 0) == []
    decreases |kept|
  {
    if kept != [] {
      var init, x := kept[..|kept| - 1], kept[|kept| - 1];
      WindowEmpty(init, begin);
      assert init + [x] == kept;
      WindowSnoc(init, x, begin, begin, 0);
    }
  }

  lemma GatheredNothing(stream: seq<Attr>, begin: nat)
    requires Legal(stream)
    ensures SizeOf(Gathered(stream, begin, begin)) == 0
  {
    hide Window, Select, KeptOf;
    WindowEmpty(Select(KeptOf(Groups(stream)), false), begin);
  }

  // ---- what a compaction comes to -----------------------------------------------------------------

  ghost function RangeSize(stream: seq<Attr>, begin: nat, end: nat): nat
    requires Legal(stream)
  {
    SizeOf(Gathered(stream, begin, end))
  }

  // Whether header, attributes, tail, global state and checksum fit into a block.
  predicate WriteFits(blockSize: nat, size: nat, next: bool, fed: G) {
    4 + size + (if next then 12 else 0) + (if fed == ZERO then 0 else 16) + 8 <= blockSize
  }

  // The entries are few and small enough for one pair.
  predicate OnePair(blockSize: nat, progSize: nat, entries: int, size: nat)
    requires blockSize >= 36 && progSize > 0
  {
    entries <= 1 || (entries < 0xff && size <= SizeLimit(blockSize, progSize))
  }

  // Whether a compaction succeeds, how many pairs it leaves unused, what is still to be
  // written afterwards, whether it got so far as to fold in what the directory itself has
  // stored, and whether it has written any pair.
  datatype Packing = Packing(ok: bool, left: nat, delta: G, folded: bool, written: bool)

  // The same in the splitting loop; upto is where the directory itself ends, and next says
  // whether it has a tail.
  datatype Loop = Loop(ok: bool, upto: nat, next: bool, left: nat, delta: G, written: bool)

  // All of this is settled beforehand, by the sizes of ranges of entries and the number of
  // unused pairs.
  ghost function Compacted(blockSize: nat, progSize: nat, stream: seq<Attr>, begin: nat, end: nat, next: bool,
                           pairs: nat, delta: G, own: G): Packing
    requires Legal(stream) && blockSize >= 36 && progSize > 0 && begin <= end
    decreases end - begin, 1
  {
    var l := Looped(blockSize, progSize, stream, begin, Loop(true, end, next, pairs, delta, false));
    var fed := Xor(l.delta, own);
    if !l.ok then Packing(false, l.left, l.delta, false, l.written)
    else if WriteFits(blockSize, RangeSize(stream, begin, l.upto), l.next, fed) then
      Packing(true, l.left, ZERO, true, true)
    else Packing(false, l.left, fed, true, l.written)
  }

  ghost function Looped(blockSize: nat, progSize: nat, stream: seq<Attr>, begin: nat, l: Loop): (r: Loop)
    requires Legal(stream) && blockSize >= 36 && progSize > 0 && begin <= l.upto
    ensures begin <= r.upto <= l.upto
    decreases l.upto - begin, 0
  {
    var size, half := RangeSize(stream, begin, l.upto), (l.upto - begin) / 2;
    if OnePair(blockSize, progSize, l.upto - begin, size) then l
    else
      var u := Upper(blockSize, progSize, stream, begin + half, l.upto, l.next, l.left, l.delta);
      if u.ok then
        Looped(blockSize, progSize, stream, begin,
               Loop(l.ok, begin + half, true, u.left, u.delta, true))
      else
        // splitting has failed, but without it there may be room enough
        Loop(size <= blockSize - 36, l.upto, l.next, u.left, u.delta, l.written || u.written)
  }

  // Splitting off the upper half, into a fresh pair.
  ghost function Upper(blockSize: nat, progSize: nat, stream: seq<Attr>, mid: nat, upto: nat, next: bool,
                       pairs: nat, delta: G): Packing
    requires Legal(stream) && blockSize >= 36 && progSize > 0 && mid <= upto
    decreases upto - mid, 2
  {
    if pairs == 0 then Packing(false, 0, delta, false, false)
    else Compacted(blockSize, progSize, stream, mid, upto, next, pairs - 1, delta, ZERO)
  }

  // The delta is written as a whole, by the first pair that is written.
  lemma {:induction false} LoopDelta(blockSize: nat, progSize: nat, stream: seq<Attr>, begin: nat, l: Loop)
    requires Legal(stream) && blockSize >= 36 && progSize > 0 && begin <= l.upto
    requires l.written ==> l.delta == ZERO
    ensures var r := Looped(blockSize, progSize, stream, begin, l);
            r.delta == (if r.written then ZERO else l.delta) && (l.written ==> r.written)
    decreases l.upto - begin, 0
  {
    hide Gathered, SizeOf, Xor, SizeLimit, Compacted;
    XorSelf(l.delta);
    var half := (l.upto - begin) / 2;
    if l.upto - begin > 1 {
      var u := Upper(blockSize, progSize, stream, begin + half, l.upto, l.next, l.left, l.delta);
      if l.left > 0 {
        PackingDelta(blockSize, progSize, stream, begin + half, l.upto, l.next, l.left - 1, l.delta, ZERO);
      }
      XorSelf(u.delta);
      XorSelf(if u.written then ZERO else l.delta);
      if u.ok {
        LoopDelta(blockSize, progSize, stream, begin,
                  Loop(l.ok, begin + half, true, u.left, u.delta, true));
      }
    }
  }

  // So what is left of it after a failure is all of it or nothing, with what was folded in.
  lemma {:induction false} PackingDelta(blockSize: nat, progSize: nat, stream: seq<Attr>, begin: nat, end: nat,
          next: bool, pairs: nat, delta: G, own: G)
    requires Legal(stream) && blockSize >= 36 && progSize > 0 && begin <= end
    ensures var r := Compacted(blockSize, progSize, stream, begin, end, next, pairs, delta, own);
            && (r.ok ==> r.delta == ZERO && r.written)
            && (!r.ok ==> r.delta == Xor(if r.written then ZERO else delta, if r.folded then own else ZERO))
    decreases end - begin, 1
  {
    hide Gathered, SizeOf, Xor, WriteFits, Looped;
    var l := Loop(true, end, next, pairs, delta, false);
    LoopDelta(blockSize, progSize, stream, begin, l);
    XorSelf(delta);
    XorSelf(Looped(blockSize, progSize, stream, begin, l).delta);
  }

  // Sizes add up, as renumbering an attribute does not change what it takes up.
  lemma {:induction false} WindowSize(kept: seq<Item>, begin: nat, mid: nat, end: nat)
    requires begin <= mid <= end
    ensures SizeOf(Window(kept, begin, end, 0))
         == SizeOf(Window(kept, begin, mid, 0)) + SizeOf(Window(kept, mid, end, 0))
    decreases |kept|
  {
    hide *;
    if kept == [] {
      NothingSized(begin, mid, end);
    } else {
      var init, x := kept[..|kept| - 1], kept[|kept| - 1];
      assert kept == init + [x];
      WindowSize(init, begin, mid, end);
      WindowSized(init, x, begin, end);
      WindowSized(init, x, begin, mid);
      WindowSized(init, x, mid, end);
    }
  }

  lemma NothingSized(begin: nat, mid: nat, end: nat)
    ensures SizeOf(Window([], begin, end, 0)) == 0
    ensures SizeOf(Window([], begin, mid, 0)) == 0 && SizeOf(Window([], mid, end, 0)) == 0
  {
  }

  lemma WindowSized(init: seq<Item>, x: Item, begin: nat, end: nat)
    ensures SizeOf(Window(init + [x], begin, end, 0))
         == SizeOf(Window(init, begin, end, 0)) + if begin <= x.tag.id < end then x.tag.Dsize() else 0
  {
    hide Window;
    WindowSnoc(init, x, begin, end, 0);
    if begin <= x.tag.id < end {
      SnocPrefix(Window(init, begin, end, 0), x.At(x.tag.id - begin));
    }
  }

  lemma UpperIsSmaller(stream: seq<Attr>, begin: nat, mid: nat, end: nat)
    requires Legal(stream) && begin <= mid <= end
    ensures RangeSize(stream, begin, end) == RangeSize(stream, begin, mid) + RangeSize(stream, mid, end)
  {
    hide Window, Select, KeptOf, SizeOf;
    WindowSize(Select(KeptOf(Groups(stream)), false), begin, mid, end);
  }

  // Entries that have room in one block, without tail and state, can be split as far as
  // there are pairs and never fail once something has been written: so a split that is given
  // up for writing all of them into one block has not written anything.
  lemma {:induction false} SmallLoop(blockSize: nat, progSize: nat, stream: seq<Attr>, begin: nat, l: Loop)
    requires Legal(stream) && blockSize >= 36 && progSize > 0 && begin <= l.upto && l.ok
    requires RangeSize(stream, begin, l.upto) <= blockSize - 36
    ensures var r := Looped(blockSize, progSize, stream, begin, l);
            r.ok && RangeSize(stream, begin, r.upto) <= blockSize - 36
    decreases l.upto - begin
  {
    hide RangeSize, Upper, OnePair;
    var half := (l.upto - begin) / 2;
    var u := Upper(blockSize, progSize, stream, begin + half, l.upto, l.next, l.left, l.delta);
    IsOnePair(blockSize, progSize, l.upto - begin, RangeSize(stream, begin, l.upto));
    UpperIsSmaller(stream, begin, begin + half, l.upto);
    if l.upto - begin > 1 && u.ok {
      SmallLoop(blockSize, progSize, stream, begin, Loop(l.ok, begin + half, true, u.left, u.delta, true));
    }
  }

  lemma SmallPacking(blockSize: nat, progSize: nat, stream: seq<Attr>, begin: nat, end: nat, next: bool, pairs: nat,
                     delta: G)
    requires Legal(stream) && blockSize >= 36 && progSize > 0 && begin <= end
    requires RangeSize(stream, begin, end) <= blockSize - 36
    ensures var r := Compacted(blockSize, progSize, stream, begin, end, next, pairs, delta, ZERO);
            !r.ok ==> !r.written && r.delta == delta
  {
    hide RangeSize, Looped;
    var l := Loop(true, end, next, pairs, delta, false);
    SmallLoop(blockSize, progSize, stream, begin, l);
    LoopDelta(blockSize, progSize, stream, begin, l);
    XorSelf(ZERO);
    XorSelf(delta);
    hide Xor;
  }

  // Without any unused pair everything goes into one block, or nothing is touched.
  lemma NoneUnused(blockSize: nat, progSize: nat, stream: seq<Attr>, begin: nat, end: nat, next: bool,
                   delta: G, own: G)
    requires Legal(stream) && blockSize >= 36 && progSize > 0 && begin <= end
    ensures var r, size := Compacted(blockSize, progSize, stream, begin, end, next, 0, delta, own),
                           RangeSize(stream, begin, end);
            && r.left == 0 && (r.written <==> r.ok)
            && (r.folded <==> end - begin <= 1 || size <= blockSize - 36)
            && (r.ok <==> r.folded && WriteFits(blockSize, size, next, Xor(delta, own)))
            && r.delta == if r.ok then ZERO else if r.folded then Xor(delta, own) else delta
  {
    hide *;
    var l := Loop(true, end, next, 0, delta, false);
    var size := RangeSize(stream, begin, end);
    var u := Upper(blockSize, progSize, stream, begin + (end - begin) / 2, end, next, 0, delta);
    CompactedIs(blockSize, progSize, stream, begin, end, next, 0, delta, own);
    LoopEnds(blockSize, progSize, stream, begin, l);
    IsOnePair(blockSize, progSize, end - begin, size);
    LimitIs(blockSize, progSize);
    XorSelf(delta);
    XorSelf(ZERO);
    RangeIs(stream, begin, end);
    if !OnePair(blockSize, progSize, end - begin, size) {
      UpperIs(blockSize, progSize, stream, begin + (end - begin) / 2, end, next, 0, delta);
      LoopGoesOn(blockSize, progSize, stream, begin, l, u);
    }
  }

  lemma LimitIs(blockSize: nat, progSize: nat)
    requires blockSize >= 36 && progSize > 0
    ensures SizeLimit(blockSize, progSize) <= blockSize - 36
  {
  }

  lemma RangeIs(stream: seq<Attr>, begin: nat, end: nat)
    requires Legal(stream)
    ensures RangeSize(stream, begin, end) == SizeOf(Gathered(stream, begin, end))
  {
    hide Gathered, SizeOf;
  }

  // Blocks in which everything that passes the size check has room.
  predicate Roomy(blockSize: nat, progSize: nat) {
    blockSize >= 40 && progSize > 0 && AlignUp(blockSize / 2, progSize) + 40 <= blockSize
  }

  ghost predicate EntryFits(blockSize: nat, stream: seq<Attr>, i: nat)
    requires Legal(stream)
  {
    HasRoom(blockSize, RangeSize(stream, i, i + 1))
  }

  // Every entry of a range has room in a pair of its own, and there are pairs for all but
  // one of them.
  ghost predicate Enough(blockSize: nat, progSize: nat, stream: seq<Attr>, begin: nat, end: nat, pairs: int)
    requires Legal(stream)
  {
    && Roomy(blockSize, progSize) && end <= begin + pairs + 1
    && forall i: nat :: begin <= i < end ==> EntryFits(blockSize, stream, i)
  }

  // Then a compaction succeeds, and nothing is given up.
  lemma {:induction false} EnoughSucceeds(blockSize: nat, progSize: nat, stream: seq<Attr>, begin: nat, end: nat,
          next: bool, pairs: nat, delta: G, own: G)
    requires Legal(stream) && begin <= end && Enough(blockSize, progSize, stream, begin, end, pairs)
    ensures blockSize >= 36 && progSize > 0
    ensures var r := Compacted(blockSize, progSize, stream, begin, end, next, pairs, delta, own);
            r.ok && pairs - r.left <= if begin < end then end - begin - 1 else 0
    decreases end - begin, 1
  {
    hide RangeSize, Xor, Looped, Enough, EntryFits;
    EnoughParts(blockSize, progSize, stream, begin, end, pairs);
    EnoughLooped(blockSize, progSize, stream, begin, Loop(true, end, next, pairs, delta, false));
  }

  lemma EnoughParts(blockSize: nat, progSize: nat, stream: seq<Attr>, begin: nat, end: nat, pairs: int)
    requires Legal(stream)
    ensures Enough(blockSize, progSize, stream, begin, end, pairs) ==>
              Roomy(blockSize, progSize) && blockSize >= 40 && progSize > 0 && end <= begin + pairs + 1
    ensures Enough(blockSize, progSize, stream, begin, end, pairs) && begin < end ==>
              HasRoom(blockSize, RangeSize(stream, begin, begin + 1))
  {
    hide RangeSize, HasRoom;
    assert Enough(blockSize, progSize, stream, begin, end, pairs) && begin < end ==>
        EntryFits(blockSize, stream, begin);
  }

  lemma EnoughWithin(blockSize: nat, progSize: nat, stream: seq<Attr>, begin: nat, end: nat, pairs: int,
                     from: nat, upto: nat, left: int)
    requires Legal(stream) && begin <= from <= upto <= end && upto <= from + left + 1
    ensures Enough(blockSize, progSize, stream, begin, end, pairs) ==>
              Enough(blockSize, progSize, stream, from, upto, left)
  {
    hide EntryFits;
  }

  // What passes the size check has room.
  lemma FitsByCheck(blockSize: nat, progSize: nat, size: nat)
    requires Roomy(blockSize, progSize) && size <= SizeLimit(blockSize, progSize)
    ensures HasRoom(blockSize, size)
  {
    RoomAfterSizeCheck(blockSize, progSize);
  }

  lemma {:induction false} EnoughLooped(blockSize: nat, progSize: nat, stream: seq<Attr>, begin: nat, l: Loop)
    requires Legal(stream) && begin <= l.upto && l.ok
    requires Enough(blockSize, progSize, stream, begin, l.upto, l.left)
    ensures blockSize >= 36 && progSize > 0
    ensures var r := Looped(blockSize, progSize, stream, begin, l);
            && r.ok && HasRoom(blockSize, RangeSize(stream, begin, r.upto))
            && l.left - r.left <= l.upto - r.upto && (begin < l.upto ==> begin < r.upto)
    decreases l.upto - begin, 0
  {
    hide RangeSize, Xor, Compacted, Enough, HasRoom;
    EnoughParts(blockSize, progSize, stream, begin, l.upto, l.left);
    var size, half := RangeSize(stream, begin, l.upto), (l.upto - begin) / 2;
    if l.upto - begin <= 1 {
      NothingFits(blockSize, stream, begin);
    } else if l.upto - begin < 0xff && size <= SizeLimit(blockSize, progSize) {
      FitsByCheck(blockSize, progSize, size);
    } else {
      EnoughWithin(blockSize, progSize, stream, begin, l.upto, l.left, begin + half, l.upto, l.left - 1);
      EnoughSucceeds(blockSize, progSize, stream, begin + half, l.upto, l.next, l.left - 1, l.delta, ZERO);
      var u := Upper(blockSize, progSize, stream, begin + half, l.upto, l.next, l.left, l.delta);
      EnoughWithin(blockSize, progSize, stream, begin, l.upto, l.left, begin, begin + half, u.left);
      EnoughLooped(blockSize, progSize, stream, begin,
                   Loop(l.ok, begin + half, true, u.left, u.delta, true));
    }
  }

  lemma NothingFits(blockSize: nat, stream: seq<Attr>, begin: nat)
    requires Legal(stream)
    ensures blockSize >= 40 ==> HasRoom(blockSize, RangeSize(stream, begin, begin))
  {
    hide Gathered, SizeOf;
    GatheredNothing(stream, begin);
  }

  // ---- bounds on sizes --------------------------------------------------------------------------------

  lemma SizeSnoc(xs: seq<Item>, x: Item)
    ensures SizeOf(xs + [x]) == SizeOf(xs) + x.tag.Dsize() && SizeOf([]) == 0
  {
    SnocPrefix(xs, x);
  }

  lemma {:induction false} SizeConcat(xs: seq<Item>, ys: seq<Item>)
    ensures SizeOf(xs + ys) == SizeOf(xs) + SizeOf(ys)
    decreases |ys|
  {
    hide SizeOf;
    SizeSnoc(xs, Item(RawTag.Tag(0, 0, 0), []));
    if ys == [] {
      assert xs + ys == xs;
    } else {
      var init, y := ys[..|ys| - 1], ys[|ys| - 1];
      SizeConcat(xs, init);
      assert ys == init + [y] && xs + ys == (xs + init) + [y];
      SizeSnoc(init, y);
      SizeSnoc(xs + init, y);
    }
  }

  lemma {:induction false} SurvivorsSize(xs: seq<Item>, later: seq<Item>)
    ensures SizeOf(Survivors(xs, later)) <= SizeOf(xs)
    decreases |xs|
  {
    hide SizeOf, TagFate;
    SizeSnoc([], Item(RawTag.Tag(0, 0, 0), []));
    if xs != [] {
      var init, x := xs[..|xs| - 1], xs[|xs| - 1];
      SurvivorsSize(init, later);
      assert xs == init + [x];
      SizeSnoc(init, x);
      SizeConcat(Survivors(init, later), Survivor(x, later));
      match TagFate(x.tag, later)
      case Dropped =>
      case Kept(id) =>
        SizeSnoc([], x.At(id));
        assert [] + [x.At(id)] == [x.At(id)];
    }
  }

  lemma AttrsSnoc(xs: seq<Item>, x: Item)
    ensures SizeOf(Attrs(xs + [x])) == SizeOf(Attrs(xs)) + (if x.IsAttr() then x.tag.Dsize() else 0)
    ensures SizeOf(Attrs([])) == 0
  {
    SnocPrefix(xs, x);
    SizeSnoc(Attrs(xs), x);
    hide SizeOf;
    assert Attrs(xs) + [] == Attrs(xs);
    SizeSnoc([], x);
  }

  lemma {:induction false} KeptSize(log: seq<Item>)
    ensures SizeOf(KeptOf(Singles(log))) <= SizeOf(Attrs(log))
    decreases |log|
  {
    hide SizeOf, Survivors, Attrs;
    if log == [] {
      AttrsSnoc([], Item(RawTag.Tag(0, 0, 0), []));
      SizeSnoc([], Item(RawTag.Tag(0, 0, 0), []));
    } else {
      var init, x := log[..|log| - 1], log[|log| - 1];
      KeptSize(init);
      assert log == init + [x];
      assert Singles(log)[..|log| - 1] == Singles(init);
      assert KeptOf(Singles(log)) == Survivors(KeptOf(Singles(init)), [x]) + Attrs([x]);
      SurvivorsSize(KeptOf(Singles(init)), [x]);
      SizeConcat(Survivors(KeptOf(Singles(init)), [x]), Attrs([x]));
      AttrsSnoc(init, x);
      AttrsSnoc([], x);
      assert [] + [x] == [x];
    }
  }

  lemma {:induction false} SelectSize(xs: seq<Item>)
    ensures SizeOf(Select(xs, false)) <= SizeOf(xs)
    decreases |xs|
  {
    hide *;
    if xs == [] {
      SelectNothing();
    } else {
      var init, x := xs[..|xs| - 1], xs[|xs| - 1];
      SelectSize(init);
      assert xs == init + [x];
      SelectSnoc(init, x, false);
      SizeSnoc(init, x);
      SizeSnoc(Select(init, false), x);
    }
  }

  lemma SelectNothing()
    ensures Select([], false) == []
  {
  }

  lemma {:induction false} WindowAtMost(kept: seq<Item>, begin: nat, end: nat)
    ensures SizeOf(Window(kept, begin, end, 0)) <= SizeOf(kept)
    decreases |kept|
  {
    hide *;
    if kept == [] {
      NothingSized(begin, end, end);
    } else {
      var init, x := kept[..|kept| - 1], kept[|kept| - 1];
      assert kept == init + [x];
      WindowAtMost(init, begin, end);
      WindowSized(init, x, begin, end);
      SizeSnoc(init, x);
    }
  }

  // A compaction takes no more than the attributes of the log did.
  lemma RangeAtMost(log: seq<Item>, begin: nat, end: nat)
    ensures RangeSize(OnDisk(log), begin, end) <= SizeOf(Attrs(log))
  {
    hide SizeOf, Window, Select, KeptOf, Attrs;
    OnDiskGroups(log);
    KeptSize(log);
    SelectSize(KeptOf(Singles(log)));
    WindowAtMost(Select(KeptOf(Singles(log)), false), begin, end);
  }

  // Every write of an entry comes from an attribute of the log.
  lemma {:induction false} WriteIsItem(log: seq<Item>, i: nat, n: nat)
    requires i < |Replay(log)| && n < |Replay(log)[i]|
    ensures exists k :: 0 <= k < |log| && WriteOf(log[k]) == Replay(log)[i][n]
    decreases |log|
  {
    if log != [] {
      var init, x := log[..|log| - 1], log[|log| - 1];
      var s, w := Replay(init), Replay(log)[i][n];
      assert WriteOf(log[|log| - 1]) == WriteOf(x);
      if w != WriteOf(x) {
        var j :| 0 <= j < |s| && n < |s[j]| && s[j][n] == w;
        WriteIsItem(init, j, n);
        var k :| 0 <= k < |init| && WriteOf(init[k]) == w;
        assert log[k] == init[k];
      }
    }
  }

  lemma {:induction false} SizeAtLeast(xs: seq<Item>, k: nat)
    requires k < |xs|
    ensures SizeOf(xs) >= xs[k].tag.Dsize()
    decreases |xs|
  {
    if k < |xs| - 1 {
      SizeAtLeast(xs[..|xs| - 1], k);
    }
  }

  lemma {:induction false} LatestIsWrite(e: Entry, key: nat) returns (n: nat)
    requires Latest(e, key).Some?
    ensures n < |e| && e[n] == Latest(e, key).value && e[n].size != DELETED_SIZE
    decreases |e|
  {
    n := |e| - 1;
    if Key(e[n].type3) != key {
      n := LatestIsWrite(e[..n], key);
    }
  }

  // And no less than what any value of an entry in the range needs.
  lemma RangeAtLeast(log: seq<Item>, begin: nat, end: nat, i: nat, key: nat)
    requires Settled(log) && begin <= i < end <= |Replay(log)| && Latest(Replay(log)[i], key).Some?
    ensures RangeSize(OnDisk(log), begin, end) >= 4 + Latest(Replay(log)[i], key).value.size
  {
    hide SizeOf, Replay, AllNamed, WellFormed, TailOf, Latest, Gathered;
    OnDiskGroups(log);
    FlatSingles(log);
    GatheredIsRange(OnDisk(log), begin, end);
    var out := Gathered(OnDisk(log), begin, end);
    var e := Replay(out)[i - begin];
    assert Replay(log)[begin..end][i - begin] == Replay(log)[i];
    assert Latest(e, key) == Latest(Replay(log)[i], key);
    var n := LatestIsWrite(e, key);
    WriteIsItem(out, i - begin, n);
    var k :| 0 <= k < |out| && WriteOf(out[k]) == e[n];
    SizeAtLeast(out, k);
  }

  // ---- the store --------------------------------------------------------------------------------

  lemma {:induction false} ChainAppend(logs: map<Pair, seq<Item>>, a: seq<Pair>, b: seq<Pair>, last: Option<Tail>)
    requires b != [] && Chain(logs, a, Some(Tail(b[0], true))) && Chain(logs, b, last)
    ensures Chain(logs, a + b, last)
    ensures ChainEntries(logs, a + b) == ChainEntries(logs, a) + ChainEntries(logs, b)
    decreases |a|
  {
    hide *;
    ChainIs(logs, a, Some(Tail(b[0], true)));
    JoinedParts(a, b);
    ChainIs(logs, a + b, last);
    if |a| == 1 {
      ChainNone(logs);
      PlusNothing(ChainEntries(logs, a[1..]), ChainEntries(logs, b));
    } else {
      ChainAppend(logs, a[1..], b, last);
    }
  }

  lemma ChainIs(logs: map<Pair, seq<Item>>, chain: seq<Pair>, last: Option<Tail>)
    ensures Chain(logs, chain, last) <==>
              && chain != [] && chain[0] in logs && Settled(logs[chain[0]])
              && if |chain| == 1 then TailOf(logs[chain[0]]) == last
                 else TailOf(logs[chain[0]]) == Some(Tail(chain[1], true)) && Chain(logs, chain[1..], last)
    ensures chain != [] && chain[0] in logs ==>
              ChainEntries(logs, chain) == Replay(logs[chain[0]]) + ChainEntries(logs, chain[1..])
  {
    hide Settled, TailOf, Replay;
  }

  lemma ChainNone(logs: map<Pair, seq<Item>>)
    ensures ChainEntries(logs, []) == []
  {
  }

  lemma PlusNothing<T>(s: seq<T>, t: seq<T>)
    requires s == []
    ensures s + t == t
  {
  }

  lemma JoinedParts<T>(a: seq<T>, b: seq<T>)
    requires a != [] && b != []
    ensures (a + b)[1..] == a[1..] + b && (a + b)[0] == a[0]
    ensures |a| > 1 ==> (a + b)[1] == a[1]
    ensures |a| == 1 ==> a[1..] == [] && (a + b)[1..] == b && (a + b)[1] == b[0]
  {
  }

  lemma SameEntriesConcat(a: seq<Entry>, b: seq<Entry>, s: seq<Entry>, i: nat, j: nat, k: nat)
    requires i <= j <= k <= |s|
    requires SameEntries(a, s[i..j]) && SameEntries(b, s[j..k])
    ensures SameEntries(a + b, s[i..k])
  {
    assert s[i..k] == s[i..j] + s[j..k];
  }

  // Every log but dir's is still there.
  ghost predicate Keeps(was: map<Pair, seq<Item>>, logs: map<Pair, seq<Item>>, dir: set<Pair>) {
    forall p :: p in was && p !in dir ==> p in logs && logs[p] == was[p]
  }

  // New logs are those of the given pairs only.
  ghost predicate Grows(was: map<Pair, seq<Item>>, logs: map<Pair, seq<Item>>, more: set<Pair>) {
    forall p :: p in logs ==> p in was || p in more
  }

  ghost predicate Unlogged(logs: map<Pair, seq<Item>>, pairs: set<Pair>) {
    forall p :: p in pairs ==> p !in logs
  }

  lemma GrowsTwice(a: map<Pair, seq<Item>>, b: map<Pair, seq<Item>>, c: map<Pair, seq<Item>>, pool: set<Pair>,
                   free: set<Pair>, unused: set<Pair>)
    requires Grows(a, b, pool - free) && Grows(b, c, free - unused) && unused <= free <= pool
    ensures Grows(a, c, pool - unused)
  {
  }

  lemma KeepsTwice(a: map<Pair, seq<Item>>, b: map<Pair, seq<Item>>, c: map<Pair, seq<Item>>)
    requires Keeps(a, b, {}) && Keeps(b, c, {})
    ensures Keeps(a, c, {})
  {
  }

  ghost predicate Apart(chain: seq<Pair>, pairs: set<Pair>) {
    forall i :: 0 <= i < |chain| ==> chain[i] !in pairs
  }

  lemma AllInApart(chain: seq<Pair>, a: set<Pair>, b: set<Pair>)
    requires AllIn(chain, a) && a !! b
    ensures Apart(chain, b)
  {
  }

  lemma AllInMore(chain: seq<Pair>, a: set<Pair>, b: set<Pair>)
    requires AllIn(chain, a) && a <= b
    ensures AllIn(chain, b)
  {
  }

  ghost predicate AllFrom(chain: seq<Pair>, rest: seq<Pair>, pairs: set<Pair>) {
    forall i :: 0 <= i < |chain| ==> chain[i] in rest || chain[i] in pairs
  }

  lemma AllInTwice(chain: seq<Pair>, rest: seq<Pair>, a: set<Pair>, b: set<Pair>, c: set<Pair>)
    requires AllFrom(chain, rest, b) && AllIn(rest, a) && a <= c && b <= c
    ensures AllIn(chain, c)
  {
  }

  ghost predicate AllIn(chain: seq<Pair>, pairs: set<Pair>) {
    forall i :: 0 <= i < |chain| ==> chain[i] in pairs
  }

  // What the directories of a chain add to the global state.
  function ChainTotal(logs: map<Pair, seq<Item>>, chain: seq<Pair>): G {
    if chain == [] then ZERO else Xor(OwnDelta(logs, chain[0]), ChainTotal(logs, chain[1..]))
  }

  function OwnDelta(logs: map<Pair, seq<Item>>, dir: Pair): G {
    if dir in logs then DeltaOf(logs[dir]) else ZERO
  }

  lemma {:induction false} ChainTotalConcat(logs: map<Pair, seq<Item>>, a: seq<Pair>, b: seq<Pair>)
    ensures ChainTotal(logs, a + b) == Xor(ChainTotal(logs, a), ChainTotal(logs, b))
    decreases |a|
  {
    hide Xor, OwnDelta;
    if a == [] {
      assert a + b == b;
      XorSelf(ChainTotal(logs, b));
    } else {
      assert (a + b)[1..] == a[1..] + b;
      ChainTotalConcat(logs, a[1..], b);
      XorAssoc(OwnDelta(logs, a[0]), ChainTotal(logs, a[1..]), ChainTotal(logs, b));
    }
  }

  lemma {:induction false} ChainTotalFrame(logs: map<Pair, seq<Item>>, logs': map<Pair, seq<Item>>, chain: seq<Pair>)
    requires forall p :: p in chain ==> p in logs && p in logs' && logs'[p] == logs[p]
    ensures ChainTotal(logs', chain) == ChainTotal(logs, chain)
    decreases |chain|
  {
    hide Xor, DeltaOf;
    if chain != [] {
      assert chain[0] in chain && forall p :: p in chain[1..] ==> p in chain;
      ChainTotalFrame(logs, logs', chain[1..]);
    }
  }

  ghost predicate AllLogged(logs: map<Pair, seq<Item>>, chain: seq<Pair>) {
    forall p :: p in chain ==> p in logs
  }

  // Every record keeps the count of orphans out.
  ghost predicate Uncounted(logs: map<Pair, seq<Item>>) {
    forall p :: p in logs ==> Count(DeltaOf(logs[p]).tag) == 0
  }

  class Store {
    const blockSize: nat
    const progSize: nat
    // the log of every pair that has been written
    var logs: map<Pair, seq<Item>>
    // the pairs that the allocator can hand out
    var unused: set<Pair>
    // the change of the global state that the next commit has to record
    var delta: G
    // whether it has been recorded since
    var written: bool

    ghost predicate Valid()
      reads this
    {
      && blockSize >= 36 && progSize > 0 && Unlogged(logs, unused)
      && Uncounted(logs) && Count(delta.tag) == 0
    }

    constructor (blockSize: nat, progSize: nat, logs: map<Pair, seq<Item>>, unused: set<Pair>, delta: G)
      requires blockSize >= 36 && progSize > 0 && Unlogged(logs, unused)
      requires Uncounted(logs) && Count(delta.tag) == 0
      ensures Valid() && !written
      ensures this.blockSize == blockSize && this.progSize == progSize
      ensures this.logs == logs && this.unused == unused && this.delta == delta
    {
      this.blockSize, this.progSize := blockSize, progSize;
      this.logs, this.unused, this.delta, this.written := logs, unused, delta, false;
    }

    // The last part of lfs_dir_compact: the directory's own part of the global state is fed
    // into the delta; then header, attributes, tail, global state and checksum are written.
    method Write(dir: Pair, out: seq<Item>, tail: Option<Tail>) returns (ok: bool)
      requires Valid() && dir !in unused
      requires Settled(out) && TailOf(out) == None && NoState(out)
      modifies this
      ensures Valid() && unused == old(unused)
      ensures var fed := Xor(old(delta), OwnDelta(old(logs), dir));
              && delta == (if ok then ZERO else fed)
              && (ok <==> WriteFits(blockSize, SizeOf(out), tail.Some?, fed))
              && (ok ==> dir in logs && DeltaOf(logs[dir]) == fed)
      ensures written == (ok || old(written))
      ensures !ok ==> logs == old(logs)
      ensures ok ==> dir in logs && Settled(logs[dir]) && TailOf(logs[dir]) == tail
      ensures ok ==> logs == old(logs)[dir := logs[dir]] && Replay(logs[dir]) == Replay(out)
    {
      hide *;
      ValidParts();
      OwnIs(logs, dir, delta);
      if dir in logs {
        delta := GetState(logs[dir], delta);
      }
      var log := out;
      DeltaOfNothing(out);
      if tail.Some? {
        TailItemIs(log, tail.value);
        log := log + [TailItem(tail.value)];
      }
      if delta != ZERO {
        StateItemIs(log, delta);
        log := log + [StateItem(delta)];
      }
      FitsIs(blockSize, SizeOf(out), tail.Some?, delta);
      IsValid();
      if 4 + SizeOf(log) > blockSize - 8 {
        return false;
      }
      SealIs(log);
      NothingCountedIn();
      UncountedUpdate(logs, dir, log + [SEAL], unused);
      logs, delta, written := logs[dir := log + [SEAL]], ZERO, true;
      IsValid();
      return true;
    }

    lemma ValidParts()
      requires Valid()
      ensures blockSize >= 36 && progSize > 0 && Unlogged(logs, unused) && Uncounted(logs) && Count(delta.tag) == 0
    {
      hide Uncounted, Count;
    }

    lemma IsValid()
      requires blockSize >= 36 && progSize > 0 && Unlogged(logs, unused) && Uncounted(logs) && Count(delta.tag) == 0
      ensures Valid()
    {
      hide Uncounted, Count;
    }

    // lfs_dir_split: a fresh pair takes the entries [mid, upto), and goes on where the
    // directory being compacted went on.
    method SplitUpper(stream: seq<Attr>, mid: nat, upto: nat, rest: seq<Pair>, next: Option<Tail>,
                      ghost tail: Option<Tail>, ghost end: nat)
      returns (r: Result<seq<Pair>>)
      requires Valid()
      requires Legal(stream) && SpecialsLast(stream) && Settled(Flat(Groups(stream)))
      requires mid <= upto <= end <= |Replay(Flat(Groups(stream)))|
      requires next == NextOf(rest, tail) && SplitOff(logs, rest, tail, Replay(Flat(Groups(stream))), upto, end)
      requires Apart(rest, unused) && AllLogged(logs, rest)
      modifies this
      ensures Valid() && unused <= old(unused)
      ensures Keeps(old(logs), logs, {}) && Grows(old(logs), logs, old(unused) - unused)
      ensures r.Err? ==> r == Err(NoSpc) && SplitOff(logs, rest, tail, Replay(Flat(Groups(stream))), upto, end)
      ensures AllLogged(logs, rest) && ChainTotal(logs, rest) == old(ChainTotal(logs, rest))
      ensures r.Ok? ==>
                && r.value != []
                && SplitOff(logs, r.value, tail, Replay(Flat(Groups(stream))), mid, end)
                && AllFrom(r.value, rest, old(unused) - unused)
                && AllLogged(logs, r.value)
      ensures var u := Upper(blockSize, progSize, stream, mid, upto, next.Some?, old(|unused|), old(delta));
              && (r.Ok? <==> u.ok) && |unused| == u.left && delta == u.delta && written == (old(written) || u.written)
              && (r.Ok? ==> ChainTotal(logs, r.value) == old(Xor(delta, ChainTotal(logs, rest))))
      decreases upto - mid, 3
    {
      hide *;
      ghost var was, free, s := logs, unused, Replay(Flat(Groups(stream)));
      ValidParts();
      ghost var pairs, delta0 := |unused|, delta;
      UpperIs(blockSize, progSize, stream, mid, upto, next.Some?, pairs, delta);
      if unused == {} {
        KeepsAll(logs);
        return Err(NoSpc);
      }
      var pair :| pair in unused;
      FreshPair(was, pair, free, rest);
      unused := unused - {pair};
      IsValid();
      NotOwned(logs, pair);
      assert pairs > 0 && |unused| == pairs - 1;
      XorSelf(delta0);
      r := Compact(pair, stream, mid, upto, next);
      KeepsRest(was, logs, pair, rest);
      ChainTotalFrame(was, logs, rest);
      KeysGrow(was, logs, pair, unused, free);
      if r.Err? {
        SplitOffFrame(was, logs, rest, tail, s, upto, end);
      } else {
        Joined(was, logs, r.value, rest, tail, s, mid, upto, end);
        ChainTotalConcat(logs, r.value, rest);
        UpperPairs(logs, r.value, rest, pair, unused, free);
        r := Ok(r.value + rest);
      }
    }

    // Compact the entries [begin, end) of a stream into dir, splitting off the upper half
    // into a fresh pair as long as they are too big. What becomes of it is Compacted; what
    // the chain adds to the global state is then the delta and what the directory added
    // before, but for what has been lost.
    method Compact(dir: Pair, stream: seq<Attr>, begin: nat, end: nat, tail: Option<Tail>)
      returns (r: Result<seq<Pair>>)
      requires Valid() && dir !in unused
      requires Legal(stream) && SpecialsLast(stream) && Settled(Flat(Groups(stream)))
      requires begin <= end <= |Replay(Flat(Groups(stream)))|
      modifies this
      ensures Valid() && unused <= old(unused)
      // pairs that were in use keep their logs, and so does dir itself when this fails
      ensures Keeps(old(logs), logs, if r.Err? then {} else {dir})
      ensures Grows(old(logs), logs, {dir} + (old(unused) - unused))
      ensures r.Err? ==> r == Err(NoSpc) && (dir in logs <==> dir in old(logs))
      ensures r.Ok? ==>
                && r.value != [] && r.value[0] == dir
                && AllIn(r.value[1..], old(unused) - unused) && AllLogged(logs, r.value)
                && Chain(logs, r.value, tail)
                && SameEntries(ChainEntries(logs, r.value), Replay(Flat(Groups(stream)))[begin..end])
      ensures var o := Compacted(blockSize, progSize, stream, begin, end, tail.Some?, old(|unused|), old(delta),
                                 OwnDelta(old(logs), dir));
              && (r.Ok? <==> o.ok) && |unused| == o.left && delta == o.delta && written == (old(written) || o.written)
              && (r.Ok? ==> ChainTotal(logs, r.value) == old(Xor(delta, OwnDelta(logs, dir))))
      ensures Enough(blockSize, progSize, stream, begin, end, old(|unused|)) ==>
                && r.Ok? && delta == ZERO && old(|unused|) - |unused| <= (if begin < end then end - begin - 1 else 0)
                && ChainTotal(logs, r.value) == old(Xor(delta, OwnDelta(logs, dir)))
      decreases end - begin, 2
    {
      hide *;
      ghost var s, own, delta0 := Replay(Flat(Groups(stream))), OwnDelta(logs, dir), delta;
      ghost var logs0, pool := logs, unused;
      ghost var l0 := Loop(true, end, tail.Some?, |unused|, delta, false);
      ValidParts();
      CompactedIs(blockSize, progSize, stream, begin, end, tail.Some?, |unused|, delta, own);
      EnoughIsEnough(blockSize, progSize, stream, begin, end, tail.Some?, |unused|, delta, own);
      var split := SplitLoop(stream, begin, end, tail);
      ghost var l := Looped(blockSize, progSize, stream, begin, l0);
      if split.Err? {
        KeepsDir(logs0, logs, dir, unused, pool);
        return Err(NoSpc);
      }
      var (upto, rest) := split.value;
      var out := Traversal(stream, false, begin, upto, 0);
      GatheredIs(stream, begin, upto);
      GatheredIsRange(stream, begin, upto);
      ghost var was, left := logs, delta;
      KeepsDir(logs0, logs, dir, unused, pool);
      KeptDelta(logs0, logs, dir);
      var ok := Write(dir, out, NextOf(rest, tail));
      if !ok {
        return Err(NoSpc);
      }
      LastOfChain(logs0, was, logs, dir, rest, unused, pool);
      JoinedLast(was, logs, dir, out, rest, tail, s, begin, upto, end);
      DirTotal(was, logs, dir, rest, own, delta0, left);
      return Ok([dir] + rest);
    }

    // The size that the entries of a range would take up.
    method Measure(stream: seq<Attr>, begin: nat, end: nat) returns (size: nat)
      requires Legal(stream) && SpecialsLast(stream)
      ensures size == RangeSize(stream, begin, end)
    {
      hide Window, Select, KeptOf, SizeOf;
      var all := Traversal(stream, false, begin, end, 0);
      size := SizeOf(all);
    }

    // The splitting loop: what is left for the pair itself, and the chain split off.
    method SplitLoop(stream: seq<Attr>, begin: nat, end: nat, tail: Option<Tail>)
      returns (r: Result<(nat, seq<Pair>)>)
      requires Valid()
      requires Legal(stream) && SpecialsLast(stream) && Settled(Flat(Groups(stream)))
      requires begin <= end <= |Replay(Flat(Groups(stream)))|
      modifies this
      ensures Valid() && unused <= old(unused)
      ensures Keeps(old(logs), logs, {}) && Grows(old(logs), logs, old(unused) - unused)
      ensures r.Err? ==> r == Err(NoSpc)
      ensures r.Ok? ==>
                && begin <= r.value.0 <= end
                && AllIn(r.value.1, old(unused) - unused) && AllLogged(logs, r.value.1)
                && SplitOff(logs, r.value.1, tail, Replay(Flat(Groups(stream))), r.value.0, end)
      ensures var l := Looped(blockSize, progSize, stream, begin,
                              Loop(true, end, tail.Some?, old(|unused|), old(delta), false));
              && (r.Ok? <==> l.ok) && |unused| == l.left && delta == l.delta && written == (old(written) || l.written)
              && (r.Ok? ==> l.upto == r.value.0 && l.next == NextOf(r.value.1, tail).Some?
                            && Xor(delta, ChainTotal(logs, r.value.1)) == old(delta))
      decreases end - begin, 1
    {
      hide *;
      ghost var s := Replay(Flat(Groups(stream)));
      ghost var before, pool, delta0, wrote := logs, unused, delta, written;
      var upto, rest, next := end, [], tail;
      // where the loop has got to
      ghost var l := Loop(true, end, tail.Some?, |unused|, delta, false);
      ghost var l0 := l;
      NothingSplitOff(logs, tail, s, end);
      NothingTotal(logs, delta);
      assert AllIn(rest, pool - unused) by {
        assert pool - unused == {};
      }
      ValidParts();
      // is it too much for one pair?
      while upto - begin > 1
        invariant Valid() && begin <= upto <= end && unused <= pool
        invariant Keeps(before, logs, {}) && Grows(before, logs, pool - unused)
        invariant AllIn(rest, pool - unused) && AllLogged(logs, rest)
        invariant next == NextOf(rest, tail)
        invariant SplitOff(logs, rest, tail, s, upto, end)
        invariant l.ok && l.upto == upto && l.next == next.Some? && l.left == |unused| && l.delta == delta
        invariant written == (wrote || l.written)
        invariant Looped(blockSize, progSize, stream, begin, l) == Looped(blockSize, progSize, stream, begin, l0)
        invariant Xor(delta, ChainTotal(logs, rest)) == delta0
        decreases upto - begin
      {
        ValidParts();
        LoopEnds(blockSize, progSize, stream, begin, l);
        var size := Measure(stream, begin, upto);
        IsOnePair(blockSize, progSize, upto - begin, size);
        if upto - begin < 0xff && size <= SizeLimit(blockSize, progSize) {
          return Ok((upto, rest));
        }
        var half := (upto - begin) / 2;
        ghost var was, free, left := logs, unused, delta;
        AllInApart(rest, pool - unused, unused);
        var upper := SplitUpper(stream, begin + half, upto, rest, next, tail, end);
        KeepsTwice(before, was, logs);
        GrowsTwice(before, was, logs, pool, free, unused);
        ghost var u := Upper(blockSize, progSize, stream, begin + half, upto, next.Some?, |free|, left);
        LoopGoesOn(blockSize, progSize, stream, begin, l, u);
        if upper.Err? {
          AllInMore(rest, pool - free, pool - unused);
          // splitting has failed, but without it there may be room enough
          if size <= blockSize - 36 {
            return Ok((upto, rest));
          }
          return Err(upper.error);
        }
        AllInTwice(upper.value, rest, pool - free, free - unused, pool - unused);
        XorSelf(ChainTotal(logs, upper.value));
        rest := upper.value;
        NextIs(rest, tail);
        next := Some(Tail(rest[0], true));
        upto := begin + half;
        l := Loop(true, upto, true, u.left, u.delta, true);
      }
      ValidParts();
      LoopEnds(blockSize, progSize, stream, begin, l);
      IsOnePair(blockSize, progSize, upto - begin, RangeSize(stream, begin, upto));
      return Ok((upto, rest));
    }
  }

  lemma OwnIs(logs: map<Pair, seq<Item>>, dir: Pair, delta: G)
    requires Uncounted(logs) && Count(delta.tag) == 0
    ensures Count(Xor(delta, OwnDelta(logs, dir)).tag) == 0
    ensures if dir in logs then OwnDelta(logs, dir) == DeltaOf(logs[dir]) else Xor(delta, OwnDelta(logs, dir)) == delta
  {
    hide DeltaOf, Xor, Count;
    NothingCountedIn();
    XorSelf(delta);
    UncountedXor(delta, OwnDelta(logs, dir));
  }

  lemma NotOwned(logs: map<Pair, seq<Item>>, pair: Pair)
    ensures pair !in logs ==> OwnDelta(logs, pair) == ZERO
  {
    hide DeltaOf;
  }

  lemma UncountedUpdate(logs: map<Pair, seq<Item>>, dir: Pair, log: seq<Item>, unused: set<Pair>)
    requires Uncounted(logs) && Count(DeltaOf(log).tag) == 0 && Unlogged(logs, unused) && dir !in unused
    ensures Uncounted(logs[dir := log]) && Unlogged(logs[dir := log], unused)
  {
    hide DeltaOf, Count;
  }

  lemma FitsIs(blockSize: nat, size: nat, next: bool, fed: G)
    ensures WriteFits(blockSize, size, next, fed)
       <==> 4 + size + (if next then 12 else 0) + (if fed == ZERO then 0 else 16) + 8 <= blockSize
  {
  }

  lemma CompactedIs(blockSize: nat, progSize: nat, stream: seq<Attr>, begin: nat, end: nat, next: bool,
                    pairs: nat, delta: G, own: G)
    requires Legal(stream) && blockSize >= 36 && progSize > 0 && begin <= end
    ensures var o := Compacted(blockSize, progSize, stream, begin, end, next, pairs, delta, own);
            var l := Looped(blockSize, progSize, stream, begin, Loop(true, end, next, pairs, delta, false));
            var fed := Xor(l.delta, own);
            && begin <= l.upto <= end
            && o == if !l.ok then Packing(false, l.left, l.delta, false, l.written)
                    else if WriteFits(blockSize, SizeOf(Gathered(stream, begin, l.upto)), l.next, fed) then
                      Packing(true, l.left, ZERO, true, true)
                    else Packing(false, l.left, fed, true, l.written)
  {
    hide Looped, Gathered, SizeOf, WriteFits, Xor;
  }

  lemma IsOnePair(blockSize: nat, progSize: nat, entries: int, size: nat)
    requires blockSize >= 36 && progSize > 0
    ensures OnePair(blockSize, progSize, entries, size)
       <==> entries <= 1 || (entries < 0xff && size <= SizeLimit(blockSize, progSize))
  {
    hide SizeLimit;
  }

  lemma LoopEnds(blockSize: nat, progSize: nat, stream: seq<Attr>, begin: nat, l: Loop)
    requires Legal(stream) && blockSize >= 36 && progSize > 0 && begin <= l.upto
    ensures OnePair(blockSize, progSize, l.upto - begin, RangeSize(stream, begin, l.upto)) ==>
              Looped(blockSize, progSize, stream, begin, l) == l
  {
    hide Compacted, RangeSize, Xor, SizeLimit;
  }

  lemma UpperIs(blockSize: nat, progSize: nat, stream: seq<Attr>, mid: nat, upto: nat, next: bool, pairs: nat, delta: G)
    requires Legal(stream) && blockSize >= 36 && progSize > 0 && mid <= upto
    ensures Upper(blockSize, progSize, stream, mid, upto, next, pairs, delta)
         == if pairs == 0 then Packing(false, 0, delta, false, false)
            else Compacted(blockSize, progSize, stream, mid, upto, next, pairs - 1, delta, ZERO)
  {
    hide Compacted;
  }

  lemma LoopGoesOn(blockSize: nat, progSize: nat, stream: seq<Attr>, begin: nat, l: Loop, u: Packing)
    requires Legal(stream) && blockSize >= 36 && progSize > 0 && begin <= l.upto
    requires !OnePair(blockSize, progSize, l.upto - begin, RangeSize(stream, begin, l.upto))
    requires u == Upper(blockSize, progSize, stream, begin + (l.upto - begin) / 2, l.upto, l.next, l.left, l.delta)
    ensures u.ok ==> u.delta == ZERO && u.written
    ensures u.ok ==>
              Looped(blockSize, progSize, stream, begin, l)
              == Looped(blockSize, progSize, stream, begin,
                        Loop(l.ok, begin + (l.upto - begin) / 2, true, u.left, u.delta, true))
    ensures !u.ok && RangeSize(stream, begin, l.upto) <= blockSize - 36 ==> u.delta == l.delta && !u.written
    ensures !u.ok ==>
              Looped(blockSize, progSize, stream, begin, l)
              == Loop(RangeSize(stream, begin, l.upto) <= blockSize - 36, l.upto, l.next, u.left, u.delta,
                      l.written || u.written)
  {
    hide Compacted, RangeSize, Xor, SizeLimit;
    var mid := begin + (l.upto - begin) / 2;
    if l.left > 0 {
      PackingDelta(blockSize, progSize, stream, mid, l.upto, l.next, l.left - 1, l.delta, ZERO);
      UpperIsSmaller(stream, begin, mid, l.upto);
      if RangeSize(stream, begin, l.upto) <= blockSize - 36 {
        SmallPacking(blockSize, progSize, stream, mid, l.upto, l.next, l.left - 1, l.delta);
      }
    }
  }

  lemma EnoughIsEnough(blockSize: nat, progSize: nat, stream: seq<Attr>, begin: nat, end: nat, next: bool,
                       pairs: nat, delta: G, own: G)
    requires Legal(stream) && begin <= end && blockSize >= 36 && progSize > 0
    ensures var o := Compacted(blockSize, progSize, stream, begin, end, next, pairs, delta, own);
            && (o.ok ==> o.delta == ZERO)
            && (Enough(blockSize, progSize, stream, begin, end, pairs) ==>
                  o.ok && pairs - o.left <= if begin < end then end - begin - 1 else 0)
  {
    hide Compacted, Enough;
    PackingDelta(blockSize, progSize, stream, begin, end, next, pairs, delta, own);
    if Enough(blockSize, progSize, stream, begin, end, pairs) {
      EnoughSucceeds(blockSize, progSize, stream, begin, end, next, pairs, delta, own);
    }
  }

  lemma KeepsAll(logs: map<Pair, seq<Item>>)
    ensures Keeps(logs, logs, {}) && forall more :: Grows(logs, logs, more)
  {
  }

  lemma FreshPair(logs: map<Pair, seq<Item>>, pair: Pair, free: set<Pair>, rest: seq<Pair>)
    requires pair in free && Unlogged(logs, free) && AllLogged(logs, rest)
    ensures pair !in logs && pair !in rest && Unlogged(logs, free - {pair})
    ensures |free - {pair}| == |free| - 1
  {
  }

  lemma KeepsRest(was: map<Pair, seq<Item>>, logs: map<Pair, seq<Item>>, pair: Pair, rest: seq<Pair>)
    requires (Keeps(was, logs, {}) || Keeps(was, logs, {pair})) && pair !in was && AllLogged(was, rest)
    ensures Keeps(was, logs, {}) && AllLogged(logs, rest)
    ensures forall p :: p in rest ==> p in was && p in logs && logs[p] == was[p]
  {
  }

  lemma KeysGrow(was: map<Pair, seq<Item>>, logs: map<Pair, seq<Item>>, pair: Pair, unused: set<Pair>, free: set<Pair>)
    requires Grows(was, logs, {pair} + (free - {pair} - unused)) && pair in free && unused <= free - {pair}
    ensures Grows(was, logs, free - unused)
  {
  }

  lemma UpperPairs(logs: map<Pair, seq<Item>>, upper: seq<Pair>, rest: seq<Pair>, pair: Pair, unused: set<Pair>,
          free: set<Pair>)
    requires upper != [] && upper[0] == pair && AllIn(upper[1..], free - {pair} - unused)
    requires pair in free && unused <= free - {pair} && AllLogged(logs, upper) && AllLogged(logs, rest)
    ensures AllFrom(upper + rest, rest, free - unused)
    ensures AllLogged(logs, upper + rest) && upper + rest != []
  {
    forall i | 0 <= i < |upper + rest|
      ensures (upper + rest)[i] in rest || (upper + rest)[i] in free - unused
    {
      if 0 < i < |upper| {
        assert upper[i] == upper[1..][i - 1];
      }
    }
  }

  lemma NothingTotal(logs: map<Pair, seq<Item>>, delta: G)
    ensures Xor(delta, ChainTotal(logs, [])) == delta && AllLogged(logs, [])
  {
    XorSelf(delta);
    hide Xor;
  }

  lemma KeptDelta(was: map<Pair, seq<Item>>, logs: map<Pair, seq<Item>>, dir: Pair)
    requires Keeps(was, logs, {}) && (dir in logs ==> dir in was)
    ensures OwnDelta(logs, dir) == OwnDelta(was, dir)
  {
    hide DeltaOf;
  }

  lemma KeepsDir(was: map<Pair, seq<Item>>, logs: map<Pair, seq<Item>>, dir: Pair, unused: set<Pair>, pool: set<Pair>)
    requires Keeps(was, logs, {}) && Grows(was, logs, pool - unused) && dir !in pool
    ensures (dir in logs <==> dir in was) && Grows(was, logs, {dir} + (pool - unused))
  {
    assert dir in was ==> dir in logs;
  }

  lemma GatheredIs(stream: seq<Attr>, begin: nat, end: nat)
    requires Legal(stream)
    ensures Gathered(stream, begin, end) == Window(Select(KeptOf(Groups(stream)), false), begin, end, 0)
  {
    hide Window, Select, KeptOf, Groups;
  }

  // The chain ends up as the directory itself and what has been split off it.
  lemma LastOfChain(logs0: map<Pair, seq<Item>>, was: map<Pair, seq<Item>>, logs: map<Pair, seq<Item>>, dir: Pair,
                    rest: seq<Pair>, unused: set<Pair>, pool: set<Pair>)
    requires Keeps(logs0, was, {}) && Grows(logs0, was, pool - unused) && AllLogged(was, rest)
    requires dir in logs && logs == was[dir := logs[dir]] && AllIn(rest, pool - unused) && dir !in pool
    ensures Keeps(logs0, logs, {dir}) && Grows(logs0, logs, {dir} + (pool - unused))
    ensures dir !in rest && AllLogged(logs, [dir] + rest)
    ensures ([dir] + rest)[1..] == rest && ([dir] + rest)[0] == dir
  {
  }

  lemma DirTotal(was: map<Pair, seq<Item>>, logs: map<Pair, seq<Item>>, dir: Pair, rest: seq<Pair>,
                 own: G, delta0: G, left: G)
    requires dir in logs && logs == was[dir := logs[dir]] && dir !in rest && AllLogged(was, rest)
    requires DeltaOf(logs[dir]) == Xor(left, own) && Xor(left, ChainTotal(was, rest)) == delta0
    ensures ChainTotal(logs, [dir] + rest) == Xor(delta0, own)
  {
    hide Xor, DeltaOf;
    assert ([dir] + rest)[1..] == rest;
    ChainTotalFrame(was, logs, rest);
    XorSwap(left, own, ChainTotal(was, rest));
  }

  function NextOf(rest: seq<Pair>, tail: Option<Tail>): Option<Tail> {
    if rest == [] then tail else Some(Tail(rest[0], true))
  }

  // The chain split off so far holds the entries from j to k.
  ghost predicate SplitOff(logs: map<Pair, seq<Item>>, rest: seq<Pair>, tail: Option<Tail>,
                           s: seq<Entry>, j: nat, k: nat)
  {
    j <= k <= |s| &&
    if rest == [] then j == k
    else Chain(logs, rest, tail) && SameEntries(ChainEntries(logs, rest), s[j..k])
  }

  lemma NothingSplitOff(logs: map<Pair, seq<Item>>, tail: Option<Tail>, s: seq<Entry>, k: nat)
    requires k <= |s|
    ensures SplitOff(logs, [], tail, s, k, k) && AllIn([], {}) && Keeps(logs, logs, {})
    ensures forall more :: Grows(logs, logs, more)
    ensures NextOf([], tail) == tail
  {
  }

  lemma NextIs(rest: seq<Pair>, tail: Option<Tail>)
    requires rest != []
    ensures NextOf(rest, tail) == Some(Tail(rest[0], true))
  {
  }

  lemma SplitOffFrame(was: map<Pair, seq<Item>>, logs: map<Pair, seq<Item>>, rest: seq<Pair>, tail: Option<Tail>,
                      s: seq<Entry>, j: nat, k: nat)
    requires SplitOff(was, rest, tail, s, j, k)
    requires forall p :: p in rest && p in was ==> p in logs && logs[p] == was[p]
    ensures SplitOff(logs, rest, tail, s, j, k)
  {
    hide Chain, ChainEntries, SameEntries;
    if rest != [] {
      ChainFrame(was, logs, rest, tail);
    }
  }

  // The upper half, just compacted, goes in front of what has been split off before.
  lemma Joined(was: map<Pair, seq<Item>>, logs: map<Pair, seq<Item>>, upper: seq<Pair>, rest: seq<Pair>,
               tail: Option<Tail>, s: seq<Entry>, i: nat, j: nat, k: nat)
    requires SplitOff(was, rest, tail, s, j, k) && i <= j
    requires upper != [] && Chain(logs, upper, NextOf(rest, tail)) && SameEntries(ChainEntries(logs, upper), s[i..j])
    requires forall p :: p in rest && p in was ==> p in logs && logs[p] == was[p]
    ensures SplitOff(logs, upper + rest, tail, s, i, k)
  {
    hide Chain, ChainEntries, SameEntries;
    if rest == [] {
      assert upper + rest == upper;
    } else {
      ChainFrame(was, logs, rest, tail);
      ChainAppend(logs, upper, rest, tail);
      SameEntriesConcat(ChainEntries(logs, upper), ChainEntries(logs, rest), s, i, j, k);
    }
  }

  // The lower half, written last, goes in front of everything.
  lemma JoinedLast(was: map<Pair, seq<Item>>, logs: map<Pair, seq<Item>>, dir: Pair, out: seq<Item>, rest: seq<Pair>,
                   tail: Option<Tail>, s: seq<Entry>, i: nat, j: nat, k: nat)
    requires SplitOff(was, rest, tail, s, j, k) && i <= j
    requires dir in logs && Settled(logs[dir]) && logs == was[dir := logs[dir]] && dir !in rest
    requires TailOf(logs[dir]) == NextOf(rest, tail)
    requires Replay(logs[dir]) == Replay(out) && SameEntries(Replay(out), s[i..j])
    ensures Chain(logs, [dir] + rest, tail) && SameEntries(ChainEntries(logs, [dir] + rest), s[i..k])
  {
    hide Chain, SameEntries, Settled, TailOf, Replay;
    if rest != [] {
      ChainFrame(was, logs, rest, tail);
    }
    ChainCons(logs, dir, rest, tail);
    if rest == [] {
      assert ChainEntries(logs, rest) == [];
      assert Replay(logs[dir]) + [] == Replay(logs[dir]);
    } else {
      SameEntriesConcat(Replay(logs[dir]), ChainEntries(logs, rest), s, i, j, k);
    }
  }
}
