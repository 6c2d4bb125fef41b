// A commit that is appended, down to the bytes: the log of a directory in the thread is what its
// block holds, and stays so.
module Appending {
  import opened Wrappers
  import opened Tags
  import opened Log
  import opened Gstate
  import opened FileSystem
  import opened Block
  import opened Util
  import Metadata
  import Laid
  import Split

  // The attributes of a log, without the checksum tags.
  function Stripped(log: seq<Item>): seq<Item> {
    if log == [] then []
    else
      var x := log[|log| - 1];
      Stripped(log[..|log| - 1]) + if Kind(x.tag.type3) == TYPE_CRC then [] else [x]
  }

  lemma StrippedSnoc(log: seq<Item>, x: Item)
    ensures Stripped(log + [x]) == Stripped(log) + if Kind(x.tag.type3) == TYPE_CRC then [] else [x]
  {
    hide Kind;
    SnocPrefix(log, x);
  }

  lemma {:induction false} StrippedMore(log: seq<Item>, xs: seq<Item>)
    requires AllStorable(xs)
    ensures Stripped(log + xs) == Stripped(log) + xs
    decreases |xs|
  {
    hide Kind, Stripped;
    if xs == [] {
      assert log + xs == log && Stripped(log) + xs == Stripped(log);
    } else {
      var init, x := xs[..|xs| - 1], xs[|xs| - 1];
      assert Storable(x);
      assert AllStorable(init) by {
        assert forall i :: 0 <= i < |init| ==> init[i] == xs[i];
      }
      StrippedMore(log, init);
      StrippedSnoc(log + init, x);
      assert log + xs == log + init + [x] && Stripped(log) + xs == Stripped(log) + init + [x];
    }
  }

  // Checksum tags make no difference to what a log means.
  lemma {:induction false} StrippedReplays(log: seq<Item>)
    ensures Replay(Stripped(log)) == Replay(log) && (WellFormed(Stripped(log)) <==> WellFormed(log))
    ensures Split.TailOf(Stripped(log)) == Split.TailOf(log) && DeltaOf(Stripped(log)) == DeltaOf(log)
    decreases |log|
  {
    hide *;
    if log == [] {
      NoneStripped();
    } else {
      var init, x := log[..|log| - 1], log[|log| - 1];
      assert log == init + [x];
      StrippedReplays(init);
      StrippedSnoc(init, x);
      ReplaySnoc(init, x);
      TailSnoc(init, x);
      if Kind(x.tag.type3) == TYPE_CRC {
        CrcIsNothing(Replay(init), x);
        DeltaOfOther(init, [x]);
        assert Stripped(init) + [] == Stripped(init);
      } else {
        ReplaySnoc(Stripped(init), x);
        TailSnoc(Stripped(init), x);
        DeltaSnoc(init, x);
        DeltaSnoc(Stripped(init), x);
      }
    }
  }

  lemma NoneStripped()
    ensures Stripped([]) == []
  {
  }

  lemma TailSnoc(log: seq<Item>, x: Item)
    ensures Split.TailOf(log + [x])
         == if Kind(x.tag.type3) == TYPE_TAIL && |x.data| == 8
            then Some(Split.Tail(PairOf(x.data), Chunk(x.tag.type3) % 2 == 1)) else Split.TailOf(log)
  {
    hide PairOf;
    SnocPrefix(log, x);
  }

  lemma DeltaSnoc(log: seq<Item>, x: Item)
    ensures DeltaOf(log + [x]) == if x.tag.type3 == TYPE_MOVESTATE then DeltaOf([x]) else DeltaOf(log)
  {
    hide StateOf;
    SnocPrefix(log, x);
    assert [x][..0] == [];
  }

  lemma CrcIsNothing(s: seq<Entry>, x: Item)
    requires Kind(x.tag.type3) == TYPE_CRC
    ensures Apply(s, x) == s && Fits(s, x) && NoState([x]) && Kind(x.tag.type3) != TYPE_TAIL
  {
  }

  // ---- where the next commit begins -----------------------------------------------------------

  lemma EndSnoc(log: seq<Item>, x: Item, progSize: nat)
    requires progSize > 0
    ensures EndOf(log + [x], progSize)
         == if Kind(x.tag.type3) == TYPE_CRC then AlignUp(EndOf(log, progSize) + 8, progSize)
            else EndOf(log, progSize) + x.tag.Dsize()
  {
    hide AlignUp;
    SnocPrefix(log, x);
  }

  lemma {:induction false} EndMore(log: seq<Item>, xs: seq<Item>, progSize: nat)
    requires progSize > 0 && AllStorable(xs)
    ensures EndOf(log + xs, progSize) == EndOf(log, progSize) + Split.SizeOf(xs)
    decreases |xs|
  {
    hide EndOf, Kind;
    if xs == [] {
      assert log + xs == log;
    } else {
      var init, x := xs[..|xs| - 1], xs[|xs| - 1];
      assert Storable(x);
      assert AllStorable(init) by {
        assert forall i :: 0 <= i < |init| ==> init[i] == xs[i];
      }
      EndMore(log, init, progSize);
      EndSnoc(log + init, x, progSize);
      assert log + xs == log + init + [x];
    }
  }

  lemma SealEnds(log: seq<Item>, progSize: nat)
    requires progSize > 0
    ensures EndOf(log + [SEAL], progSize) == AlignUp(EndOf(log, progSize) + 8, progSize)
    ensures Stripped(log + [SEAL]) == Stripped(log)
  {
    hide AlignUp, EndOf, Stripped;
    EndSnoc(log, SEAL, progSize);
    StrippedSnoc(log, SEAL);
    assert Stripped(log) + [] == Stripped(log);
  }

  // ---- the commit -----------------------------------------------------------------------------

  // The block holds the log of the directory, and says so when it is fetched.
  ghost predicate Backs(b: Metadata.Mdir, d: Mdir)
    reads b, b.blk
  {
    b.Valid() && Stripped(d.log) == LogOf(b.h) && EndOf(d.log, b.progSize) == b.off
  }

  // What a commit writes before its checksum.
  function Unsealed(d: Mdir, attrs: seq<Item>, m: Memory): seq<Item> {
    var g := Unmoved(m, d.pair);
    WithMove(d, attrs, m) + if g != ZERO then [StateItem(Xor(g, DeltaOf(d.log)))] else []
  }

  lemma UnsealedIs(d: Mdir, attrs: seq<Item>, m: Memory)
    ensures Written(d, attrs, m) == Unsealed(d, attrs, m) + [SEAL]
    ensures Split.SizeOf(Unsealed(d, attrs, m))
         == Split.SizeOf(WithMove(d, attrs, m)) + if Unmoved(m, d.pair) != ZERO then 16 else 0
  {
    hide *;
    WrittenIs(d, attrs, m);
    var w, g := WithMove(d, attrs, m), Unmoved(m, d.pair);
    UnsealedParts(d, attrs, m);
    if g != ZERO {
      Split.SizeSnoc(w, StateItem(Xor(g, DeltaOf(d.log))));
      StateSize(Xor(g, DeltaOf(d.log)));
    } else {
      assert w + [] == w;
    }
  }

  lemma UnsealedParts(d: Mdir, attrs: seq<Item>, m: Memory)
    ensures var g := Unmoved(m, d.pair);
            Unsealed(d, attrs, m)
            == WithMove(d, attrs, m) + if g != ZERO then [StateItem(Xor(g, DeltaOf(d.log)))] else []
  {
    hide WithMove, Unmoved, StateItem, Xor, DeltaOf;
  }

  lemma StateSize(g: G)
    ensures StateItem(g).tag.Dsize() == 16
  {
    hide StateBytes;
  }

  // What can be appended to the log can be appended to what the block holds.
  lemma SameAppendable(log: seq<Item>, held: seq<Item>, xs: seq<Item>)
    requires Metadata.Appendable(log, xs) && Stripped(log) == held
    ensures Metadata.Appendable(held, xs)
  {
    hide *;
    Laid.AppendableParts(log, xs);
    StrippedMore(log, xs);
    StrippedReplays(log + xs);
    forall k | 0 <= k < |xs| && xs[k].IsName()
      ensures xs[k].tag.id < |Replay(held + xs[..k])|
    {
      StorableFirst(xs, k);
      StrippedMore(log, xs[..k]);
      StrippedReplays(log + xs[..k]);
    }
    Laid.AppendableParts(held, xs);
  }

  lemma StorableFirst(xs: seq<Item>, k: nat)
    requires AllStorable(xs) && k <= |xs|
    ensures AllStorable(xs[..k])
  {
    hide Storable;
  }

  // The append succeeds exactly when the thread says that there is room, and then the block
  // holds the log that the thread has.
  method AppendTo(b: Metadata.Mdir, ghost d: Mdir, ghost attrs: seq<Item>, ghost m: Memory, items: seq<Item>,
                  ghost room: Room) returns (ok: bool)
    requires Backs(b, d) && Metadata.Appendable(d.log, WithMove(d, attrs, m))
    requires items == Unsealed(d, attrs, m) != []
    requires room.Valid() && room.erased && room.blockSize == b.blk.Length && room.progSize == b.progSize
    modifies b, b.blk
    ensures ok <==> Appends(room, d, attrs, m)
    ensures ok ==> Backs(b, Mdir(d.pair, d.log + Written(d, attrs, m)))
  {
    hide *;
    BacksParts(b, d);
    UnsealedIs(d, attrs, m);
    Laid.WrittenAppends(d, attrs, m);
    assert (items + [SEAL])[..|items + [SEAL]| - 1] == items;
    SameAppendable(d.log, LogOf(b.h), items);
    Laid.AppendableParts(d.log, items);
    EndMore(d.log, items, b.progSize);
    SealEnds(d.log + items, b.progSize);
    StrippedMore(d.log, items);
    assert d.log + (items + [SEAL]) == d.log + items + [SEAL];
    UnsealedParts(d, attrs, m);
    AppendsIs(room, d, attrs, m);
    ghost var c;
    ok, c := b.Append(items);
    if ok {
      DoesBack(b, Mdir(d.pair, d.log + Written(d, attrs, m)));
    }
  }

  lemma BacksParts(b: Metadata.Mdir, d: Mdir)
    requires Backs(b, d)
    ensures b.Valid() && Stripped(d.log) == LogOf(b.h) && EndOf(d.log, b.progSize) == b.off && b.progSize > 0
  {
    hide Stripped, EndOf, LogOf;
    b.ValidParts();
  }

  lemma DoesBack(b: Metadata.Mdir, d: Mdir)
    requires b.Valid() && b.progSize > 0 && Stripped(d.log) == LogOf(b.h) && EndOf(d.log, b.progSize) == b.off
    ensures Backs(b, d)
  {
    hide Stripped, EndOf, LogOf;
  }

  lemma AppendsIs(room: Room, d: Mdir, attrs: seq<Item>, m: Memory)
    requires room.Valid() && (WithMove(d, attrs, m) != [] || Unmoved(m, d.pair) != ZERO)
    ensures Appends(room, d, attrs, m)
       <==> && room.erased
            && EndOf(d.log, room.progSize) + Split.SizeOf(WithMove(d, attrs, m))
               + (if Unmoved(m, d.pair) != ZERO then 16 else 0) + 8 <= room.blockSize
  {
    RoomIs(room, d, attrs, m);
    HasPlaceIs(room, d, WithMove(d, attrs, m));
    hide *;
  }

  lemma HasPlaceIs(room: Room, d: Mdir, items: seq<Item>)
    requires room.Valid()
    ensures var at := EndOf(d.log, room.progSize) + Split.SizeOf(items);
            && (HasPlace(room, d, items) <==> items == [] || at + 8 <= room.blockSize)
            && (HasPlaceWithState(room, d, items) <==> at + 16 + 8 <= room.blockSize)
  {
    hide EndOf, Split.SizeOf;
  }
}
