// What mkdir, remove and rename commit can be laid out in a block and appended to it.
module Laid {
  import opened Wrappers
  import opened Tags
  import opened Log
  import opened Gstate
  import opened FileSystem
  import opened Directories
  import opened Block
  import opened Forward
  import Metadata
  import opened Traverse
  import opened Moves = Rename
  import Compaction
  import Orphans
  import Split

  lemma AppendableParts(log: seq<Item>, xs: seq<Item>)
    ensures Metadata.Appendable(log, xs)
       <==> && AllStorable(xs) && WellFormed(log + xs)
            && forall k :: 0 <= k < |xs| && xs[k].IsName() ==> xs[k].tag.id < |Replay(log + xs[..k])|
  {
    hide Storable, WellFormed, Replay;
  }

  // One attribute more.
  lemma AppendOne(log: seq<Item>, xs: seq<Item>, x: Item)
    requires Metadata.Appendable(log, xs) && Storable(x) && Fits(Replay(log + xs), x)
    requires x.IsName() ==> x.tag.id < |Replay(log + xs)|
    ensures Metadata.Appendable(log, xs + [x])
  {
    hide *;
    AppendableParts(log, xs);
    AppendableParts(log, xs + [x]);
    StorableOne(x);
    StorableConcat(xs, [x]);
    assert log + (xs + [x]) == log + xs + [x];
    FitsNext(log + xs, x);
    forall k | 0 <= k < |xs + [x]| && (xs + [x])[k].IsName()
      ensures (xs + [x])[k].tag.id < |Replay(log + (xs + [x])[..k])|
    {
      if k < |xs| {
        assert (xs + [x])[k] == xs[k] && (xs + [x])[..k] == xs[..k];
      } else {
        assert (xs + [x])[k] == x && (xs + [x])[..k] == xs;
      }
    }
  }

  lemma AppendNothing(log: seq<Item>)
    requires Settled(log)
    ensures Metadata.Appendable(log, [])
  {
    hide Replay, WellFormed, AllNamed;
    assert log + [] == log;
  }

  // A deletion.
  lemma AppendDelete(log: seq<Item>, xs: seq<Item>, id: nat)
    requires Metadata.Appendable(log, xs) && AllNamed(Replay(log + xs)) && id < |Replay(log + xs)| && id < 0x400
    ensures Metadata.Appendable(log, xs + [DeleteAt(id)])
  {
    hide *;
    DeleteIsStorable(id);
    DeleteFits(Replay(log + xs), id);
    AppendOne(log, xs, DeleteAt(id));
  }

  lemma DeleteIsStorable(id: nat)
    requires id < 0x400
    ensures Storable(DeleteAt(id)) && !DeleteAt(id).IsName()
  {
  }

  // Attributes of the directory as a whole: a tail, the global state.
  lemma AppendWide(log: seq<Item>, xs: seq<Item>, x: Item)
    requires Metadata.Appendable(log, xs) && Storable(x) && !x.IsAttr() && Kind(x.tag.type3) != TYPE_SPLICE
    ensures Metadata.Appendable(log, xs + [x])
  {
    hide Metadata.Appendable, Storable, Replay, WellFormed, AllNamed;
    AppendOne(log, xs, x);
  }

  lemma StateIsStorable(g: G)
    ensures Storable(StateItem(g)) && !StateItem(g).IsAttr() && Kind(StateItem(g).tag.type3) != TYPE_SPLICE
  {
    hide StateBytes;
  }

  lemma TailIsStorable(tail: Split.Tail)
    ensures var x := Split.TailItem(tail); Storable(x) && !x.IsAttr() && Kind(x.tag.type3) != TYPE_SPLICE
  {
    hide PairBytes;
  }

  // Whatever a commit writes can be appended when its attributes can, with the move that it
  // finishes; the record of the global state fits behind them.
  lemma WrittenAppends(d: Mdir, attrs: seq<Item>, m: Memory)
    requires Metadata.Appendable(d.log, WithMove(d, attrs, m))
    ensures var w := Written(d, attrs, m);
            w != [] && w[|w| - 1] == SEAL && Metadata.Appendable(d.log, w[..|w| - 1])
  {
    hide *;
    WrittenIs(d, attrs, m);
    var w, g := WithMove(d, attrs, m), Unmoved(m, d.pair);
    if g != ZERO {
      var x := StateItem(Xor(g, DeltaOf(d.log)));
      StateIsStorable(Xor(g, DeltaOf(d.log)));
      AppendWide(d.log, w, x);
      assert (w + [x] + [SEAL])[..|w| + 1] == w + [x];
    } else {
      assert (w + [] + [SEAL])[..|w|] == w;
    }
  }

  // And its attributes can be moved on again.
  lemma WrittenBodied(d: Mdir, attrs: seq<Item>, m: Memory)
    requires AttrsBodied(d.log) && Metadata.Appendable(d.log, WithMove(d, attrs, m))
    ensures AttrsBodied(d.log + Written(d, attrs, m))
  {
    hide *;
    WrittenAppends(d, attrs, m);
    var w := Written(d, attrs, m);
    var init := w[..|w| - 1];
    AppendableParts(d.log, init);
    StorableIsBodied(init);
    SealIsBodied();
    assert w == init + [SEAL];
    BodiedConcat(init, [SEAL]);
    BodiedConcat(d.log, w);
  }

  lemma SealIsBodied()
    ensures AttrsBodied([SEAL])
  {
  }

  // ---- mkdir ----------------------------------------------------------------------------------

  lemma CreateIsStorable(id: nat)
    requires id < 0x400
    ensures Storable(CreateAt(id)) && !CreateAt(id).IsName()
  {
  }

  lemma NameIsStorable(name: Item, id: nat)
    requires Storable(name) && name.IsName() && !name.tag.IsDelete() && id < 0x400
    ensures Storable(name.At(id)) && name.At(id).IsName() && name.At(id).tag.id == id
  {
  }

  // The struct of a directory is its pair, eight bytes.
  lemma StructIsStorable(id: nat, p: Pair)
    requires id < 0x400
    ensures Storable(DirStruct(id, p)) && !DirStruct(id, p).IsName() && |DirStruct(id, p).data| == 8
  {
    hide PairBytes;
  }

  // Room, and the name.
  lemma AppendEntry(log: seq<Item>, xs: seq<Item>, id: nat, name: Item)
    requires Metadata.Appendable(log, xs) && AllNamed(Replay(log + xs)) && id <= |Replay(log + xs)| < NO_ID
    requires Storable(name) && name.IsName() && !name.tag.IsDelete()
    ensures Metadata.Appendable(log, xs + [CreateAt(id)] + [name.At(id)])
    ensures AllNamed(Replay(log + (xs + [CreateAt(id)] + [name.At(id)])))
    ensures id < |Replay(log + (xs + [CreateAt(id)] + [name.At(id)]))|
  {
    hide *;
    var s, ys := Replay(log + xs), xs + [CreateAt(id)];
    IsNoId();
    CreateIsStorable(id);
    NameIsStorable(name, id);
    RoomMade(s, id, name);
    AppendOne(log, xs, CreateAt(id));
    AppendableParts(log, xs);
    FitsNext(log + xs, CreateAt(id));
    assert log + ys == log + xs + [CreateAt(id)];
    RoomLength(s, id);
    AppendOne(log, ys, name.At(id));
    AppendableParts(log, ys);
    FitsNext(log + ys, name.At(id));
    assert log + (ys + [name.At(id)]) == log + ys + [name.At(id)];
  }

  lemma RoomLength(s: seq<Entry>, id: nat)
    requires id <= |s|
    ensures id < |Apply(s, CreateAt(id))|
  {
  }

  lemma EnteringAppends(log: seq<Item>, id: nat, name: Item, p: Pair, last: bool)
    requires Settled(log) && id <= |Replay(log)| < NO_ID
    requires Storable(name) && name.IsName() && !name.tag.IsDelete()
    ensures Metadata.Appendable(log, Entering(id, name, p, last))
  {
    hide *;
    var two, x := [CreateAt(id), name.At(id)], DirStruct(id, p);
    SettledIs(log);
    AppendNothing(log);
    assert log + [] == log && [] + [CreateAt(id)] + [name.At(id)] == two;
    AppendEntry(log, [], id, name);
    IsNoId();
    StructIsStorable(id, p);
    StructOf(id, p);
    StructFits(Replay(log + two), x);
    AppendOne(log, two, x);
    EnteringIs(id, name, p, last);
    assert two + [x] == [CreateAt(id), name.At(id), x];
    if last {
      TailIsStorable(Split.Tail(p, false));
      AppendWide(log, two + [x], SoftTail(p));
      assert two + [x] + [SoftTail(p)] == [CreateAt(id), name.At(id), x] + [SoftTail(p)];
    } else {
      assert two + [x] == [CreateAt(id), name.At(id), x] + [];
    }
  }

  lemma StructFits(s: seq<Entry>, x: Item)
    requires AllNamed(s) && x.tag.id < |s| && IsStruct(x)
    ensures Fits(s, x)
  {
  }

  lemma ShortName(t: seq<Mdir>, m: Memory, k: Making)
    requires MakeReady(t, m, k)
    ensures Storable(k.Name())
  {
    hide Clean, Off, Orphans.Consistent, Orphans.New, Replay, WellFormed, AllNamed;
  }

  // All three commits of a mkdir.
  lemma MakeAppends(t: seq<Mdir>, m: Memory, k: Making, log: seq<Item>, last: bool, tail: Pair)
    requires MakeReady(t, m, k) && Settled(log)
    ensures k.c < |t| && Metadata.Appendable(t[k.c].log, Entering(k.id, k.Name(), k.pair, last))
    ensures Metadata.Appendable(log, [SoftTail(tail)])
  {
    hide *;
    MakeParts(t, m, k);
    ShortName(t, m, k);
    EnteringAppends(t[k.c].log, k.id, k.Name(), k.pair, last);
    AppendNothing(log);
    SoftTailIs(tail);
    TailIsStorable(Split.Tail(tail, false));
    AppendWide(log, [], SoftTail(tail));
    assert [] + [SoftTail(tail)] == [SoftTail(tail)];
  }

  // ---- remove ---------------------------------------------------------------------------------

  lemma RemoveAppends(t: seq<Mdir>, m: Memory, r: Removal)
    requires RemoveReady(t, m, r)
    ensures r.c < |t| && Metadata.Appendable(t[r.c].log, [DeleteAt(r.id)])
  {
    hide *;
    RemoveParts(t, m, r);
    DeletesFrom(t[r.c].log, r.id);
  }

  lemma DeletesFrom(log: seq<Item>, id: nat)
    requires Settled(log) && id < |Replay(log)|
    ensures Metadata.Appendable(log, [DeleteAt(id)])
  {
    hide *;
    SettledIs(log);
    CountBound(log);
    AppendNothing(log);
    assert log + [] == log && [] + [DeleteAt(id)] == [DeleteAt(id)];
    IsNoId();
    AppendDelete(log, [], id);
  }

  lemma IsNoId()
    ensures NO_ID == 0x3ff
  {
  }

  // ---- rename ---------------------------------------------------------------------------------

  // What is taken along can be laid out under the new id.
  lemma MovedStorable(source: seq<Item>, oldid: nat, id: nat)
    requires AttrsBodied(source) && id < 0x3ff
    ensures AllStorable(Moved(source, oldid, id))
  {
    hide *;
    FlatSingles(source);
    KeptBodied(Singles(source));
    MovedAre(source, oldid, id);
    WindowStorable(Compaction.KeptOf(Singles(source)), true, oldid, oldid + 1, id);
  }

  lemma {:induction false} ContentsAppend(log: seq<Item>, xs: seq<Item>, id: nat, moved: seq<Item>)
    requires Metadata.Appendable(log, xs) && AllNamed(Replay(log + xs)) && id < |Replay(log + xs)|
    requires Contents(moved, id) && AllStorable(moved)
    ensures Metadata.Appendable(log, xs + moved)
    ensures AllNamed(Replay(log + (xs + moved))) && id < |Replay(log + (xs + moved))|
    decreases |moved|
  {
    hide *;
    if moved == [] {
      assert xs + moved == xs;
    } else {
      var init, x := moved[..|moved| - 1], moved[|moved| - 1];
      ContentsSnoc(moved, id);
      ContentsAppend(log, xs, id, init);
      assert xs + moved == xs + init + [x];
      ContentFits(Replay(log + (xs + init)), x);
      AppendOne(log, xs + init, x);
      AppendableParts(log, xs + init);
      FitsNext(log + (xs + init), x);
      assert log + (xs + init + [x]) == log + (xs + init) + [x];
    }
  }

  lemma ContentsSnoc(xs: seq<Item>, id: nat)
    requires Contents(xs, id) && AllStorable(xs) && xs != []
    ensures var init, x := xs[..|xs| - 1], xs[|xs| - 1];
            && Contents(init, id) && AllStorable(init) && Storable(x) && !x.IsName()
            && x.tag.id == id && TYPE_STRUCT <= x.tag.type3 < TYPE_SPLICE
  {
    hide Storable;
  }

  lemma RenamedStorable(r: Plan)
    requires r.kind < TYPE_FROM && |r.name| < DELETED_SIZE
    ensures Storable(r.Name())
  {
  }

  // The commit to the new directory, with the deletion of the old entry when that is there, too.
  lemma RenameAppends(t: seq<Mdir>, m: Memory, r: Plan)
    requires Ready(t, m, r) && r.from < |t| && AttrsBodied(t[r.from].log)
    ensures r.to < |t| && Metadata.Appendable(t[r.to].log, WithMove(t[r.to], Attrs(t, r), Moving(t, m, r)))
  {
    hide *;
    ReadyParts(t, m, r);
    AttrsFine(t, m, r);
    AttrsIs(t, r);
    var log, id, moved := t[r.to].log, r.newid, Moved(t[r.from].log, r.oldid, r.newid);
    IsNoId();
    MovedStorable(t[r.from].log, r.oldid, id);
    SettledIs(log);
    AppendNothing(log);
    assert log + [] == log;
    var first := if r.replaced then [DeleteAt(id)] else [];
    if r.replaced {
      AppendDelete(log, [], id);
      assert [] + [DeleteAt(id)] == first;
      DeleteReplays(log, id);
      DeleteIs(Replay(log), id);
      SettledIs(log + first);
    }
    RenamedStorable(r);
    AppendEntry(log, first, id, r.Name());
    ContentsAppend(log, first + [CreateAt(id)] + [r.Name().At(id)], id, moved);
    AttributesAre(r.replaced, id, r.Name(), moved);
    WithDeletion(t, m, r);
  }

  lemma WithDeletion(t: seq<Mdir>, m: Memory, r: Plan)
    requires Ready(t, m, r) && r.from < |t| && r.to < |t| && Metadata.Appendable(t[r.to].log, Attrs(t, r))
    requires AllNamed(Replay(t[r.to].log + Attrs(t, r)))
    ensures Metadata.Appendable(t[r.to].log, WithMove(t[r.to], Attrs(t, r), Moving(t, m, r)))
  {
    hide *;
    Prepared(t, m, r);
    ReadyParts(t, m, r);
    var log, n, attrs := t[r.to].log, Moving(t, m, r), Attrs(t, r);
    WithMoveIs(t[r.to], attrs, n);
    assert attrs + [] == attrs;
    if r.from == r.to {
      FirstReplay(t, m, r);
      CorrectedBounds(r, |Replay(log)|);
      IsNoId();
      AppendDelete(log, attrs, RecordedId(r));
    }
  }

  // The commit that finishes the move.
  lemma FinishAppends(t: seq<Mdir>, m: Memory, r: Plan)
    requires Ready(t, m, r) && r.from != r.to
    ensures r.from < |t| && r.to < |t|
    ensures var u, n := States(t, m, r, 1), Midway(t, m, r);
            r.from < |u| && Metadata.Appendable(u[r.from].log, WithMove(u[r.from], [], n))
  {
    hide *;
    ReadyParts(t, m, r);
    SecondEmpties(t, m, r);
    DeletesFrom(t[r.from].log, r.oldid);
  }
}
