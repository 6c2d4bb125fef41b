// lfs_rename: the entry under the new name has the contents of the old one, and wherever
// power is lost the file ends up in exactly one place.
module Rename {
  import opened Wrappers
  import opened Tags
  import opened Log
  import opened Compaction
  import opened Traverse
  import opened Gstate
  import opened FileSystem
  import Split
  import Words

  // ---- what the commit to the new directory does -----------------------------------------------

  function Writes(xs: seq<Item>): (r: seq<Write>)
    ensures |r| == |xs|
  {
    if xs == [] then [] else Writes(xs[..|xs| - 1]) + [WriteOf(xs[|xs| - 1])]
  }

  // The attributes of that commit: room is made, the entry is named, and the structs and
  // user attributes of the old entry are copied. replaced says that an entry of the new
  // name is in the way.
  function Attributes(replaced: bool, id: nat, name: Item, moved: seq<Item>): seq<Item> {
    (if replaced then [DeleteAt(id)] else [])
    + [CreateAt(id)] + [name.At(id)] + moved
  }

  function NewEntry(name: Item, moved: seq<Item>): Entry {
    [WriteOf(name)] + Writes(moved)
  }

  // Plain writes to one entry.
  predicate WritesTo(xs: seq<Item>, id: nat) {
    PlainWrites(xs) && AllHaveId(xs, id)
  }

  lemma {:induction false} ApplyWrites(s: seq<Entry>, id: nat, xs: seq<Item>)
    requires id < |s| && WritesTo(xs, id)
    ensures ApplyAll(s, xs) == s[id := s[id] + Writes(xs)]
    decreases |xs|
  {
    if xs == [] {
      assert s[id] + [] == s[id];
    } else {
      var init, x := xs[..|xs| - 1], xs[|xs| - 1];
      ApplyWrites(s, id, init);
      assert s[id] + Writes(init) + [WriteOf(x)] == s[id] + Writes(xs);
    }
  }

  lemma {:induction false} ApplyAllConcat(s: seq<Entry>, xs: seq<Item>, ys: seq<Item>)
    ensures ApplyAll(s, xs + ys) == ApplyAll(ApplyAll(s, xs), ys)
    decreases |ys|
  {
    hide Apply;
    if ys == [] {
      assert xs + ys == xs;
    } else {
      var init := ys[..|ys| - 1];
      ApplyAllConcat(s, xs, init);
      assert (xs + ys)[..|xs + ys| - 1] == xs + init;
    }
  }

  lemma ApplyOne(s: seq<Entry>, x: Item)
    ensures ApplyAll(s, [x]) == Apply(s, x) && ApplyAll(s, []) == s
  {
    hide Apply;
    assert [x][..0] == [];
  }

  // The commit puts the new entry where the search said, in place of the one that was
  // there if there was one.
  lemma ApplyAttributes(s: seq<Entry>, replaced: bool, id: nat, name: Item, moved: seq<Item>)
    requires name.IsName() && WritesTo(moved, id) && (if replaced then id < |s| else id <= |s|)
    ensures ApplyAll(s, Attributes(replaced, id, name, moved))
         == Insert(if replaced then Remove(s, id) else s, id, NewEntry(name, moved))
  {
    hide *;
    var del, create := DeleteAt(id), CreateAt(id);
    var first := if replaced then [del] else [];
    DeleteIs(s, id);
    var t := if replaced then Remove(s, id) else s;
    ApplyOne(s, del);
    ApplyAllConcat(s, first, [create]);
    ApplyOne(t, create);
    CreateIs(t, id);
    var u := t[..id] + [[]] + t[id..];
    ApplyAllConcat(s, first + [create], [name.At(id)]);
    ApplyOne(u, name.At(id));
    Named(u, id, name);
    var v := u[id := [WriteOf(name)]];
    ApplyAllConcat(s, first + [create] + [name.At(id)], moved);
    ApplyWrites(v, id, moved);
    AttributesAre(replaced, id, name, moved);
    EntryIs(t, u, v, id, name, moved);
  }

  lemma DeleteIs(s: seq<Entry>, id: nat)
    ensures id < |s| ==>
              && Apply(s, DeleteAt(id)) == Remove(s, id)
              && |Remove(s, id)| == |s| - 1
  {
  }

  lemma CreateIs(s: seq<Entry>, id: nat)
    requires id <= |s|
    ensures Apply(s, CreateAt(id)) == s[..id] + [[]] + s[id..]
  {
  }

  lemma AttributesAre(replaced: bool, id: nat, name: Item, moved: seq<Item>)
    ensures Attributes(replaced, id, name, moved)
         == (if replaced then [DeleteAt(id)] else [])
            + [CreateAt(id)] + [name.At(id)] + moved
  {
    hide PlainWrites;
  }

  lemma EntryIs(t: seq<Entry>, u: seq<Entry>, v: seq<Entry>, id: nat, name: Item, moved: seq<Item>)
    requires id <= |t| && u == t[..id] + [[]] + t[id..] && v == u[id := [WriteOf(name)]]
    ensures v[id := v[id] + Writes(moved)] == Insert(t, id, NewEntry(name, moved))
  {
    hide Writes;
  }

  lemma Named(u: seq<Entry>, id: nat, name: Item)
    requires id < |u| && u[id] == [] && name.IsName()
    ensures Apply(u, name.At(id)) == u[id := [WriteOf(name)]]
  {
    assert Extend(u, id + 1) == u;
    assert u[id] + [WriteOf(name)] == [WriteOf(name)];
  }

  // ---- within one directory ------------------------------------------------------------------------

  // The id that the pending move names: making room at or below the old entry moves it up.
  function Corrected(oldid: nat, replaced: bool, newid: nat): nat {
    if !replaced && newid <= oldid then oldid + 1 else oldid
  }

  // The entries after a rename within a directory, with nothing said about tags.
  function Renamed(s: seq<Entry>, oldid: nat, replaced: bool, newid: nat, e: Entry): seq<Entry>
    requires oldid < |s| && (if replaced then newid < |s| else newid <= |s|)
  {
    if replaced then Remove(s[newid := e], oldid)
    else if newid <= oldid then s[..newid] + [e] + s[newid..oldid] + s[oldid + 1..]
    else s[..oldid] + s[oldid + 1..newid] + [e] + s[newid..]
  }

  // One commit, which also carries out its own pending move, deletes exactly the old entry.
  lemma SameDirectory(s: seq<Entry>, oldid: nat, replaced: bool, newid: nat, name: Item, moved: seq<Item>)
    requires oldid < |s| && (if replaced then newid < |s| && newid != oldid else newid <= |s|)
    requires name.IsName() && WritesTo(moved, newid)
    ensures var delete := DeleteAt(Corrected(oldid, replaced, newid));
            ApplyAll(s, Attributes(replaced, newid, name, moved) + [delete])
            == Renamed(s, oldid, replaced, newid, NewEntry(name, moved))
  {
    hide ApplyAll, NewEntry;
    var attrs := Attributes(replaced, newid, name, moved);
    var delete := DeleteAt(Corrected(oldid, replaced, newid));
    var e := NewEntry(name, moved);
    var t := Insert(if replaced then Remove(s, newid) else s, newid, e);
    ApplyAllConcat(s, attrs, [delete]);
    ApplyAttributes(s, replaced, newid, name, moved);
    ApplyOne(t, delete);
    Shuffle(s, oldid, replaced, newid, e);
  }

  lemma Shuffle(s: seq<Entry>, oldid: nat, replaced: bool, newid: nat, e: Entry)
    requires oldid < |s| && (if replaced then newid < |s| && newid != oldid else newid <= |s|)
    ensures var t := Insert(if replaced then Remove(s, newid) else s, newid, e);
            var id := Corrected(oldid, replaced, newid);
            id < |t| && t[..id] + t[id + 1..] == Renamed(s, oldid, replaced, newid, e)
  {
    if replaced {
      assert Insert(Remove(s, newid), newid, e) == s[newid := e];
    } else if newid <= oldid {
      RoomBelow(s, oldid, newid, e);
    } else {
      RoomAbove(s, oldid, newid, e);
    }
  }

  lemma RoomBelow(s: seq<Entry>, oldid: nat, newid: nat, e: Entry)
    requires newid <= oldid < |s|
    ensures var t := Insert(s, newid, e);
            t[..oldid + 1] + t[oldid + 2..] == s[..newid] + [e] + s[newid..oldid] + s[oldid + 1..]
  {
    var t := Insert(s, newid, e);
    assert t[..oldid + 1] == s[..newid] + [e] + s[newid..oldid];
    assert t[oldid + 2..] == s[oldid + 1..];
  }

  lemma RoomAbove(s: seq<Entry>, oldid: nat, newid: nat, e: Entry)
    requires oldid < newid <= |s|
    ensures var t := Insert(s, newid, e);
            t[..oldid] + t[oldid + 1..] == s[..oldid] + s[oldid + 1..newid] + [e] + s[newid..]
  {
    var t := Insert(s, newid, e);
    assert t[..oldid] == s[..oldid];
    assert t[oldid + 1..] == s[oldid + 1..newid] + [e] + s[newid..];
  }

  // Renaming an entry to itself is the case that has to be kept out: the commit would
  // delete the entry it has just made.
  lemma OntoItself(s: seq<Entry>, id: nat, name: Item, moved: seq<Item>)
    requires id < |s| && name.IsName() && WritesTo(moved, id)
    ensures var delete := DeleteAt(Corrected(id, true, id));
            ApplyAll(s, Attributes(true, id, name, moved) + [delete]) == Remove(s, id)
  {
    hide *;
    var attrs := Attributes(true, id, name, moved);
    DeleteIs(s, id);
    var t := Insert(Remove(s, id), id, NewEntry(name, moved));
    CorrectedIs(id);
    ApplyAllConcat(s, attrs, [DeleteAt(id)]);
    ApplyAttributes(s, true, id, name, moved);
    ApplyOne(t, DeleteAt(id));
    DeleteIs(t, id);
    InsertRemove(Remove(s, id), id, NewEntry(name, moved));
  }

  lemma CorrectedIs(id: nat)
    ensures Corrected(id, true, id) == id
  {
  }

  lemma InsertRemove(s: seq<Entry>, id: nat, e: Entry)
    requires id <= |s|
    ensures id < |Insert(s, id, e)| && Remove(Insert(s, id, e), id) == s
  {
  }

  // ---- the contents come along ------------------------------------------------------------------------

  // Keys of structs and user attributes.
  predicate IsContent(key: nat) {
    TYPE_STRUCT <= key < TYPE_SPLICE
  }

  lemma {:induction false} WritesOfWindow(kept: seq<Item>, fromid: nat, id: nat, e: Entry, key: nat)
    requires NoMarkers(kept) && IsContent(key)
    ensures var w := Window(Select(kept, true), fromid, fromid + 1, id);
            Latest(e + Writes(w), key)
            == if LatestIn(kept, fromid, key).Some? then LatestIn(kept, fromid, key) else Latest(e, key)
    decreases |kept|
  {
    hide *;
    if kept == [] {
      NothingMoved(fromid, id, e, key);
    } else {
      var init, x := kept[..|kept| - 1], kept[|kept| - 1];
      NoMarkersInit(kept);
      WritesOfWindow(init, fromid, id, e, key);
      assert kept == init + [x];
      OneMoreWrite(init, x, fromid, id, e, key);
    }
  }

  lemma NothingMoved(fromid: nat, id: nat, e: Entry, key: nat)
    ensures Latest(e + Writes(Window(Select([], true), fromid, fromid + 1, id)), key) == Latest(e, key)
    ensures LatestIn([], fromid, key) == None
  {
    SelectNone(true);
    WindowNone(fromid, fromid + 1, id);
    assert e + [] == e;
  }

  lemma NoMarkersInit(kept: seq<Item>)
    requires NoMarkers(kept) && kept != []
    ensures NoMarkers(kept[..|kept| - 1]) && !kept[|kept| - 1].tag.IsDelete()
  {
  }

  lemma OneMoreWrite(init: seq<Item>, x: Item, fromid: nat, id: nat, e: Entry, key: nat)
    requires !x.tag.IsDelete() && IsContent(key)
    ensures var v := Window(Select(init, true), fromid, fromid + 1, id);
            var w := Window(Select(init + [x], true), fromid, fromid + 1, id);
            Latest(e + Writes(w), key)
            == if x.tag.id == fromid && Key(x.tag.type3) == key then Some(WriteOf(x)) else Latest(e + Writes(v), key)
    ensures LatestIn(init + [x], fromid, key)
         == if x.tag.id == fromid && Key(x.tag.type3) == key then Some(WriteOf(x)) else LatestIn(init, fromid, key)
  {
    hide *;
    LatestInSnoc(init, x, fromid, key);
    ContentIsSelected(x, key);
    SelectSnoc(init, x, true);
    var v := Window(Select(init, true), fromid, fromid + 1, id);
    if Selected(x.tag.type3, true) {
      WindowSnoc(Select(init, true), x, fromid, fromid + 1, id);
      if x.tag.id == fromid {
        WritesSnoc(v, x, id);
        assert e + (Writes(v) + [WriteOf(x)]) == e + Writes(v) + [WriteOf(x)];
        LatestSnoc(e + Writes(v), WriteOf(x), key);
        SizeOfWrite(x);
      }
    }
  }

  lemma SizeOfWrite(x: Item)
    ensures WriteOf(x).type3 == x.tag.type3 && (WriteOf(x).size == DELETED_SIZE <==> x.tag.IsDelete())
  {
  }

  lemma ContentIsSelected(x: Item, key: nat)
    requires IsContent(key)
    ensures Key(x.tag.type3) == key ==> Selected(x.tag.type3, true)
  {
  }

  lemma WritesSnoc(xs: seq<Item>, x: Item, id: nat)
    ensures Writes(xs + [x.At(id)]) == Writes(xs) + [WriteOf(x)]
  {
    SnocPrefix(xs, x.At(id));
  }

  lemma AgreesAt(kept: seq<Item>, s: seq<Entry>, id: nat, key: nat)
    requires Agrees(kept, s) && id < |s|
    ensures LatestIn(kept, id, key) == Latest(s[id], key)
  {
    hide LatestIn, Latest, NamesFirst, MarkerAlone, NameFirst;
  }

  lemma NameHasNoContent(name: Item, key: nat)
    requires name.IsName() && IsContent(key)
    ensures Latest([WriteOf(name)], key) == None
  {
    assert [WriteOf(name)][..0] == [];
  }

  // Whatever structs and user attributes the old entry has, the new one has the same.
  lemma MovedContents(source: seq<Item>, oldid: nat, id: nat, name: Item, key: nat)
    requires WellFormed(source) && oldid < |Replay(source)|
    requires source != [] && !source[|source| - 1].IsAttr()
    requires name.IsName() && IsContent(key)
    ensures WritesTo(Moved(source, oldid, id), id)
    ensures Latest(NewEntry(name, Moved(source, oldid, id)), key) == Latest(Replay(source)[oldid], key)
  {
    hide *;
    var kept := KeptOf(Singles(source));
    FlatSingles(source);
    KeptAgrees(Singles(source));
    AgreesAt(kept, Replay(source), oldid, key);
    SealedHasNoMarkers(source);
    MovedIs(source, oldid, id, kept);
    WindowOfSelected(kept, oldid, oldid + 1, id);
    WindowAt(Select(kept, true), oldid, id, id);
    NameHasNoContent(name, key);
    WritesOfWindow(kept, oldid, id, [WriteOf(name)], key);
  }

  lemma MovedIs(source: seq<Item>, oldid: nat, id: nat, kept: seq<Item>)
    requires kept == KeptOf(Singles(source))
    ensures Moved(source, oldid, id) == Window(Select(kept, true), oldid, oldid + 1, id)
    ensures PlainWrites(Moved(source, oldid, id)) && AllHaveId(Moved(source, oldid, id), id)
            ==> WritesTo(Moved(source, oldid, id), id)
    ensures forall name ::
              NewEntry(name, Moved(source, oldid, id)) == [WriteOf(name)] + Writes(Moved(source, oldid, id))
  {
    hide Window, Select, KeptOf, PlainWrites, Writes;
  }

  // And its name is the new name.
  lemma NewName(name: Item, moved: seq<Item>, id: nat)
    requires name.IsName() && !name.tag.IsDelete() && WritesTo(moved, id)
    ensures Latest(NewEntry(name, moved), TYPE_NAME) == Some(WriteOf(name))
  {
    NamedFirst(moved, WriteOf(name), id);
  }

  lemma {:induction false} NamedFirst(moved: seq<Item>, w: Write, id: nat)
    requires WritesTo(moved, id) && Key(w.type3) == TYPE_NAME && w.size != DELETED_SIZE
    ensures Latest([w] + Writes(moved), TYPE_NAME) == Some(w)
    decreases |moved|
  {
    if moved == [] {
      assert [w] + [] == [w];
    } else {
      var init, x := moved[..|moved| - 1], moved[|moved| - 1];
      NamedFirst(init, w, id);
      assert [w] + Writes(moved) == [w] + Writes(init) + [WriteOf(x)];
      LatestSnoc([w] + Writes(init), WriteOf(x), TYPE_NAME);
    }
  }

  // ---- the device while a file is renamed ---------------------------------------------------------

  // The rename of entry oldid of directory from to a name in directory to; newid is where
  // the search for the name has ended, and replaced says that an entry of that name is there.
  // kind is the type that the search has found the old entry to be of.
  datatype Plan = Plan(from: nat, oldid: nat, to: nat, newid: nat, replaced: bool, kind: nat, name: seq<byte>) {
    function Name(): Item {
      Item(RawTag.Tag(kind, 0, |name|), name)
    }
  }

  // What an entry is: a file, a directory.
  predicate IsOf(e: Entry, kind: nat) {
    match Latest(e, TYPE_NAME)
    case Some(w) => w.type3 == kind
    case None => false
  }

  lemma KindIsName(e: Entry, kind: nat)
    requires IsOf(e, kind)
    ensures kind < TYPE_FROM && Latest(e, TYPE_NAME).Some? && Latest(e, TYPE_NAME).value.type3 == kind
  {
    LatestHasKey(e, TYPE_NAME);
    hide Latest;
  }

  lemma {:induction false} LatestHasKey(e: Entry, key: nat)
    ensures Latest(e, key).Some? ==> Key(Latest(e, key).value.type3) == key
    decreases |e|
  {
    hide Key;
    if e != [] {
      LatestHasKey(e[..|e| - 1], key);
    }
  }

  lemma NameFits(r: Plan)
    requires r.kind < TYPE_FROM && |r.name| < DELETED_SIZE
    ensures r.Name().IsName() && !r.Name().tag.IsDelete() && WriteOf(r.Name()) == Write(r.kind, |r.name|, r.name)
  {
  }

  // Every commit has been sealed.
  predicate Closed(log: seq<Item>) {
    log != [] && !log[|log| - 1].IsAttr()
  }

  ghost predicate Apart(t: seq<Mdir>) {
    forall i, j :: 0 <= i < j < |t| ==> !SamePair(t[i].pair, t[j].pair)
  }

  // The device holds what the memory wants, no move is pending on it, and the plan is what
  // the searches for the two names came to.
  ghost predicate Ready(t: seq<Mdir>, m: Memory, r: Plan) {
    && Apart(t) && Clean(t, m) && Off(t, m) == ZERO && !HasMove(Total(Dirs(t)))
    && r.from < |t| && r.to < |t|
    && Settled(t[r.from].log) && Closed(t[r.from].log) && r.oldid < |Replay(t[r.from].log)|
    && Settled(t[r.to].log)
    && (if r.replaced then r.newid < |Replay(t[r.to].log)| else r.newid <= |Replay(t[r.to].log)| < NO_ID)
    && IsOf(Replay(t[r.from].log)[r.oldid], r.kind) && |r.name| < DELETED_SIZE
  }

  // What the commit to the new directory writes.
  function Attrs(t: seq<Mdir>, r: Plan): seq<Item>
    requires r.from < |t|
  {
    Attributes(r.replaced, r.newid, r.Name(), Moved(t[r.from].log, r.oldid, r.newid))
  }

  // The id that is recorded for the old entry.
  function RecordedId(r: Plan): nat {
    if r.from == r.to then Corrected(r.oldid, r.replaced, r.newid) else r.oldid
  }

  function Moving(t: seq<Mdir>, m: Memory, r: Plan): Memory
    requires r.from < |t|
  {
    if RecordedId(r) < 0x400 then MovePrepared(m, RecordedId(r), t[r.from].pair) else m
  }

  // The memory once the first commit is done.
  function Midway(t: seq<Mdir>, m: Memory, r: Plan): Memory
    requires r.from < |t| && r.to < |t|
  {
    After(Moving(t, m, r), Target(t, r.to, Attrs(t, r), Moving(t, m, r)))
  }

  // The device before the rename, between its two commits and after them; within one
  // directory one commit does it.
  function States(t: seq<Mdir>, m: Memory, r: Plan, n: nat): seq<Mdir>
    requires r.from < |t| && r.to < |t|
  {
    if n == 0 then t
    else
      var u := Performed(t, r.to, Attrs(t, r), Moving(t, m, r));
      if n == 1 || r.from == r.to || r.from >= |u| then u else Performed(u, r.from, [], Midway(t, m, r))
  }

  // The memory after the rename.
  function Afterwards(t: seq<Mdir>, m: Memory, r: Plan): Memory
    requires r.from < |t| && r.to < |t|
  {
    var u, n := States(t, m, r, 1), Midway(t, m, r);
    if r.from == r.to || r.from >= |u| then n else After(n, Target(u, r.from, [], n))
  }

  // The commit that deletes the old entry empties its pair, which is not the first of its
  // directory: the pair is dropped instead. Within one directory that takes renaming an entry
  // onto itself.
  predicate Dropping(t: seq<Mdir>, r: Plan) {
    && 0 < r.from < |t| && TailFound(t[r.from - 1].log).split && |Replay(t[r.from].log)| == 1
    && (r.from != r.to || (r.replaced && r.newid == r.oldid))
  }

  // Where a directory is in the thread afterwards.
  function Placed(t: seq<Mdir>, r: Plan, p: nat): nat {
    if Dropping(t, r) && p > r.from then p - 1 else p
  }

  // ---- recovery -----------------------------------------------------------------------------------

  // The directory with the given pair.
  function IndexOf(t: seq<Mdir>, pair: Pair, i: nat): (k: nat)
    requires i <= |t|
    ensures i <= k <= |t| && (k < |t| ==> SamePair(t[k].pair, pair))
    ensures forall j :: i <= j < k ==> !SamePair(t[j].pair, pair)
    decreases |t| - i
  {
    if i == |t| || SamePair(t[i].pair, pair) then i else IndexOf(t, pair, i + 1)
  }

  // lfs_fs_demove: a commit of nothing to the directory that a move is pending on.
  function Demoved(t: seq<Mdir>, m: Memory): seq<Mdir> {
    var k := IndexOf(t, Pair(m.pending.a, m.pending.b), 0);
    if HasMove(m.pending) && k < |t| then Performed(t, k, [], m) else t
  }

  // The memory after that.
  function Released(t: seq<Mdir>, m: Memory): Memory {
    var k := IndexOf(t, Pair(m.pending.a, m.pending.b), 0);
    if HasMove(m.pending) && k < |t| then After(m, Target(t, k, [], m)) else m
  }

  // When that drops the directory, the move stays in memory.
  function Leftover(t: seq<Mdir>, m: Memory): G {
    var k := IndexOf(t, Pair(m.pending.a, m.pending.b), 0);
    if HasMove(m.pending) && k < |t| && Empties(t, k, [], m) then MoveIn(m.pending) else ZERO
  }

  // What mounting the device and finishing a pending move make of it.
  function Recovered(t: seq<Mdir>): seq<Mdir> {
    Demoved(t, Memory(Mounted(t), ZERO))
  }

  method Demove(fs: Fs)
    requires fs.Valid() && (HasMove(fs.gstate) ==> fs.gstate == fs.gpending)
    modifies fs
    ensures fs.Valid()
    ensures !old(HasMove(fs.gstate)) ==>
              fs.thread == old(fs.thread) && fs.Mem() == old(fs.Mem()) && fs.gstate == old(fs.gstate)
    ensures old(fs.gstate == fs.gpending) ==>
              && fs.thread == Demoved(old(fs.thread), old(fs.Mem()))
              && fs.Mem() == Released(old(fs.thread), old(fs.Mem())) && fs.gstate == fs.gpending
              && Off(fs.thread, fs.Mem())
              == Xor(Off(old(fs.thread), old(fs.Mem())), Leftover(old(fs.thread), old(fs.Mem())))
  {
    hide HasMove, SamePair, Performed, Target, After, Clean, Off, Empties, MoveIn, Xor;
    XorSelf(Off(fs.thread, fs.Mem()));
    if !HasMove(fs.gstate) {
      return;
    }
    // find the directory and delete the entry; the commit knows which
    var k, pair := 0, Pair(fs.gstate.a, fs.gstate.b);
    while k < |fs.thread| && !SamePair(fs.thread[k].pair, pair)
      invariant k <= |fs.thread| && IndexOf(fs.thread, pair, 0) == IndexOf(fs.thread, pair, k)
    {
      k := k + 1;
    }
    if k < |fs.thread| {
      SamePairFlips(fs.thread[k].pair, pair);
      MoveIsHere(fs.gpending, fs.thread[k].pair);
      NoStateIn([]);
      fs.Perform(k, []);
    }
  }

  lemma SamePairFlips(p: Pair, q: Pair)
    ensures SamePair(p, q) <==> SamePair(q, p)
  {
  }

  lemma MoveIsHere(g: G, pair: Pair)
    requires HasMove(g) && SamePair(Pair(g.a, g.b), pair)
    ensures HasMoveHere(g, pair)
  {
    hide HasMove, SamePair;
  }

  // Mounting and finishing the move. A pair that is dropped in doing so leaves the move in
  // memory.
  method Recover(t: seq<Mdir>) returns (fs: Fs)
    requires OnlyStored(Dirs(t)) && ProperMove(Total(Dirs(t)))
    ensures fresh(fs) && fs.Valid() && fs.thread == Recovered(t)
    ensures Off(fs.thread, fs.Mem()) == Leftover(t, Memory(Mounted(t), ZERO))
    ensures fs.Mem() == Released(t, Memory(Mounted(t), ZERO)) && fs.gstate == fs.gpending
  {
    hide *;
    fs := new Fs.Mount(t);
    RecoveredIs(t);
    XorSelf(Leftover(t, Memory(Mounted(t), ZERO)));
    Demove(fs);
  }

  lemma RecoveredIs(t: seq<Mdir>)
    ensures Recovered(t) == Demoved(t, Memory(Mounted(t), ZERO))
  {
    hide Demoved, Mounted;
  }

  // A move is pending on one directory at most.
  predicate OneMoving(g: G, t: seq<Mdir>) {
    forall i, j :: 0 <= i < |t| && 0 <= j < |t| && HasMoveHere(g, t[i].pair) && HasMoveHere(g, t[j].pair) ==> i == j
  }

  // Then none is pending on any that is left, and orphans are counted as before.
  lemma ReleasedIs(t: seq<Mdir>, m: Memory)
    requires OneMoving(m.pending, t) && m.delta == ZERO
    ensures NowhereMoving(Released(t, m).pending, Demoved(t, m)) && Released(t, m).delta == ZERO
    ensures OrphanBits(Released(t, m).pending.tag) == OrphanBits(m.pending.tag)
    ensures MoveIn(Leftover(t, m)) == Leftover(t, m)
  {
    hide *;
    var k := IndexOf(t, Pair(m.pending.a, m.pending.b), 0);
    DemovedParts(t, m);
    NothingInZero();
    MoveInTwice(m.pending);
    if !HasMove(m.pending) {
      NoneMoving(m.pending, t);
    } else if k == |t| {
      NotInThread(t, m.pending);
    } else {
      SamePairFlips(t[k].pair, Pair(m.pending.a, m.pending.b));
      MoveIsHere(m.pending, t[k].pair);
      PerformedIs(t, k, [], m);
      MemoryIs(m, Target(t, k, [], m));
      StaysCounted(m, Target(t, k, [], m));
      if Empties(t, k, [], m) {
        NotMovingHere(m.pending, t, k, k - 1);
        StillNowhere(m.pending, t, k, Memory(m.pending, Unmoved(m, t[k].pair)));
      } else {
        FinishedMove(m, t[k].pair);
        NoneMoving(After(m, t[k].pair).pending, Performed(t, k, [], m));
      }
    }
  }

  lemma DemovedParts(t: seq<Mdir>, m: Memory)
    ensures var k := IndexOf(t, Pair(m.pending.a, m.pending.b), 0);
            && k <= |t| && (k < |t| ==> SamePair(t[k].pair, Pair(m.pending.a, m.pending.b)))
            && (if HasMove(m.pending) && k < |t| then
                  && Released(t, m) == After(m, Target(t, k, [], m)) && Demoved(t, m) == Performed(t, k, [], m)
                  && Leftover(t, m) == if Empties(t, k, [], m) then MoveIn(m.pending) else ZERO
                else Released(t, m) == m && Demoved(t, m) == t && Leftover(t, m) == ZERO)
  {
    hide HasMove, After, Target, Performed, Empties, MoveIn, SamePair;
  }

  lemma NothingInZero()
    ensures MoveIn(ZERO) == ZERO
  {
    MoveZero();
  }

  lemma MoveInTwice(g: G)
    ensures MoveIn(MoveIn(g)) == MoveIn(g)
  {
    hide Words.And;
    Words.AndAnd(g.tag, 0x7fff_fc00, 0x7fff_fc00);
    Meets();
  }

  lemma NotInThread(t: seq<Mdir>, g: G)
    requires IndexOf(t, Pair(g.a, g.b), 0) == |t|
    ensures NowhereMoving(g, t)
  {
    hide HasMove, SamePair;
    forall i | 0 <= i < |t|
      ensures !HasMoveHere(g, t[i].pair)
    {
      assert !SamePair(t[i].pair, Pair(g.a, g.b));
      SamePairFlips(t[i].pair, Pair(g.a, g.b));
    }
  }

  lemma NotMovingHere(g: G, t: seq<Mdir>, k: nat, i: nat)
    requires OneMoving(g, t) && k < |t| && i < |t| && HasMoveHere(g, t[k].pair) && i != k
    ensures !HasMoveHere(g, t[i].pair)
  {
    hide HasMoveHere;
  }

  lemma StaysCounted(m: Memory, pair: Pair)
    ensures OrphanBits(After(m, pair).pending.tag) == OrphanBits(m.pending.tag)
  {
    hide HasMoveHere, OrphanBits, NoMove;
    NoMoveLeft(m.pending);
  }

  lemma StillNowhere(g: G, t: seq<Mdir>, k: nat, n: Memory)
    requires OneMoving(g, t) && 0 < k < |t| && HasMoveHere(g, t[k].pair)
    ensures NowhereMoving(g, FileSystem.Dropped(t, k - 1, n))
  {
    hide HasMoveHere;
    var u := FileSystem.Dropped(t, k - 1, n);
    forall i | 0 <= i < |u|
      ensures !HasMoveHere(g, u[i].pair)
    {
      assert u[i].pair == t[if i < k then i else i + 1].pair;
    }
  }

  // A move is finished in the directory whose blocks it names, whichever of them comes first: a
  // fetch puts the newer one first, so the two may have changed places since.
  lemma EitherOrder(t: seq<Mdir>, m: Memory, k: nat)
    requires Apart(t) && k < |t| && HasMove(m.pending)
    requires (m.pending.a == t[k].pair.first && m.pending.b == t[k].pair.second)
             || (m.pending.a == t[k].pair.second && m.pending.b == t[k].pair.first)
    ensures Demoved(t, m) == Performed(t, k, [], m) && WithMove(t[k], [], m) == [MoveItem(m.pending)]
    ensures forall i: nat :: i < |t| && i != k ==> WithMove(t[i], [], m) == []
  {
    hide Performed, Empties, MoveItem, HasMove;
    var pair := Pair(m.pending.a, m.pending.b);
    forall i: nat | i < |t|
      ensures SamePair(t[i].pair, pair) <==> i == k
    {
      if i != k {
        OthersApart(t, i, k);
      }
    }
    SameAt(t, pair, k);
  }

  lemma SameAt(t: seq<Mdir>, pair: Pair, k: nat)
    requires k < |t| && forall i: nat :: i < |t| ==> (SamePair(t[i].pair, pair) <==> i == k)
    ensures IndexOf(t, pair, 0) == k
  {
    hide SamePair;
    assert SamePair(t[k].pair, pair);
  }

  // lfs_rename from the searches on. When the pair of the old entry is dropped, what is in
  // memory afterwards is off by the move.
  method Rename(fs: Fs, r: Plan) returns (ghost between: seq<Mdir>)
    requires fs.Valid() && Ready(fs.thread, fs.Mem(), r)
    modifies fs
    ensures r.from < |old(fs.thread)| && r.to < |old(fs.thread)| && RecordedId(r) < 0x400
    ensures between == States(old(fs.thread), old(fs.Mem()), r, 1)
    ensures fs.thread == States(old(fs.thread), old(fs.Mem()), r, 2) && fs.Valid()
    ensures fs.Mem() == Afterwards(old(fs.thread), old(fs.Mem()), r) && fs.gstate == fs.gpending
    ensures Off(fs.thread, fs.Mem()) == if Dropping(old(fs.thread), r)
                                        then MoveIn(MoveOf(RecordedId(r), old(fs.thread)[r.from].pair)) else ZERO
    ensures Off(fs.thread, fs.Mem()) == ZERO <==> !Dropping(old(fs.thread), r)
  {
    hide *;
    ghost var t, m := fs.thread, fs.Mem();
    ReadyParts(t, m, r);
    AttrsFine(t, m, r);
    RecordedIdIs(r);
    StatesAre(t, m, r);
    Memories(t, m, r);
    Prepared(t, m, r);
    FirstEmpties(t, m, r);
    if r.from != r.to {
      SecondEmpties(t, m, r);
    }
    MoveIsThere(Moving(t, m, r).pending, RecordedId(r), t[r.from].pair);
    MoveNotZero(Moving(t, m, r).pending, t[r.from].pair);
    XorSelf(MoveIn(MoveOf(RecordedId(r), t[r.from].pair)));
    // making room may move the old entry
    var id := r.oldid;
    if r.from == r.to && !r.replaced && r.newid <= id {
      id := id + 1;
    }
    fs.PrepMove(id, fs.thread[r.from].pair);
    // the attributes of the old entry come along
    var source := fs.thread[r.from].log;
    OnDiskGroups(source);
    PlainOnDisk(source);
    var moved := Traversal(OnDisk(source), true, r.oldid, r.oldid + 1, r.newid);
    MovedAre(source, r.oldid, r.newid);
    fs.Perform(r.to, Attributes(r.replaced, r.newid, r.Name(), moved));
    between := fs.thread;
    // within one directory that was all
    if r.from != r.to {
      NoStateIn([]);
      fs.Perform(r.from, []);
    }
  }

  lemma ReadyParts(t: seq<Mdir>, m: Memory, r: Plan)
    requires Ready(t, m, r)
    ensures Apart(t) && Clean(t, m) && Off(t, m) == ZERO && !HasMove(Total(Dirs(t))) && r.from < |t| && r.to < |t|
    ensures Settled(t[r.from].log) && WellFormed(t[r.from].log) && Closed(t[r.from].log) && Settled(t[r.to].log)
    ensures r.oldid < |Replay(t[r.from].log)| <= NO_ID && |Replay(t[r.to].log)| <= NO_ID
    ensures if r.replaced then r.newid < |Replay(t[r.to].log)| else r.newid <= |Replay(t[r.to].log)| < NO_ID
    ensures r.Name().IsName() && !r.Name().tag.IsDelete() && r.newid < NO_ID && RecordedId(r) < 0x3ff
    ensures IsOf(Replay(t[r.from].log)[r.oldid], r.kind) && r.kind < TYPE_FROM && |r.name| < DELETED_SIZE
  {
    KindIsName(Replay(t[r.from].log)[r.oldid], r.kind);
    NameFits(r);
    hide Apart, Clean, Off, HasMove, Total, Dirs, WellFormed, AllNamed, Replay, Closed, IsOf;
    CountBound(t[r.from].log);
    CountBound(t[r.to].log);
  }

  lemma RecordedIdIs(r: Plan)
    ensures RecordedId(r) == if r.from == r.to && !r.replaced && r.newid <= r.oldid then r.oldid + 1 else r.oldid
  {
  }

  lemma StatesAre(t: seq<Mdir>, m: Memory, r: Plan)
    requires r.from < |t| && r.to < |t| && RecordedId(r) < 0x400
    ensures Moving(t, m, r) == MovePrepared(m, RecordedId(r), t[r.from].pair)
    ensures States(t, m, r, 0) == t && States(t, m, r, 1) == Performed(t, r.to, Attrs(t, r), Moving(t, m, r))
    ensures r.from == r.to ==> States(t, m, r, 2) == States(t, m, r, 1)
    ensures r.from != r.to && r.from < |States(t, m, r, 1)| ==>
              States(t, m, r, 2) == Performed(States(t, m, r, 1), r.from, [], Midway(t, m, r))
    ensures Midway(t, m, r) == After(Moving(t, m, r), Target(t, r.to, Attrs(t, r), Moving(t, m, r)))
    ensures Afterwards(t, m, r)
         == var u, n := States(t, m, r, 1), Midway(t, m, r);
            if r.from == r.to || r.from >= |u| then n else After(n, Target(u, r.from, [], n))
    ensures Attrs(t, r) == Attributes(r.replaced, r.newid, r.Name(), Moved(t[r.from].log, r.oldid, r.newid))
  {
    hide MovePrepared, Performed, Target, After, Attributes, Moved, RecordedId;
  }

  lemma PlainOnDisk(log: seq<Item>)
    ensures forall i :: 0 <= i < |OnDisk(log)| ==> OnDisk(log)[i].Plain?
  {
  }

  lemma MovedAre(source: seq<Item>, fromid: nat, id: nat)
    ensures Moved(source, fromid, id) == Window(Select(KeptOf(Singles(source)), true), fromid, fromid + 1, id)
  {
    hide Window, Select, KeptOf;
  }

  // ---- the attributes of the commit ------------------------------------------------------------

  lemma {:induction false} WindowTypes(kept: seq<Item>, begin: nat, end: nat, to: nat)
    ensures var w := Window(Select(kept, true), begin, end, to);
            forall i :: 0 <= i < |w| ==> TYPE_STRUCT <= w[i].tag.type3 < TYPE_SPLICE
    decreases |kept|
  {
    hide *;
    if kept == [] {
      SelectNone(true);
      WindowNone(begin, end, to);
    } else {
      var init, x := kept[..|kept| - 1], kept[|kept| - 1];
      WindowTypes(init, begin, end, to);
      assert init + [x] == kept;
      SelectSnoc(init, x, true);
      WindowSnoc(Select(init, true), x, begin, end, to);
      MovedType(x);
    }
  }

  lemma MovedType(x: Item)
    ensures Selected(x.tag.type3, true) ==> TYPE_STRUCT <= x.tag.type3 < TYPE_SPLICE
    ensures forall id :: x.At(id).tag.type3 == x.tag.type3
  {
  }

  // What may follow the name of an entry.
  predicate Contents(xs: seq<Item>, id: nat) {
    WritesTo(xs, id) && forall i :: 0 <= i < |xs| ==> TYPE_STRUCT <= xs[i].tag.type3 < TYPE_SPLICE
  }

  lemma MovedAreContents(source: seq<Item>, fromid: nat, id: nat)
    requires Closed(source)
    ensures Contents(Moved(source, fromid, id), id)
  {
    hide *;
    var kept := KeptOf(Singles(source));
    ClosedParts(source);
    SealedHasNoMarkers(source);
    MovedIs(source, fromid, id, kept);
    WindowOfSelected(kept, fromid, fromid + 1, id);
    WindowAt(Select(kept, true), fromid, id, id);
    WindowTypes(kept, fromid, fromid + 1, id);
    AreContents(Moved(source, fromid, id), id);
  }

  lemma ClosedParts(source: seq<Item>)
    requires Closed(source)
    ensures source != [] && !source[|source| - 1].IsAttr()
  {
  }

  lemma AreContents(xs: seq<Item>, id: nat)
    requires WritesTo(xs, id) && forall i :: 0 <= i < |xs| ==> TYPE_STRUCT <= xs[i].tag.type3 < TYPE_SPLICE
    ensures Contents(xs, id)
  {
    hide WritesTo;
  }

  lemma ContentsParts(xs: seq<Item>, id: nat)
    requires Contents(xs, id)
    ensures WritesTo(xs, id) && NoState(xs)
  {
    hide WritesTo;
  }

  // The attributes keep a log settled, and none of them is about the global state.
  lemma {:induction false} ContentsFit(log: seq<Item>, id: nat, xs: seq<Item>)
    requires Settled(log) && id < |Replay(log)| && Contents(xs, id)
    ensures Settled(log + xs) && |Replay(log + xs)| == |Replay(log)|
    decreases |xs|
  {
    hide Replay, WellFormed, Apply, Fits;
    if xs == [] {
      assert log + xs == log;
    } else {
      var init, x := xs[..|xs| - 1], xs[|xs| - 1];
      assert forall i :: 0 <= i < |init| ==> init[i] == xs[i];
      ContentsFit(log, id, init);
      assert log + xs == log + init + [x];
      ReplaySnoc(log + init, x);
      ContentFits(Replay(log + init), x);
    }
  }

  lemma ContentFits(s: seq<Entry>, x: Item)
    requires AllNamed(s) && x.tag.id < |s| && TYPE_STRUCT <= x.tag.type3 < TYPE_SPLICE
    ensures Fits(s, x) && AllNamed(Apply(s, x)) && |Apply(s, x)| == |s|
  {
  }

  lemma FitsNext(log: seq<Item>, x: Item)
    requires WellFormed(log) && Fits(Replay(log), x)
    ensures WellFormed(log + [x]) && Replay(log + [x]) == Apply(Replay(log), x)
  {
    hide *;
    ReplaySnoc(log, x);
  }

  lemma DeleteFits(s: seq<Entry>, id: nat)
    requires AllNamed(s) && id < |s|
    ensures Fits(s, DeleteAt(id)) && Apply(s, DeleteAt(id)) == Remove(s, id) && AllNamed(Remove(s, id))
  {
  }

  lemma RoomMade(s: seq<Entry>, id: nat, name: Item)
    requires AllNamed(s) && id <= |s| < NO_ID && name.IsName() && !name.tag.IsDelete()
    ensures var u := Apply(s, CreateAt(id));
            && Fits(s, CreateAt(id)) && Fits(u, name.At(id))
            && AllNamed(Apply(u, name.At(id))) && id < |Apply(u, name.At(id))|
  {
    var u := s[..id] + [[]] + s[id..];
    CreateIs(s, id);
    Named(u, id, name);
    assert forall i :: 0 <= i < |u| ==> u[i] == if i < id then s[i] else if i == id then [] else s[i - 1];
    hide Apply;
  }

  lemma RoomFits(log: seq<Item>, replaced: bool, id: nat, name: Item)
    requires Settled(log) && name.IsName() && !name.tag.IsDelete() && id < NO_ID
    requires if replaced then id < |Replay(log)| <= NO_ID else id <= |Replay(log)| < NO_ID
    ensures var xs := (if replaced then [DeleteAt(id)] else []) + [CreateAt(id)] + [name.At(id)];
            Settled(log + xs) && id < |Replay(log + xs)|
  {
    hide *;
    var first := if replaced then [DeleteAt(id)] else [];
    SettledIs(log);
    if replaced {
      DeleteFits(Replay(log), id);
      DeleteIs(Replay(log), id);
      FitsNext(log, DeleteAt(id));
    } else {
      assert log + first == log;
    }
    RoomMade(Replay(log + first), id, name);
    FitsNext(log + first, CreateAt(id));
    FitsNext(log + first + [CreateAt(id)], name.At(id));
    assert log + (first + [CreateAt(id)] + [name.At(id)]) == log + first + [CreateAt(id)] + [name.At(id)];
    SettledIs(log + (first + [CreateAt(id)] + [name.At(id)]));
  }

  // What the first commit writes is as it should be.
  lemma AttrsFine(t: seq<Mdir>, m: Memory, r: Plan)
    requires Ready(t, m, r)
    ensures r.from < |t| && NoState(Attrs(t, r)) && Contents(Moved(t[r.from].log, r.oldid, r.newid), r.newid)
    ensures r.to < |t| && Settled(t[r.to].log + Attrs(t, r))
  {
    hide *;
    ReadyParts(t, m, r);
    var log, id, moved := t[r.to].log, r.newid, Moved(t[r.from].log, r.oldid, r.newid);
    MovedAreContents(t[r.from].log, r.oldid, r.newid);
    ContentsParts(moved, id);
    RoomFits(log, r.replaced, id, r.Name());
    var xs := (if r.replaced then [DeleteAt(id)] else []) + [CreateAt(id)] + [r.Name().At(id)];
    ContentsFit(log + xs, id, moved);
    AttributesAre(r.replaced, id, r.Name(), moved);
    AttrsIs(t, r);
    assert log + (xs + moved) == log + xs + moved;
    FirstThree(r.replaced, id, r.Name(), moved);
  }

  lemma AttrsIs(t: seq<Mdir>, r: Plan)
    requires r.from < |t|
    ensures Attrs(t, r) == Attributes(r.replaced, r.newid, r.Name(), Moved(t[r.from].log, r.oldid, r.newid))
  {
    hide Attributes, Moved;
  }

  lemma FirstThree(replaced: bool, id: nat, name: Item, moved: seq<Item>)
    requires name.IsName() && NoState(moved)
    ensures NoState(Attributes(replaced, id, name, moved))
  {
  }

  // ---- what the commits do to the entries -------------------------------------------------------

  // ---- the move as the device has it ------------------------------------------------------------

  // A pending move that has been recorded for a directory is pending there and nowhere else.
  lemma MoveIsThere(g: G, id: nat, pair: Pair)
    requires id < 0x3ff && MoveIn(g) == MoveIn(MoveOf(id, pair))
    ensures HasMove(g) && MoveItem(g) == DeleteAt(id) && Pair(g.a, g.b) == pair
    ensures HasMoveHere(g, pair) && forall other :: HasMoveHere(g, other) <==> SamePair(pair, other)
  {
    hide Pack, MoveBits, Unpack, SamePair;
    SameMoveItem(g, MoveOf(id, pair));
    MoveItemOf(id, pair);
    MovePair(g, id, pair);
    PairIsSame(pair);
  }

  lemma MovePair(g: G, id: nat, pair: Pair)
    requires id < 0x3ff && MoveIn(g) == MoveIn(MoveOf(id, pair))
    ensures Pair(g.a, g.b) == pair
  {
    hide Pack, MoveBits;
  }

  lemma PairIsSame(pair: Pair)
    ensures SamePair(pair, pair)
  {
  }

  // Whatever finishes the move, the record in memory or the one on the device, does it with
  // the same commit.
  lemma SameWritten(d: Mdir, attrs: seq<Item>, m: Memory, n: Memory)
    requires MoveIn(m.pending) == MoveIn(n.pending) && m.delta == n.delta
    ensures Written(d, attrs, m) == Written(d, attrs, n) && WithMove(d, attrs, m) == WithMove(d, attrs, n)
    ensures Unmoved(m, d.pair) == Unmoved(n, d.pair)
  {
    hide *;
    SameMoveItem(m.pending, n.pending);
    MemoryIs(m, d.pair);
    MemoryIs(n, d.pair);
    WithMoveIs(d, attrs, m);
    WithMoveIs(d, attrs, n);
    WrittenIs(d, attrs, m);
    WrittenIs(d, attrs, n);
  }

  lemma SamePerformed(t: seq<Mdir>, k: nat, attrs: seq<Item>, m: Memory, n: Memory)
    requires k < |t| && MoveIn(m.pending) == MoveIn(n.pending) && m.delta == n.delta
    ensures Performed(t, k, attrs, m) == Performed(t, k, attrs, n)
    ensures Empties(t, k, attrs, m) <==> Empties(t, k, attrs, n)
  {
    hide *;
    SameWritten(t[k], attrs, m, n);
    EmptiesParts(t, k, attrs, m);
    EmptiesParts(t, k, attrs, n);
    PerformedIs(t, k, attrs, m);
    PerformedIs(t, k, attrs, n);
    if Empties(t, k, attrs, m) {
      var m', n' := Memory(m.pending, Unmoved(m, t[k].pair)), Memory(n.pending, Unmoved(n, t[k].pair));
      DroppedIs(t, k - 1, m');
      DroppedIs(t, k - 1, n');
      InheritedIs(t, k - 1, m');
      InheritedIs(t, k - 1, n');
      var tail := [Split.TailItem(TailFound(t[k].log))];
      CommittedIs(t, k - 1, tail, Inherited(t, k - 1, m'));
      CommittedIs(t, k - 1, tail, Inherited(t, k - 1, n'));
      SameWritten(t[k - 1], tail, Inherited(t, k - 1, m'), Inherited(t, k - 1, n'));
    } else {
      CommittedIs(t, k, attrs, m);
      CommittedIs(t, k, attrs, n);
    }
  }

  lemma OnlyIndex(t: seq<Mdir>, k: nat)
    requires Apart(t) && k < |t|
    ensures IndexOf(t, t[k].pair, 0) == k
  {
    PairIsSame(t[k].pair);
    hide SamePair;
    var i := IndexOf(t, t[k].pair, 0);
    assert i <= k;
  }

  lemma ApartAfter(t: seq<Mdir>, k: nat, attrs: seq<Item>, m: Memory)
    requires Apart(t) && k < |t|
    ensures Apart(Committed(t, k, attrs, m))
  {
    hide SamePair, Written;
    var u := Committed(t, k, attrs, m);
    assert forall i :: 0 <= i < |u| ==> u[i].pair == t[i].pair;
  }

  lemma OthersApart(t: seq<Mdir>, i: nat, j: nat)
    requires Apart(t) && i < |t| && j < |t| && i != j
    ensures !SamePair(t[i].pair, t[j].pair)
  {
    if i > j {
      assert !SamePair(t[j].pair, t[i].pair);
    }
  }

  // What a mount finds on the device after a commit.
  lemma MountAfter(t: seq<Mdir>, m: Memory)
    requires Clean(t, m) && Off(t, m) == ZERO && m.delta == ZERO
    ensures MoveIn(Mounted(t)) == MoveIn(m.pending) && (HasMove(Mounted(t)) <==> HasMove(m.pending))
    ensures HasMove(Total(Dirs(t))) <==> HasMove(m.pending)
  {
    hide *;
    CleanParts(t, m);
    StoredState(t, m);
    MountedState(t);
    SameMoveItem(Mounted(t), m.pending);
    SameMoveItem(Total(Dirs(t)), m.pending);
  }

  lemma NothingToDemove(t: seq<Mdir>)
    requires !HasMove(Mounted(t))
    ensures Recovered(t) == t
  {
    hide HasMove, Mounted, Performed;
  }

  lemma DemoveIs(t: seq<Mdir>, g: G, k: nat)
    requires Apart(t) && k < |t| && HasMove(g) && Pair(g.a, g.b) == t[k].pair && g == Mounted(t)
    ensures Recovered(t) == Performed(t, k, [], Memory(g, ZERO))
  {
    OnlyIndex(t, k);
    hide HasMove, Mounted, Performed, IndexOf, Apart;
  }

  // ---- the rename as a whole -----------------------------------------------------------------------

  // The commit to the new directory leaves an entry in it, unless an entry is renamed onto
  // itself and was the only one.
  lemma FirstEmpties(t: seq<Mdir>, m: Memory, r: Plan)
    requires Ready(t, m, r)
    ensures r.from < |t| && r.to < |t| && RecordedId(r) < 0x400
    ensures Empties(t, r.to, Attrs(t, r), Moving(t, m, r)) <==> r.from == r.to && Dropping(t, r)
  {
    hide *;
    ReadyParts(t, m, r);
    AttrsFine(t, m, r);
    Prepared(t, m, r);
    var n, attrs, log := Moving(t, m, r), Attrs(t, r), t[r.to].log;
    CleanParts(t, n);
    EmptiesIs(t, r.to, attrs, n);
    WithMoveIs(t[r.to], attrs, n);
    DroppingIs(t, r);
    FirstReplay(t, m, r);
    assert attrs + [] == attrs;
    if r.from == r.to {
      var x := DeleteAt(RecordedId(r));
      CorrectedId(r);
      assert log + (attrs + [x]) == log + attrs + [x];
      ReplaySnoc(log + attrs, x);
      DeleteIs(Replay(log + attrs), RecordedId(r));
      CorrectedBounds(r, |Replay(log)|);
    }
  }

  lemma CorrectedBounds(r: Plan, n: nat)
    requires r.from == r.to && r.oldid < n && if r.replaced then r.newid < n else r.newid <= n
    ensures RecordedId(r) < if r.replaced then n else n + 1
  {
  }

  lemma DroppingIs(t: seq<Mdir>, r: Plan)
    ensures Dropping(t, r) <==>
            && 0 < r.from < |t| && TailFound(t[r.from - 1].log).split && |Replay(t[r.from].log)| == 1
            && (r.from != r.to || (r.replaced && r.newid == r.oldid))
  {
    hide TailFound, Replay;
  }

  // What the attributes of the first commit make of the new directory.
  lemma FirstReplay(t: seq<Mdir>, m: Memory, r: Plan)
    requires Ready(t, m, r)
    ensures r.from < |t| && r.to < |t|
    ensures var s := Replay(t[r.to].log);
            && (if r.replaced then r.newid < |s| else r.newid <= |s|)
            && Replay(t[r.to].log + Attrs(t, r))
            == Insert(if r.replaced then Remove(s, r.newid) else s, r.newid, MovedEntry(t, r))
            && |Replay(t[r.to].log + Attrs(t, r))| == if r.replaced then |s| else |s| + 1
  {
    hide *;
    ReadyParts(t, m, r);
    AttrsFine(t, m, r);
    AttrsIs(t, r);
    ReplayConcat(t[r.to].log, Attrs(t, r));
    ContentsParts(Moved(t[r.from].log, r.oldid, r.newid), r.newid);
    ApplyAttributes(Replay(t[r.to].log), r.replaced, r.newid, r.Name(), Moved(t[r.from].log, r.oldid, r.newid));
    MovedEntryIs(t, r);
    var s := Replay(t[r.to].log);
    DeleteIs(s, r.newid);
    InsertIs(if r.replaced then Remove(s, r.newid) else s, r.newid, MovedEntry(t, r));
  }

  lemma InsertIs(s: seq<Entry>, i: nat, e: Entry)
    requires i <= |s|
    ensures |Insert(s, i, e)| == |s| + 1
  {
  }

  // The memory once the rename has been prepared.
  lemma Prepared(t: seq<Mdir>, m: Memory, r: Plan)
    requires Ready(t, m, r)
    ensures r.from < |t| && r.to < |t| && RecordedId(r) < 0x3ff
    ensures var n := Moving(t, m, r);
            && MoveIn(n.pending) == MoveIn(MoveOf(RecordedId(r), t[r.from].pair))
            && HasMove(n.pending) && MoveItem(n.pending) == DeleteAt(RecordedId(r))
            && HasMoveHere(n.pending, t[r.from].pair) && Clean(t, n) && Off(t, n) == ZERO
            && forall p: nat :: p < |t| && p != r.from ==> !HasMoveHere(n.pending, t[p].pair)
  {
    hide *;
    ReadyParts(t, m, r);
    StatesAre(t, m, r);
    MovePreparedKeeps(t, m, RecordedId(r), t[r.from].pair);
    var n := Moving(t, m, r);
    MoveIsThere(n.pending, RecordedId(r), t[r.from].pair);
    forall p: nat | p < |t| && p != r.from
      ensures !HasMoveHere(n.pending, t[p].pair)
    {
      OthersApart(t, r.from, p);
    }
  }

  // After the first commit.
  lemma Memories(t: seq<Mdir>, m: Memory, r: Plan)
    requires Ready(t, m, r)
    ensures r.from < |t| && r.to < |t| && RecordedId(r) < 0x3ff
    ensures var n, u := Midway(t, m, r), States(t, m, r, 1);
            && Clean(u, n) && n.delta == ZERO
            && (r.from != r.to ==>
                  && n.pending == Moving(t, m, r).pending && Off(u, n) == ZERO && Apart(u) && |u| == |t|
                  && u == Committed(t, r.to, Attrs(t, r), Moving(t, m, r))
                  && forall p: nat :: p < |t| ==> u[p].pair == t[p].pair)
            && (r.from == r.to ==>
                  && Clean(u, After(Moving(t, m, r), t[r.from].pair))
                  && Off(u, After(Moving(t, m, r), t[r.from].pair)) == ZERO
                  && !HasMove(After(Moving(t, m, r), t[r.from].pair).pending)
                  && After(Moving(t, m, r), t[r.from].pair).delta == ZERO)
  {
    hide *;
    ReadyParts(t, m, r);
    AttrsFine(t, m, r);
    StatesAre(t, m, r);
    Prepared(t, m, r);
    FirstEmpties(t, m, r);
    var n, attrs := Moving(t, m, r), Attrs(t, r);
    PerformedIs(t, r.to, attrs, n);
    PerformedConserves(t, r.to, attrs, n);
    MemoryIs(n, Target(t, r.to, attrs, n));
    if r.from == r.to {
      PerformedFinishes(t, r.to, attrs, n);
    } else {
      ApartAfter(t, r.to, attrs, n);
      CommittedIs(t, r.to, attrs, n);
    }
  }

  // The second commit: it empties the pair of the old entry exactly when that was the only
  // one, in a pair that is not the first of its directory.
  lemma SecondEmpties(t: seq<Mdir>, m: Memory, r: Plan)
    requires Ready(t, m, r) && r.from != r.to
    ensures r.from < |t| && r.to < |t|
    ensures var n, u := Midway(t, m, r), States(t, m, r, 1);
            && r.from < |u| && u[r.from] == t[r.from]
            && (Empties(u, r.from, [], n) <==> Dropping(t, r)) && HasMoveHere(n.pending, u[r.from].pair)
            && WithMove(u[r.from], [], n) == [DeleteAt(r.oldid)]
  {
    hide *;
    ReadyParts(t, m, r);
    AttrsFine(t, m, r);
    Memories(t, m, r);
    Prepared(t, m, r);
    RecordedIdIs(r);
    DroppingIs(t, r);
    var n, u := Midway(t, m, r), States(t, m, r, 1);
    CommittedIs(t, r.to, Attrs(t, r), Moving(t, m, r));
    CleanParts(u, n);
    EmptiesIs(u, r.from, [], n);
    WithMoveIs(u[r.from], [], n);
    assert [] + [DeleteAt(r.oldid)] == [DeleteAt(r.oldid)];
    ReplaySnoc(t[r.from].log, DeleteAt(r.oldid));
    DeleteIs(Replay(t[r.from].log), r.oldid);
    if 0 < r.from {
      FirstTail(t, m, r, r.from - 1);
    }
  }

  // The first commit changes no tail.
  lemma FirstTail(t: seq<Mdir>, m: Memory, r: Plan, p: nat)
    requires Ready(t, m, r) && !(r.from == r.to && Dropping(t, r)) && p < |t|
    ensures r.from < |t| && r.to < |t| && |States(t, m, r, 1)| == |t|
    ensures TailFound(States(t, m, r, 1)[p].log) == TailFound(t[p].log) && States(t, m, r, 1)[p].pair == t[p].pair
  {
    hide *;
    ReadyParts(t, m, r);
    AttrsFine(t, m, r);
    StatesAre(t, m, r);
    FirstEmpties(t, m, r);
    Prepared(t, m, r);
    var n, attrs := Moving(t, m, r), Attrs(t, r);
    PerformedIs(t, r.to, attrs, n);
    CommittedIs(t, r.to, attrs, n);
    if p == r.to {
      var log, x := t[p].log, DeleteAt(RecordedId(r));
      CommitReplays(t[p], attrs, n);
      WithMoveIs(t[p], attrs, n);
      assert attrs + [] == attrs;
      AttrsIs(t, r);
      AttributesAre(r.replaced, r.newid, r.Name(), Moved(t[r.from].log, r.oldid, r.newid));
      NoTailAdded(r.replaced, r.newid, r.Name(), Moved(t[r.from].log, r.oldid, r.newid));
      NoTails(log, attrs);
      DeleteIsNoTail(RecordedId(r));
      NoTailIn(log + attrs, x);
      assert log + (attrs + [x]) == log + attrs + [x];
      TailFoundIs(log + WithMove(t[p], attrs, n));
      TailFoundIs(log + Written(t[p], attrs, n));
    }
  }

  lemma DeleteIsNoTail(id: nat)
    ensures Kind(DeleteAt(id).tag.type3) != TYPE_TAIL
  {
  }

  lemma NoTailAdded(replaced: bool, id: nat, name: Item, moved: seq<Item>)
    requires name.IsName() && Contents(moved, id)
    ensures forall i :: 0 <= i < |Attributes(replaced, id, name, moved)| ==>
              Kind(Attributes(replaced, id, name, moved)[i].tag.type3) != TYPE_TAIL
  {
  }

  // Within one directory the one commit finishes its own move.
  lemma WithinIsRecovered(t: seq<Mdir>, m: Memory, r: Plan)
    requires Ready(t, m, r) && r.from == r.to
    ensures r.from < |t|
    ensures Recovered(States(t, m, r, 1)) == States(t, m, r, 1) && !HasMove(Total(Dirs(States(t, m, r, 1))))
  {
    hide *;
    Memories(t, m, r);
    var u, n := States(t, m, r, 1), Moving(t, m, r);
    MountAfter(u, After(n, t[r.from].pair));
    NothingToDemove(u);
  }

  // Between two directories: recovery after the first commit is the second commit.
  lemma BetweenIsRecovered(t: seq<Mdir>, m: Memory, r: Plan)
    requires Ready(t, m, r) && r.from != r.to
    ensures r.from < |t| && r.to < |t|
    ensures Recovered(States(t, m, r, 1)) == States(t, m, r, 2)
    ensures Recovered(States(t, m, r, 2)) == States(t, m, r, 2) && !HasMove(Total(Dirs(States(t, m, r, 2))))
    ensures var u, n := States(t, m, r, 2), After(Midway(t, m, r), t[r.from].pair);
            Clean(u, n) && Off(u, n) == ZERO && n.delta == ZERO && !HasMove(n.pending)
  {
    hide *;
    Memories(t, m, r);
    ReadyParts(t, m, r);
    StatesAre(t, m, r);
    Prepared(t, m, r);
    SecondEmpties(t, m, r);
    var u, n, pair := States(t, m, r, 1), Midway(t, m, r), t[r.from].pair;
    MountAfter(u, n);
    MoveIsThere(Mounted(u), RecordedId(r), pair);
    DemoveIs(u, Mounted(u), r.from);
    SamePerformed(u, r.from, [], Memory(Mounted(u), ZERO), n);
    var v := States(t, m, r, 2);
    NoStateIn([]);
    PerformedFinishes(u, r.from, [], n);
    MountAfter(v, After(n, pair));
    NothingToDemove(v);
  }

  // At every crash point, mounting and finishing the pending move leaves the logs as they
  // were before the rename, or exactly as they are after the whole of it, with no move
  // pending any more.
  lemma RenameIsAtomic(t: seq<Mdir>, m: Memory, r: Plan, n: nat)
    requires Ready(t, m, r)
    ensures r.from < |t| && r.to < |t|
    ensures var u := Recovered(States(t, m, r, n));
            u == States(t, m, r, if n == 0 then 0 else 2) && !HasMove(Total(Dirs(u)))
  {
    hide *;
    ReadyParts(t, m, r);
    StatesAre(t, m, r);
    StatesEnd(t, m, r, n);
    if n == 0 {
      CleanParts(t, m);
      MountedState(t);
      SameMoveItem(Mounted(t), Total(Dirs(t)));
      NothingToDemove(t);
    } else if r.from == r.to {
      WithinIsRecovered(t, m, r);
    } else {
      BetweenIsRecovered(t, m, r);
    }
  }

  lemma StatesEnd(t: seq<Mdir>, m: Memory, r: Plan, n: nat)
    requires r.from < |t| && r.to < |t|
    ensures n >= 2 ==> States(t, m, r, n) == States(t, m, r, 2)
  {
    hide Performed, Midway, Moving, Attrs;
  }

  // The memory after the whole of it: no move is pending on any directory that is left, and
  // orphans are counted as before.
  lemma Finally(t: seq<Mdir>, m: Memory, r: Plan)
    requires Ready(t, m, r)
    ensures r.from < |t| && r.to < |t| && RecordedId(r) < 0x400
    ensures var u, n, x := States(t, m, r, 2), Afterwards(t, m, r), MoveIn(MoveOf(RecordedId(r), t[r.from].pair));
            && Clean(u, n) && n.delta == ZERO
            && Off(u, n) == MoveIn(n.pending) == (if Dropping(t, r) then x else ZERO)
            && NowhereMoving(n.pending, u) && OrphanBits(n.pending.tag) == OrphanBits(m.pending.tag)
  {
    hide *;
    ReadyParts(t, m, r);
    AttrsFine(t, m, r);
    StatesAre(t, m, r);
    Memories(t, m, r);
    Prepared(t, m, r);
    FirstEmpties(t, m, r);
    MovePreparedKeeps(t, m, RecordedId(r), t[r.from].pair);
    OnlyMovingAt(t, m, r);
    var n, attrs := Moving(t, m, r), Attrs(t, r);
    PerformedIs(t, r.to, attrs, n);
    PerformedConserves(t, r.to, attrs, n);
    MemoryIs(n, Target(t, r.to, attrs, n));
    StaysCounted(n, Target(t, r.to, attrs, n));
    XorSelf(MoveIn(n.pending));
    if r.from == r.to {
      if Dropping(t, r) {
        StillNowhere(n.pending, t, r.from, Memory(n.pending, Unmoved(n, t[r.from].pair)));
      } else {
        NoneMoving(After(n, t[r.from].pair).pending, States(t, m, r, 2));
        NothingLeft(n, t[r.from].pair);
      }
    } else {
      SecondEmpties(t, m, r);
      var u, o := States(t, m, r, 1), Midway(t, m, r);
      NoStateIn([]);
      PerformedIs(u, r.from, [], o);
      PerformedConserves(u, r.from, [], o);
      MemoryIs(o, Target(u, r.from, [], o));
      StaysCounted(o, Target(u, r.from, [], o));
      SamePairs(t, u, o.pending);
      if Dropping(t, r) {
        StillNowhere(o.pending, u, r.from, Memory(o.pending, Unmoved(o, u[r.from].pair)));
      } else {
        FinishedMove(o, u[r.from].pair);
        NoneMoving(After(o, u[r.from].pair).pending, States(t, m, r, 2));
        NothingLeft(o, u[r.from].pair);
      }
    }
  }

  // Whatever state the device is in, a mount finds it fit for finishing the move.
  ghost predicate Mountable(t: seq<Mdir>) {
    OnlyStored(Dirs(t)) && ProperMove(Total(Dirs(t))) && OneMoving(Mounted(t), t)
  }

  lemma IsMountable(t: seq<Mdir>)
    requires OnlyStored(Dirs(t)) && !HasMove(Total(Dirs(t)))
    ensures Mountable(t)
  {
    hide *;
    MountedState(t);
    SameMoveItem(Mounted(t), Total(Dirs(t)));
    FileSystem.IsProper(Total(Dirs(t)));
    NoneMoving(Mounted(t), t);
    NowhereIsOne(Mounted(t), t);
    MountableIs(t);
  }

  lemma NowhereIsOne(g: G, t: seq<Mdir>)
    requires NowhereMoving(g, t)
    ensures OneMoving(g, t)
  {
    hide HasMoveHere;
  }

  lemma MountableIs(t: seq<Mdir>)
    ensures Mountable(t) <==> OnlyStored(Dirs(t)) && ProperMove(Total(Dirs(t))) && OneMoving(Mounted(t), t)
  {
    hide OnlyStored, Dirs, ProperMove, Total, OneMoving, Mounted;
  }

  lemma StatesMount(t: seq<Mdir>, m: Memory, r: Plan, n: nat)
    requires Ready(t, m, r) && n <= 2
    ensures r.from < |t| && r.to < |t| && Mountable(States(t, m, r, n))
  {
    hide *;
    ReadyParts(t, m, r);
    StatesAre(t, m, r);
    CleanParts(t, m);
    Finally(t, m, r);
    RenameIsAtomic(t, m, r, 2);
    var v := States(t, m, r, 2);
    CleanParts(v, Afterwards(t, m, r));
    if n == 0 {
      IsMountable(t);
    } else if n == 2 || r.from == r.to {
      IsMountable(v);
    } else {
      Memories(t, m, r);
      Prepared(t, m, r);
      var u, o := States(t, m, r, 1), Midway(t, m, r);
      CleanParts(u, o);
      MountAfter(u, o);
      MountedState(u);
      SameMoveItem(Mounted(u), o.pending);
      SameMoveItem(Total(Dirs(u)), o.pending);
      SameProper(o.pending, Total(Dirs(u)));
      OnlyMovingAt(t, m, r);
      SamePairs(t, u, o.pending);
      SameOneMoving(o.pending, Mounted(u), u);
      MountableIs(u);
    }
  }

  lemma SameOneMoving(g: G, h: G, t: seq<Mdir>)
    requires OneMoving(g, t) && forall pair :: HasMoveHere(g, pair) <==> HasMoveHere(h, pair)
    ensures OneMoving(h, t)
  {
    hide HasMoveHere;
  }

  lemma NothingLeft(m: Memory, pair: Pair)
    requires HasMoveHere(m.pending, pair)
    ensures MoveIn(After(m, pair).pending) == ZERO
  {
    hide HasMoveHere, MoveIn, NoMove;
    NoMoveLeft(m.pending);
    NothingInZero();
  }

  lemma OnlyMovingAt(t: seq<Mdir>, m: Memory, r: Plan)
    requires Ready(t, m, r)
    ensures r.from < |t| && r.to < |t| && OneMoving(Moving(t, m, r).pending, t)
  {
    hide *;
    Prepared(t, m, r);
    IsOneMoving(Moving(t, m, r).pending, t, r.from);
  }

  lemma IsOneMoving(g: G, t: seq<Mdir>, k: nat)
    requires forall p: nat :: p < |t| && p != k ==> !HasMoveHere(g, t[p].pair)
    ensures OneMoving(g, t)
  {
    hide HasMoveHere;
  }

  lemma SamePairs(t: seq<Mdir>, u: seq<Mdir>, g: G)
    requires |u| == |t| && forall p: nat :: p < |t| ==> u[p].pair == t[p].pair
    ensures OneMoving(g, t) ==> OneMoving(g, u)
  {
    hide HasMoveHere;
  }

  // ---- what has become of the entries ------------------------------------------------------------

  // The entry under the new name.
  function MovedEntry(t: seq<Mdir>, r: Plan): Entry
    requires r.from < |t|
  {
    NewEntry(r.Name(), Moved(t[r.from].log, r.oldid, r.newid))
  }

  // Afterwards the old entry, and only it, is gone from its directory; the new entry is in
  // the other one, where the search said, in place of the entry of that name if there was
  // one; all other directories are as they were. When the old entry was the only one of a
  // pair that continues a directory, the pair is gone with it, and the pair before goes on
  // where it went on.
  lemma BetweenDirectories(t: seq<Mdir>, m: Memory, r: Plan)
    requires Ready(t, m, r) && r.from != r.to
    ensures r.from < |t| && r.to < |t| && r.oldid < |Replay(t[r.from].log)|
    ensures var s := Replay(t[r.to].log); if r.replaced then r.newid < |s| else r.newid <= |s|
    ensures var u, s := States(t, m, r, 2), Replay(t[r.to].log);
            && (if Dropping(t, r) then
                  && |u| == |t| - 1 && Remove(Replay(t[r.from].log), r.oldid) == []
                  && TailFound(u[r.from - 1].log) == TailFound(t[r.from].log)
                else
                  && |u| == |t| && Replay(u[r.from].log) == Remove(Replay(t[r.from].log), r.oldid)
                  && Settled(u[r.from].log))
            && (forall p: nat :: p < |t| && p != r.from ==>
                  && Placed(t, r, p) < |u| && u[Placed(t, r, p)].pair == t[p].pair
                  && Replay(u[Placed(t, r, p)].log)
                  == (if p == r.to then Insert(if r.replaced then Remove(s, r.newid) else s, r.newid, MovedEntry(t, r))
                      else Replay(t[p].log))
                  && (p != r.to && !(Dropping(t, r) && p + 1 == r.from) ==> u[Placed(t, r, p)] == t[p]))
            && Settled(u[Placed(t, r, r.to)].log)
  {
    hide *;
    FirstCommit(t, m, r);
    ReadyParts(t, m, r);
    SecondState(t, m, r);
    DroppingIs(t, r);
    PlacedIs(t, r);
    DeleteReplays(t[r.from].log, r.oldid);
    DeleteIs(Replay(t[r.from].log), r.oldid);
    var u, s := States(t, m, r, 2), Replay(t[r.to].log);
    DeleteIs(s, r.newid);
    forall p: nat | p < |t| && p != r.from
      ensures Placed(t, r, p) < |u| && u[Placed(t, r, p)].pair == t[p].pair
      ensures Replay(u[Placed(t, r, p)].log)
           == (if p == r.to then Insert(if r.replaced then Remove(s, r.newid) else s, r.newid, MovedEntry(t, r))
               else Replay(t[p].log))
      ensures p != r.to && !(Dropping(t, r) && p + 1 == r.from) ==> u[Placed(t, r, p)] == t[p]
      ensures p == r.to ==> Settled(u[Placed(t, r, p)].log)
    {
      SecondAt(t, m, r, p);
    }
  }

  // What the second commit makes of the first.
  lemma SecondState(t: seq<Mdir>, m: Memory, r: Plan)
    requires Ready(t, m, r) && r.from != r.to
    ensures r.from < |t| && r.to < |t|
    ensures var u, v := States(t, m, r, 1), States(t, m, r, 2);
            && |u| == |t| && r.from < |u|
            && (if Dropping(t, r) then
                  && 0 < r.from && |v| == |u| - 1
                  && (forall i :: 0 <= i < |v| && i != r.from - 1 ==> v[i] == u[if i < r.from then i else i + 1])
                  && v[r.from - 1].pair == u[r.from - 1].pair
                  && Replay(v[r.from - 1].log) == Replay(u[r.from - 1].log)
                  && TailFound(v[r.from - 1].log) == TailFound(t[r.from].log)
                  && (Settled(u[r.from - 1].log) ==> Settled(v[r.from - 1].log))
                else
                  && |v| == |u| && (forall i :: 0 <= i < |v| && i != r.from ==> v[i] == u[i])
                  && v[r.from].pair == t[r.from].pair && TailFound(v[r.from].log) == TailFound(t[r.from].log)
                  && Replay(v[r.from].log) == Replay(t[r.from].log + [DeleteAt(r.oldid)])
                  && (Settled(t[r.from].log + [DeleteAt(r.oldid)]) ==> Settled(v[r.from].log)))
  {
    hide *;
    ReadyParts(t, m, r);
    StatesAre(t, m, r);
    Memories(t, m, r);
    Prepared(t, m, r);
    SecondEmpties(t, m, r);
    DroppingIs(t, r);
    var u, n := States(t, m, r, 1), Midway(t, m, r);
    PerformedIs(u, r.from, [], n);
    if Dropping(t, r) {
      DroppedEntries(u, r.from - 1, Memory(n.pending, Unmoved(n, u[r.from].pair)));
    } else {
      CommitReplays(u[r.from], [], n);
      CommittedIs(u, r.from, [], n);
      DeleteIsNoTail(r.oldid);
      NoTailIn(t[r.from].log, DeleteAt(r.oldid));
      TailFoundIs(u[r.from].log + Written(u[r.from], [], n));
      TailFoundIs(t[r.from].log + [DeleteAt(r.oldid)]);
    }
  }

  // What has become of one of the other directories.
  lemma SecondAt(t: seq<Mdir>, m: Memory, r: Plan, p: nat)
    requires Ready(t, m, r) && r.from != r.to && p < |t| && p != r.from
    ensures r.from < |t| && r.to < |t| && |States(t, m, r, 1)| == |t|
    ensures var u, v := States(t, m, r, 1), States(t, m, r, 2);
            && Placed(t, r, p) < |v| && v[Placed(t, r, p)].pair == u[p].pair == t[p].pair
            && Replay(v[Placed(t, r, p)].log) == Replay(u[p].log)
            && (p != r.to ==> u[p] == t[p])
            && (!(Dropping(t, r) && p + 1 == r.from) ==> v[Placed(t, r, p)] == u[p])
            && (Settled(u[p].log) ==> Settled(v[Placed(t, r, p)].log))
  {
    hide *;
    FirstCommit(t, m, r);
    SecondState(t, m, r);
    DroppingIs(t, r);
    PlacedIs(t, r);
    var u, v := States(t, m, r, 1), States(t, m, r, 2);
    if Dropping(t, r) {
      var i := if p > r.from then p - 1 else p;
      assert i != r.from - 1 ==> v[i] == u[if i < r.from then i else i + 1];
    }
  }

  lemma PlacedIs(t: seq<Mdir>, r: Plan)
    ensures forall p: nat :: Placed(t, r, p) == if Dropping(t, r) && p > r.from then p - 1 else p
  {
    hide Dropping;
  }

  // The first commit of a rename between two directories.
  lemma FirstCommit(t: seq<Mdir>, m: Memory, r: Plan)
    requires Ready(t, m, r) && r.from != r.to
    ensures r.from < |t| && r.to < |t|
    ensures var s := Replay(t[r.to].log); if r.replaced then r.newid < |s| else r.newid <= |s|
    ensures var u, s := States(t, m, r, 1), Replay(t[r.to].log);
            && |u| == |t|
            && Replay(u[r.to].log) == Insert(if r.replaced then Remove(s, r.newid) else s, r.newid, MovedEntry(t, r))
            && Settled(u[r.to].log) && u[r.to].pair == t[r.to].pair
            && forall p: nat :: p < |t| && p != r.to ==> u[p] == t[p]
  {
    hide *;
    ReadyParts(t, m, r);
    Memories(t, m, r);
    Prepared(t, m, r);
    AttrsFine(t, m, r);
    FirstReplay(t, m, r);
    var n, attrs := Moving(t, m, r), Attrs(t, r);
    WithMoveIs(t[r.to], attrs, n);
    assert attrs + [] == attrs;
    CommitReplays(t[r.to], attrs, n);
    CommittedIs(t, r.to, attrs, n);
  }

  lemma MovedEntryIs(t: seq<Mdir>, r: Plan)
    requires r.from < |t|
    ensures MovedEntry(t, r) == NewEntry(r.Name(), Moved(t[r.from].log, r.oldid, r.newid))
  {
    hide NewEntry, Moved;
  }

  // Within one directory the same holds, the two ids being corrected for each other.
  lemma WithinDirectory(t: seq<Mdir>, m: Memory, r: Plan)
    requires Ready(t, m, r) && r.from == r.to && !(r.replaced && r.newid == r.oldid)
    ensures r.from < |t| && r.oldid < |Replay(t[r.from].log)|
    ensures var s := Replay(t[r.from].log); if r.replaced then r.newid < |s| else r.newid <= |s|
    ensures var u := States(t, m, r, 2);
            && |u| == |t|
            && Replay(u[r.from].log) == Renamed(Replay(t[r.from].log), r.oldid, r.replaced, r.newid, MovedEntry(t, r))
            && forall p: nat :: p < |t| && p != r.from ==> u[p] == t[p]
  {
    hide *;
    Prepared(t, m, r);
    ReadyParts(t, m, r);
    StatesAre(t, m, r);
    AttrsFine(t, m, r);
    FirstEmpties(t, m, r);
    DroppingIs(t, r);
    var n, attrs, moved := Moving(t, m, r), Attrs(t, r), Moved(t[r.from].log, r.oldid, r.newid);
    PerformedIs(t, r.to, attrs, n);
    WithMoveIs(t[r.to], attrs, n);
    CommitReplays(t[r.to], attrs, n);
    CommittedIs(t, r.to, attrs, n);
    CorrectedId(r);
    ReplayConcat(t[r.to].log, attrs + [DeleteAt(RecordedId(r))]);
    ContentsParts(moved, r.newid);
    SameDirectory(Replay(t[r.to].log), r.oldid, r.replaced, r.newid, r.Name(), moved);
    MovedEntryIs(t, r);
  }

  lemma CorrectedId(r: Plan)
    ensures r.from == r.to ==> RecordedId(r) == Corrected(r.oldid, r.replaced, r.newid)
  {
    hide Corrected;
  }

  // The new entry is what the old one was, under its new name.
  lemma MovedEntryIsOld(t: seq<Mdir>, m: Memory, r: Plan, key: nat)
    requires Ready(t, m, r)
    ensures r.from < |t| && r.oldid < |Replay(t[r.from].log)|
    ensures IsContent(key) ==> Latest(MovedEntry(t, r), key) == Latest(Replay(t[r.from].log)[r.oldid], key)
    ensures Latest(MovedEntry(t, r), TYPE_NAME) == Some(WriteOf(r.Name()))
    // under the new name, and what the old one was: a file, or a directory
    ensures var was := Latest(Replay(t[r.from].log)[r.oldid], TYPE_NAME);
            was.Some? && Latest(MovedEntry(t, r), TYPE_NAME) == Some(Write(was.value.type3, |r.name|, r.name))
  {
    hide *;
    ReadyParts(t, m, r);
    KindIsName(Replay(t[r.from].log)[r.oldid], r.kind);
    NameFits(r);
    AttrsFine(t, m, r);
    MovedEntryIs(t, r);
    ContentsParts(Moved(t[r.from].log, r.oldid, r.newid), r.newid);
    ClosedParts(t[r.from].log);
    NewName(r.Name(), Moved(t[r.from].log, r.oldid, r.newid), r.newid);
    if IsContent(key) {
      MovedContents(t[r.from].log, r.oldid, r.newid, r.Name(), key);
    }
  }

  // ---- a rename that fails -----------------------------------------------------------------------

  // When the first commit fails, the logs are as they were, but the move that was prepared for
  // it is not taken back: it stays in memory, with what the failure has left of the delta.
  lemma FailedRename(t: seq<Mdir>, m: Memory, r: Plan, room: Room)
    requires Ready(t, m, r) && r.from != r.to && room.Valid()
    ensures r.from < |t| && r.to < |t|
    ensures var n := Moving(t, m, r);
            !Succeeds(room, t[r.to], Attrs(t, r), n) ==>
              var n' := Memory(n.pending, Packed(room, t[r.to], Attrs(t, r), n).delta);
              && Clean(t, n') && HasMoveHere(n'.pending, t[r.from].pair) && MoveItem(n'.pending) == DeleteAt(r.oldid)
              && Off(t, n') == FailureTerms(room, t[r.to], Attrs(t, r), n)
  {
    hide *;
    Prepared(t, m, r);
    RecordedIdIs(r);
    var n, d, attrs := Moving(t, m, r), t[r.to], Attrs(t, r);
    CleanParts(t, n);
    StoredUncounted(t, r.to);
    XorSelf(FailureTerms(room, d, attrs, n));
    if !Succeeds(room, d, attrs, n) {
      FailedUncounted(t, room, d, attrs, n);
      FailureConserves(t, room, d, attrs, n);
      SameHere(n.pending, t[r.from].pair);
    }
  }

  lemma SameHere(g: G, pair: Pair)
    ensures HasMoveHere(g, pair) <==> HasMoveHere(Memory(g, ZERO).pending, pair)
  {
  }

  // The next commit to the directory of the old entry then deletes it, whatever it is for; and
  // the next commit to another directory records the move, exclusive-ored with what the failure
  // has put wrong. So the entry is lost, at once or by the next mount, although there is no new
  // one: unless nothing is committed to its directory first, and the failure has changed the
  // recorded move.
  lemma StaleMove(t: seq<Mdir>, m: Memory, r: Plan, n: Memory, k: nat, attrs: seq<Item>)
    requires Ready(t, m, r) && r.from != r.to && k < |t| && NoState(attrs) && Clean(t, n)
    requires r.from < |t| && n.pending == Moving(t, m, r).pending
    ensures var u := Committed(t, k, attrs, n);
            if k == r.from then Replay(u[k].log) == Replay(t[k].log + attrs + [DeleteAt(r.oldid)])
            else
              && Total(Dirs(u)) == Xor(Persisted(n.pending), Off(t, n))
              && (MoveIn(Total(Dirs(u))) == MoveIn(n.pending) <==> MoveIn(Off(t, n)) == ZERO)
              && (MoveIn(Off(t, n)) == ZERO ==>
                    Recovered(u) == Performed(u, r.from, [], Memory(n.pending, ZERO)) && u[r.from] == t[r.from])
  {
    hide *;
    ReadyParts(t, m, r);
    Prepared(t, m, r);
    RecordedIdIs(r);
    var u := Committed(t, k, attrs, n);
    CommittedIs(t, k, attrs, n);
    WithMoveIs(t[k], attrs, n);
    CommitReplays(t[k], attrs, n);
    if k == r.from {
      assert t[k].log + (attrs + [DeleteAt(r.oldid)]) == t[k].log + attrs + [DeleteAt(r.oldid)];
    } else {
      CleanParts(t, n);
      CommitConserves(t, k, attrs, n);
      CommitStaysClean(t, k, attrs, n);
      MemoryIs(n, t[k].pair);
      var x := Off(t, n);
      TotalIs(u, n.pending, x);
      MoveInXor(n.pending, x);
      PersistedParts(n.pending);
      ApartAfter(t, k, attrs, n);
      if MoveIn(x) == ZERO {
        CleanParts(u, After(n, t[k].pair));
        MountedState(u);
        MoveIsThere(Mounted(u), RecordedId(r), t[r.from].pair);
        DemoveIs(u, Mounted(u), r.from);
        SamePerformed(u, r.from, [], Memory(Mounted(u), ZERO), Memory(n.pending, ZERO));
      }
    }
  }

  // What is stored, from how far it is off what is wanted.
  lemma TotalIs(u: seq<Mdir>, g: G, x: G)
    requires Off(u, Memory(g, ZERO)) == x
    ensures Total(Dirs(u)) == Xor(Persisted(g), x)
  {
    hide *;
    OffIs(u, Memory(g, ZERO));
    GapIsXor(Dirs(u), g);
    XorFlip(Persisted(g), Total(Dirs(u)));
    XorFlip(Persisted(g), x);
    Twice(Total(Dirs(u)), Persisted(g));
  }

  lemma GapIsXor(s: seq<Dir>, g: G)
    ensures Gap(s, g, ZERO) == Xor(Persisted(g), Total(s))
  {
    hide Xor, Persisted, Total;
    XorSelf(Total(s));
  }

  lemma MoveInXor(g: G, x: G)
    ensures MoveIn(Xor(Persisted(g), x)) == Xor(MoveIn(g), MoveIn(x))
    ensures MoveIn(Xor(Persisted(g), x)) == MoveIn(g) <==> MoveIn(x) == ZERO
  {
    PersistedParts(g);
    MoveOfXor(Persisted(g), x);
    hide *;
    OffTwice(MoveIn(g), MoveIn(x));
  }

  lemma MoveOfXor(g: G, x: G)
    ensures MoveIn(Xor(g, x)) == Xor(MoveIn(g), MoveIn(x))
  {
    hide Words.And, Words.Xor;
    Words.AndXor(g.tag, x.tag, 0x7fff_fc00);
  }

  // ---- one place -------------------------------------------------------------------------------------

  // How many entries of a directory have the struct f.
  function Copies(s: seq<Entry>, f: Write): nat {
    if s == [] then 0 else Copies(s[..|s| - 1], f) + if Latest(s[|s| - 1], TYPE_STRUCT) == Some(f) then 1 else 0
  }

  function CopiesOn(t: seq<Mdir>, f: Write): nat {
    if t == [] then 0 else CopiesOn(t[..|t| - 1], f) + Copies(Replay(t[|t| - 1].log), f)
  }

  function Has(e: Entry, f: Write): nat {
    if Latest(e, TYPE_STRUCT) == Some(f) then 1 else 0
  }

  lemma {:induction false} CopiesConcat(s: seq<Entry>, t: seq<Entry>, f: Write)
    ensures Copies(s + t, f) == Copies(s, f) + Copies(t, f)
    decreases |t|
  {
    hide Latest;
    if t == [] {
      assert s + t == s;
    } else {
      assert (s + t)[..|s + t| - 1] == s + t[..|t| - 1];
      CopiesConcat(s, t[..|t| - 1], f);
    }
  }

  lemma CopiesOne(e: Entry, f: Write)
    ensures Copies([e], f) == Has(e, f)
  {
    hide Latest;
    assert [e][..0] == [];
  }

  lemma CopiesInsert(s: seq<Entry>, i: nat, e: Entry, f: Write)
    requires i <= |s|
    ensures Copies(Insert(s, i, e), f) == Copies(s, f) + Has(e, f)
  {
    hide Copies, Has;
    CopiesConcat(s[..i] + [e], s[i..], f);
    CopiesConcat(s[..i], [e], f);
    CopiesConcat(s[..i], s[i..], f);
    CopiesOne(e, f);
    assert s[..i] + s[i..] == s;
  }

  lemma CopiesRemove(s: seq<Entry>, i: nat, f: Write)
    requires i < |s|
    ensures |Remove(s, i)| == |s| - 1 && Copies(Remove(s, i), f) + Has(s[i], f) == Copies(s, f)
  {
    hide Copies, Has;
    CopiesInsert(Remove(s, i), i, s[i], f);
    assert Insert(Remove(s, i), i, s[i]) == s;
  }

  lemma {:induction false} CopiesUpdate(t: seq<Mdir>, k: nat, d: Mdir, f: Write)
    requires k < |t|
    ensures CopiesOn(t[k := d], f) + Copies(Replay(t[k].log), f) == CopiesOn(t, f) + Copies(Replay(d.log), f)
    decreases |t|
  {
    hide Copies, Replay;
    var init := t[..|t| - 1];
    if k == |t| - 1 {
      assert t[k := d][..k] == init;
    } else {
      assert t[k := d][..|t| - 1] == init[k := d];
      CopiesUpdate(init, k, d, f);
    }
  }

  lemma {:induction false} CopiesOnConcat(t: seq<Mdir>, u: seq<Mdir>, f: Write)
    ensures CopiesOn(t + u, f) == CopiesOn(t, f) + CopiesOn(u, f)
    decreases |u|
  {
    hide Copies, Replay;
    if u == [] {
      assert t + u == t;
    } else {
      assert (t + u)[..|t + u| - 1] == t + u[..|u| - 1];
      CopiesOnConcat(t, u[..|u| - 1], f);
    }
  }

  lemma CopiesOnOne(d: Mdir, f: Write)
    ensures CopiesOn([d], f) == Copies(Replay(d.log), f)
  {
    hide Copies, Replay;
    assert [d][..0] == [];
  }

  lemma CopiesRemoved(t: seq<Mdir>, k: nat, f: Write)
    requires k < |t|
    ensures CopiesOn(t[..k] + t[k + 1..], f) + Copies(Replay(t[k].log), f) == CopiesOn(t, f)
  {
    hide *;
    PartsAt(t, k);
    CopiesOnConcat(t[..k], [t[k]] + t[k + 1..], f);
    CopiesOnConcat([t[k]], t[k + 1..], f);
    CopiesOnConcat(t[..k], t[k + 1..], f);
    CopiesOnOne(t[k], f);
  }

  // Dropping a pair takes away what its log has.
  lemma CopiesDropped(t: seq<Mdir>, p: nat, m: Memory, f: Write)
    requires p + 1 < |t| && !HasMoveHere(m.pending, t[p].pair)
    ensures CopiesOn(FileSystem.Dropped(t, p, m), f) + Copies(Replay(t[p + 1].log), f) == CopiesOn(t, f)
  {
    hide *;
    var attrs, n := [Split.TailItem(TailFound(t[p + 1].log))], Inherited(t, p, m);
    var u := Committed(t, p, attrs, n);
    DroppedIs(t, p, m);
    DroppedEntries(t, p, m);
    CommittedIs(t, p, attrs, n);
    CopiesRemoved(u, p + 1, f);
    CopiesUpdate(t, p, u[p], f);
  }

  lemma {:induction false} NoneCopied(s: seq<Entry>, f: Write)
    requires s == []
    ensures Copies(s, f) == 0
  {
  }

  // Whatever its contents, and whoever else has the same: recovered from a crash at any
  // point, the device has as many entries with the contents of the moved file as before,
  // less the one that has been replaced, if that has them too. In between it has one more.
  lemma OnePlace(t: seq<Mdir>, m: Memory, r: Plan, n: nat, f: Write)
    requires Ready(t, m, r) && r.from != r.to
    ensures r.from < |t| && r.to < |t| && r.oldid < |Replay(t[r.from].log)|
    ensures r.replaced ==> r.newid < |Replay(t[r.to].log)|
    ensures var gone := if r.replaced && n > 0 then Has(Replay(t[r.to].log)[r.newid], f) else 0;
            CopiesOn(Recovered(States(t, m, r, n)), f) + gone == CopiesOn(t, f)
    ensures var gone := if r.replaced then Has(Replay(t[r.to].log)[r.newid], f) else 0;
            CopiesOn(States(t, m, r, 1), f) + gone == CopiesOn(t, f) + Has(Replay(t[r.from].log)[r.oldid], f)
  {
    hide *;
    ReadyParts(t, m, r);
    StatesAre(t, m, r);
    RenameIsAtomic(t, m, r, n);
    FirstCommit(t, m, r);
    StructIsContent();
    MovedEntryIsOld(t, m, r, TYPE_STRUCT);
    var u := States(t, m, r, 1);
    var s, e := Replay(t[r.to].log), MovedEntry(t, r);
    HasSame(e, Replay(t[r.from].log)[r.oldid], f);
    if r.replaced {
      CopiesRemove(s, r.newid, f);
    }
    CopiesInsert(if r.replaced then Remove(s, r.newid) else s, r.newid, e, f);
    CopiesUpdate(t, r.to, u[r.to], f);
    assert t[r.to := u[r.to]] == u;
    SecondCopies(t, m, r, f);
  }

  // The second commit takes one copy away, with or without its pair.
  lemma SecondCopies(t: seq<Mdir>, m: Memory, r: Plan, f: Write)
    requires Ready(t, m, r) && r.from != r.to
    ensures r.from < |t| && r.to < |t| && r.oldid < |Replay(t[r.from].log)|
    ensures CopiesOn(States(t, m, r, 2), f) + Has(Replay(t[r.from].log)[r.oldid], f) == CopiesOn(States(t, m, r, 1), f)
  {
    hide *;
    ReadyParts(t, m, r);
    StatesAre(t, m, r);
    Memories(t, m, r);
    Prepared(t, m, r);
    SecondEmpties(t, m, r);
    OldEntryGone(t, m, r);
    DroppingIs(t, r);
    var u, v, n := States(t, m, r, 1), States(t, m, r, 2), Midway(t, m, r);
    var old' := Replay(t[r.from].log);
    PerformedIs(u, r.from, [], n);
    CopiesRemove(old', r.oldid, f);
    if Dropping(t, r) {
      CopiesDropped(u, r.from - 1, Memory(n.pending, Unmoved(n, u[r.from].pair)), f);
      NoneCopied(Remove(old', r.oldid), f);
    } else {
      CommittedIs(u, r.from, [], n);
      CopiesUpdate(u, r.from, v[r.from], f);
    }
  }

  lemma OldEntryGone(t: seq<Mdir>, m: Memory, r: Plan)
    requires Ready(t, m, r) && r.from != r.to
    ensures r.from < |t| && r.to < |t| && r.oldid < |Replay(t[r.from].log)|
    ensures var v, s := States(t, m, r, 2), Remove(Replay(t[r.from].log), r.oldid);
            if Dropping(t, r) then s == [] else r.from < |v| && Replay(v[r.from].log) == s
  {
    hide *;
    ReadyParts(t, m, r);
    SecondState(t, m, r);
    DroppingIs(t, r);
    DeleteReplays(t[r.from].log, r.oldid);
    DeleteIs(Replay(t[r.from].log), r.oldid);
  }

  lemma StructIsContent()
    ensures TYPE_STRUCT >= 0 && IsContent(TYPE_STRUCT)
  {
  }

  lemma HasSame(e: Entry, g: Entry, f: Write)
    requires Latest(e, TYPE_STRUCT) == Latest(g, TYPE_STRUCT)
    ensures Has(e, f) == Has(g, f)
  {
    hide Latest;
  }
}
