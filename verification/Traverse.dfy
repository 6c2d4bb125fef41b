// lfs_dir_traverse: one pass over a directory and the attributes about to be committed,
// emitting what is not made redundant by something later.
module Traverse {
  import opened Wrappers
  import opened Tags
  import opened Log
  import opened Compaction

  // ---- attribute lists -------------------------------------------------------------------

  datatype UserAttr = UserAttr(kind: nat, data: seq<byte>)

  // What can stand in an attribute list: a plain attribute, nothing, all the attributes
  // of an entry of another directory, or a list of user attributes.
  datatype Attr =
    | Plain(item: Item)
    | Noop
    | Move(id: nat, fromid: nat, source: seq<Item>)
    | UserAttrs(id: nat, list: seq<UserAttr>)
  {
    function Tag(): RawTag {
      match this
      case Plain(x) => x.tag
      case Noop => RawTag.Tag(0, 0, 0)
      case Move(id, fromid, _) => RawTag.Tag(FROM_MOVE, id, fromid)
      case UserAttrs(id, list) => RawTag.Tag(FROM_USERATTRS, id, |list|)
    }

    predicate IsSpecial() {
      Move? || UserAttrs?
    }

    // A moved directory is on disk, where every commit ends with a checksum tag; sizes
    // of user attributes are at most 1022, which leaves 1023 for delete markers.
    predicate Legal() {
      match this
      case Plain(_) => true
      case Noop => true
      case Move(_, fromid, source) =>
        fromid < NO_ID && source != [] && TYPE_CRC <= source[|source| - 1].tag.type3 < TYPE_TAIL
      case UserAttrs(_, list) =>
        |list| < DELETED_SIZE && forall i :: 0 <= i < |list| ==> list[i].kind < 0x100 && |list[i].data| < DELETED_SIZE
    }
  }

  function Singles(log: seq<Item>): (r: seq<seq<Item>>)
    ensures |r| == |log| && forall i :: 0 <= i < |r| ==> r[i] == [log[i]]
  {
    seq(|log|, i requires 0 <= i < |log| => [log[i]])
  }

  // A traversal either takes every attribute of an entry or only structs and user attributes.
  predicate Selected(type3: nat, onlyStructs: bool) {
    if onlyStructs then TYPE_STRUCT <= type3 < TYPE_SPLICE else type3 < TYPE_SPLICE
  }

  function Select(xs: seq<Item>, onlyStructs: bool): seq<Item> {
    if xs == [] then []
    else
      Select(xs[..|xs| - 1], onlyStructs)
      + if Selected(xs[|xs| - 1].tag.type3, onlyStructs) then [xs[|xs| - 1]] else []
  }

  // The newest structs and user attributes of entry fromid, as attributes of entry id.
  function Moved(source: seq<Item>, fromid: nat, id: nat): seq<Item> {
    Window(Select(KeptOf(Singles(source)), true), fromid, fromid + 1, id)
  }

  function UserItem(id: nat, a: UserAttr): Item
    requires a.kind < 0x100
  {
    Item(RawTag.Tag(TYPE_USERATTR + a.kind, id, |a.data|), a.data)
  }

  function UserItems(id: nat, list: seq<UserAttr>): (r: seq<Item>)
    requires forall i :: 0 <= i < |list| ==> list[i].kind < 0x100
    ensures |r| == |list| && forall i :: 0 <= i < |r| ==> r[i] == UserItem(id, list[i])
  {
    seq(|list|, i requires 0 <= i < |list| => UserItem(id, list[i]))
  }

  // The attributes that an element stands for when its entry has the given id.
  function ExpandAt(a: Attr, id: nat): seq<Item>
    requires a.Legal()
  {
    match a
    case Plain(x) => [x.At(id)]
    case Noop => []
    case Move(_, fromid, source) => Moved(source, fromid, id)
    case UserAttrs(_, list) => UserItems(id, list)
  }

  function Expand(a: Attr): seq<Item>
    requires a.Legal()
  {
    ExpandAt(a, a.Tag().id)
  }

  predicate Legal(stream: seq<Attr>) {
    forall i :: 0 <= i < |stream| ==> stream[i].Legal()
  }

  function Groups(stream: seq<Attr>): (r: seq<seq<Item>>)
    requires Legal(stream)
    ensures |r| == |stream| && forall i :: 0 <= i < |r| ==> r[i] == Expand(stream[i])
  {
    seq(|stream|, i requires 0 <= i < |stream| => Expand(stream[i]))
  }

  predicate Quiet(xs: seq<Item>) {
    forall i :: 0 <= i < |xs| ==> !xs[i].IsAttr()
  }

  // A move or a list of user attributes comes last in its attribute list: only splices
  // and directory-wide attributes follow it.
  ghost predicate SpecialsLast(stream: seq<Attr>)
    requires Legal(stream)
  {
    forall i, j :: 0 <= i < j < |stream| && stream[i].IsSpecial() ==> Quiet(Expand(stream[j]))
  }

  predicate ContainsMove(stream: seq<Attr>) {
    exists i :: 0 <= i < |stream| && stream[i].Move?
  }

  function OnDisk(log: seq<Item>): (r: seq<Attr>)
    ensures |r| == |log| && forall i :: 0 <= i < |r| ==> r[i] == Plain(log[i])
    ensures Legal(r) && SpecialsLast(r) && !ContainsMove(r)
  {
    seq(|log|, i requires 0 <= i < |log| => Plain(log[i]))
  }

  lemma OnDiskGroups(log: seq<Item>)
    ensures Groups(OnDisk(log)) == Singles(log)
  {
    forall i | 0 <= i < |log|
      ensures Groups(OnDisk(log))[i] == Singles(log)[i]
    {
      assert log[i].At(log[i].tag.id) == log[i];
    }
  }

  lemma {:induction false} FlatSingles(log: seq<Item>)
    ensures Flat(Singles(log)) == log && forall i :: 0 <= i < |log| ==> GroupOk(Singles(log)[i])
    decreases |log|
  {
    if log != [] {
      var init := log[..|log| - 1];
      FlatSingles(init);
      assert Singles(log)[..|log| - 1] == Singles(init);
      assert log == init + [log[|log| - 1]];
    }
  }

  // ---- moved attributes are plain writes -----------------------------------------------------

  predicate NoMarkers(xs: seq<Item>) {
    forall i :: 0 <= i < |xs| ==> !xs[i].tag.IsDelete()
  }

  lemma {:induction false} SurvivorsAfterAny(kept: seq<Item>, x: Item)
    ensures NoMarkers(Survivors(kept, [x]))
    decreases |kept|
  {
    if kept != [] {
      SurvivorsAfterAny(kept[..|kept| - 1], x);
      SurvivorOne(kept[|kept| - 1], x);
    }
  }

  // Structs and user attributes, none of them a delete marker.
  predicate PlainWrites(xs: seq<Item>) {
    forall i :: 0 <= i < |xs| ==> xs[i].IsAttr() && !xs[i].IsName() && !xs[i].tag.IsDelete()
  }

  lemma {:induction false} WindowOfSelected(kept: seq<Item>, begin: nat, end: nat, to: nat)
    requires NoMarkers(kept)
    ensures PlainWrites(Window(Select(kept, true), begin, end, to))
    decreases |kept|
  {
    if kept != [] {
      var init, x := kept[..|kept| - 1], kept[|kept| - 1];
      assert forall i :: 0 <= i < |init| ==> init[i] == kept[i];
      WindowOfSelected(init, begin, end, to);
      var w := Window(Select(init, true), begin, end, to);
      if Selected(x.tag.type3, true) {
        SnocPrefix(Select(init, true), x);
        assert Select(kept, true) == Select(init, true) + [x];
        if begin <= x.tag.id < end {
          assert Window(Select(kept, true), begin, end, to) == w + [x.At(x.tag.id - begin + to)];
        } else {
          assert Window(Select(kept, true), begin, end, to) == w;
        }
      } else {
        assert Select(kept, true) == Select(init, true);
      }
    }
  }

  lemma SpecialIsPlain(a: Attr, id: nat)
    requires a.Legal() && a.IsSpecial()
    ensures PlainWrites(ExpandAt(a, id))
  {
    match a
    case UserAttrs(_, _) =>
    case Move(_, fromid, source) =>
      assert !source[|source| - 1].IsAttr();
      SealedHasNoMarkers(source);
      WindowOfSelected(KeptOf(Singles(source)), fromid, fromid + 1, id);
  }

  // On disk a checksum tag follows every attribute, so no delete marker survives.
  lemma SealedHasNoMarkers(source: seq<Item>)
    requires source != [] && !source[|source| - 1].IsAttr()
    ensures NoMarkers(KeptOf(Singles(source)))
  {
    var gs, last := Singles(source), source[|source| - 1];
    assert gs[|gs| - 1] == [last];
    assert Attrs([last]) == [] by { assert [last][..0] == []; }
    var older := KeptOf(gs[..|gs| - 1]);
    assert KeptOf(gs) == Survivors(older, [last]) + [] == Survivors(older, [last]);
    hide KeptOf, Survivors;
    SurvivorsAfterAny(older, last);
  }

  lemma GroupsOk(stream: seq<Attr>)
    requires Legal(stream)
    ensures forall i :: 0 <= i < |stream| ==> GroupOk(Groups(stream)[i])
  {
    forall i | 0 <= i < |stream|
      ensures GroupOk(Groups(stream)[i])
    {
      if stream[i].IsSpecial() {
        SpecialIsPlain(stream[i], stream[i].Tag().id);
      }
    }
  }

  // ---- scanning later attributes ----------------------------------------------------------------

  // Everything from position k of a stream on, as plain attributes.
  function Rest(groups: seq<seq<Item>>, k: nat): seq<Item>
    requires k <= |groups|
    decreases |groups| - k
  {
    if k == |groups| then [] else groups[k] + Rest(groups, k + 1)
  }

  lemma TagFateSnoc(t: RawTag, xs: seq<Item>, x: Item)
    ensures TagFate(t, xs + [x])
         == match TagFate(t, xs) { case Dropped => Dropped case Kept(id) => Against(x, t.(id := id)) }
  {
    TagFateConcat(t, xs, [x]);
    match TagFate(t, xs)
    case Dropped =>
    case Kept(id) =>
      assert [x][0] == x && [x][1..] == [];
      match Against(x, t.(id := id))
      case Dropped =>
      case Kept(to) =>
        assert TagFate(t.(id := to), []) == Kept(to);
  }

  // What has been emitted once the first k elements have been dealt with.
  function UpTo(groups: seq<seq<Item>>, k: nat, onlyStructs: bool, begin: nat, end: nat, to: nat): seq<Item>
    requires k <= |groups|
  {
    Window(Select(Survivors(KeptOf(groups[..k]), Rest(groups, k)), onlyStructs), begin, end, to)
  }

  lemma UpToEnds(groups: seq<seq<Item>>, onlyStructs: bool, begin: nat, end: nat, to: nat)
    ensures UpTo(groups, 0, onlyStructs, begin, end, to) == []
    ensures UpTo(groups, |groups|, onlyStructs, begin, end, to)
            == Window(Select(KeptOf(groups), onlyStructs), begin, end, to)
  {
    SurvivorsOfNothing(KeptOf(groups));
    assert groups[..|groups|] == groups;
  }

  // What one element emits.
  function Emission(a: Attr, later: seq<Item>, onlyStructs: bool, begin: nat, end: nat, to: nat): seq<Item>
    requires a.Legal()
  {
    if !Selected(a.Tag().type3, onlyStructs) then []
    else
      match TagFate(a.Tag(), later)
      case Dropped => []
      case Kept(id) => if begin <= id < end then ExpandAt(a, id - begin + to) else []
  }

  lemma SelectSnoc(init: seq<Item>, x: Item, onlyStructs: bool)
    ensures Select(init + [x], onlyStructs)
         == if Selected(x.tag.type3, onlyStructs) then Select(init, onlyStructs) + [x] else Select(init, onlyStructs)
  {
    SnocPrefix(init, x);
  }

  lemma {:induction false} SelectConcat(a: seq<Item>, b: seq<Item>, onlyStructs: bool)
    ensures Select(a + b, onlyStructs) == Select(a, onlyStructs) + Select(b, onlyStructs)
    decreases |b|
  {
    if b == [] {
      assert a + b == a;
    } else {
      hide *;
      var init, x := b[..|b| - 1], b[|b| - 1];
      assert b == init + [x] && a + b == (a + init) + [x];
      SelectConcat(a, init, onlyStructs);
      SelectSnoc(init, x, onlyStructs);
      SelectSnoc(a + init, x, onlyStructs);
    }
  }

  function Emitted(g: seq<Item>, later: seq<Item>, onlyStructs: bool, begin: nat, end: nat, to: nat): seq<Item> {
    Window(Select(Survivors(Attrs(g), later), onlyStructs), begin, end, to)
  }

  lemma KeptStep(groups: seq<seq<Item>>, k: nat)
    requires k < |groups|
    ensures KeptOf(groups[..k + 1]) == Survivors(KeptOf(groups[..k]), groups[k]) + Attrs(groups[k])
    ensures Rest(groups, k) == groups[k] + Rest(groups, k + 1)
  {
    hide Survivors, Attrs;
    assert groups[..k + 1][..k] == groups[..k];
  }

  // The same from values.
  lemma EmittedNext(kept: seq<Item>, g: seq<Item>, later: seq<Item>, onlyStructs: bool, begin: nat, end: nat, to: nat)
    ensures Window(Select(Survivors(Survivors(kept, g) + Attrs(g), later), onlyStructs), begin, end, to)
         == Window(Select(Survivors(kept, g + later), onlyStructs), begin, end, to)
            + Emitted(g, later, onlyStructs, begin, end, to)
  {
    hide Survivors, Select, Window, Attrs;
    SurvivorsConcat(Survivors(kept, g), Attrs(g), later);
    SurvivorsTwice(kept, g, later);
    var a, b := Survivors(kept, g + later), Survivors(Attrs(g), later);
    SelectConcat(a, b, onlyStructs);
    WindowConcat(Select(a, onlyStructs), Select(b, onlyStructs), begin, end, to);
  }

  lemma UpToStep(groups: seq<seq<Item>>, k: nat, onlyStructs: bool, begin: nat, end: nat, to: nat)
    requires k < |groups|
    ensures UpTo(groups, k + 1, onlyStructs, begin, end, to)
         == UpTo(groups, k, onlyStructs, begin, end, to)
            + Emitted(groups[k], Rest(groups, k + 1), onlyStructs, begin, end, to)
  {
    hide KeptOf, Survivors, Select, Window, Attrs, Rest, Emitted;
    KeptStep(groups, k);
    EmittedNext(KeptOf(groups[..k]), groups[k], Rest(groups, k + 1), onlyStructs, begin, end, to);
  }

  // Splices and directory-wide attributes treat all plain writes of an entry alike.
  lemma {:induction false} QuietFate(t: RawTag, u: RawTag, later: seq<Item>)
    requires Quiet(later) && t.id == u.id && t.type3 < TYPE_SPLICE && u.type3 < TYPE_SPLICE
    requires !t.IsDelete() && !u.IsDelete()
    ensures TagFate(t, later) == TagFate(u, later)
    decreases |later|
  {
    if later != [] {
      match Against(later[0], t)
      case Dropped =>
      case Kept(id) =>
        QuietFate(t.(id := id), u.(id := id), later[1..]);
    }
  }

  function AllAt(g: seq<Item>, id: nat): (r: seq<Item>)
    ensures |r| == |g| && forall i :: 0 <= i < |g| ==> r[i] == g[i].At(id)
  {
    seq(|g|, i requires 0 <= i < |g| => g[i].At(id))
  }

  predicate AllHaveId(g: seq<Item>, id: nat) {
    forall i :: 0 <= i < |g| ==> g[i].tag.id == id
  }

  lemma {:induction false} WindowAt(kept: seq<Item>, fromid: nat, id: nat, id': nat)
    ensures Window(kept, fromid, fromid + 1, id') == AllAt(Window(kept, fromid, fromid + 1, id), id')
    ensures AllHaveId(Window(kept, fromid, fromid + 1, id), id)
    decreases |kept|
  {
    hide *;
    if kept == [] {
      NothingAt(fromid, id, id');
    } else {
      var init, x := kept[..|kept| - 1], kept[|kept| - 1];
      WindowAt(init, fromid, id, id');
      assert init + [x] == kept;
      WindowSnoc(init, x, fromid, fromid + 1, id);
      WindowSnoc(init, x, fromid, fromid + 1, id');
      AllAtSnoc(Window(init, fromid, fromid + 1, id), x, id, id');
    }
  }

  lemma NothingAt(fromid: nat, id: nat, id': nat)
    ensures Window([], fromid, fromid + 1, id') == AllAt(Window([], fromid, fromid + 1, id), id')
    ensures AllHaveId(Window([], fromid, fromid + 1, id), id)
  {
    assert Window([], fromid, fromid + 1, id) == Window([], fromid, fromid + 1, id') == [];
  }

  lemma AllAtSnoc(g: seq<Item>, x: Item, id: nat, id': nat)
    ensures AllAt(g + [x.At(id)], id') == AllAt(g, id') + [x.At(id')]
    ensures AllHaveId(g, id) ==> AllHaveId(g + [x.At(id)], id)
  {
  }

  lemma ExpandMoves(a: Attr, id: nat)
    requires a.Legal() && a.IsSpecial()
    ensures ExpandAt(a, id) == AllAt(Expand(a), id)
    ensures AllHaveId(Expand(a), a.Tag().id)
  {
    if a.Move? {
      WindowAt(Select(KeptOf(Singles(a.source)), true), a.fromid, a.id, id);
    }
  }

  lemma EmittedSnoc(init: seq<Item>, x: Item, later: seq<Item>, begin: nat, end: nat, to: nat)
    requires PlainWrites(init + [x])
    ensures Emitted(init + [x], later, false, begin, end, to)
         == Emitted(init, later, false, begin, end, to) + Window(Select(Survivor(x, later), false), begin, end, to)
  {
    var g := init + [x];
    assert forall i :: 0 <= i < |init| ==> init[i] == g[i];
    AttrsOfPlain(g);
    AttrsOfPlain(init);
    SnocPrefix(init, x);
    var a, b := Survivors(init, later), Survivor(x, later);
    assert Survivors(g, later) == a + b;
    hide Survivors, Survivor, Select, Window, Attrs, PlainWrites;
    SelectConcat(a, b, false);
    WindowConcat(Select(a, false), Select(b, false), begin, end, to);
  }

  // A group of plain writes to one entry: all survive with their entry, or none does.
  lemma {:induction false} GroupEmission(g: seq<Item>, t: RawTag, later: seq<Item>, begin: nat, end: nat, to: nat)
    requires PlainWrites(g) && Quiet(later) && !t.IsDelete() && t.type3 < TYPE_SPLICE
    requires AllHaveId(g, t.id)
    ensures Emitted(g, later, false, begin, end, to) == GroupFate(g, TagFate(t, later), begin, end, to)
    decreases |g|
  {
    hide Emitted, GroupFate, TagFate, Survivor, Select, Window, Quiet, PlainWrites, AllHaveId;
    if g == [] {
      EmptyEmission(later, false, begin, end, to);
      assert GroupFate([], TagFate(t, later), begin, end, to) == [] by { EmptyFate(TagFate(t, later), begin, end, to); }
    } else {
      var init, x := g[..|g| - 1], g[|g| - 1];
      assert init + [x] == g;
      PlainSnoc(init, x, t.id);
      GroupEmission(init, t, later, begin, end, to);
      QuietFate(x.tag, t, later);
      EmittedSnoc(init, x, later, begin, end, to);
      SingleEmission(x, later, false, begin, end, to);
      AttrsAreSelected(x);
      GroupFateSnoc(init, x, TagFate(t, later), begin, end, to);
    }
  }

  lemma PlainSnoc(init: seq<Item>, x: Item, id: nat)
    requires PlainWrites(init + [x]) && AllHaveId(init + [x], id)
    ensures PlainWrites(init) && AllHaveId(init, id)
    ensures x.IsAttr() && !x.tag.IsDelete() && x.tag.id == id
  {
    var g := init + [x];
    assert forall i :: 0 <= i < |init| ==> init[i] == g[i];
    assert g[|init|] == x;
  }

  function GroupFate(g: seq<Item>, fate: Fate, begin: nat, end: nat, to: nat): seq<Item> {
    match fate
    case Dropped => []
    case Kept(id) => if begin <= id < end then AllAt(g, id - begin + to) else []
  }

  lemma EmptyEmission(later: seq<Item>, onlyStructs: bool, begin: nat, end: nat, to: nat)
    ensures Emitted([], later, onlyStructs, begin, end, to) == []
  {
    assert Attrs([]) == [] && Survivors([], later) == [];
    assert Select([], onlyStructs) == [] && Window([], begin, end, to) == [];
  }

  lemma EmptyFate(fate: Fate, begin: nat, end: nat, to: nat)
    ensures GroupFate([], fate, begin, end, to) == []
  {
  }

  lemma GroupFateSnoc(init: seq<Item>, x: Item, fate: Fate, begin: nat, end: nat, to: nat)
    ensures GroupFate(init + [x], fate, begin, end, to)
         == GroupFate(init, fate, begin, end, to)
            + match fate
              case Dropped => []
              case Kept(id) => if begin <= id < end then [x.At(id - begin + to)] else []
  {
  }

  lemma AttrsAreSelected(x: Item)
    requires x.IsAttr()
    ensures Selected(x.tag.type3, false)
  {
  }

  lemma SingleEmission(x: Item, later: seq<Item>, onlyStructs: bool, begin: nat, end: nat, to: nat)
    ensures Window(Select(Survivor(x, later), onlyStructs), begin, end, to)
         == if !Selected(x.tag.type3, onlyStructs) then []
            else match TagFate(x.tag, later)
                 case Dropped => []
                 case Kept(id) => if begin <= id < end then [x.At(id - begin + to)] else []
  {
    hide TagFate, Window, Select;
    SelectNone(onlyStructs);
    WindowNone(begin, end, to);
    match TagFate(x.tag, later)
    case Dropped =>
      assert Survivor(x, later) == [];
    case Kept(id) =>
      var y := x.At(id);
      assert Survivor(x, later) == [y];
      SelectOne(y, onlyStructs);
      WindowOne(y, begin, end, to);
      if begin <= id {
        assert y.At(id - begin + to) == x.At(id - begin + to);
      }
  }

  lemma SelectNone(onlyStructs: bool)
    ensures Select([], onlyStructs) == []
  {
  }

  lemma WindowNone(begin: nat, end: nat, to: nat)
    ensures Window([], begin, end, to) == []
  {
  }

  lemma SelectOne(y: Item, onlyStructs: bool)
    ensures Select([y], onlyStructs) == if Selected(y.tag.type3, onlyStructs) then [y] else []
  {
    assert [y][..0] == [];
  }

  lemma WindowOne(y: Item, begin: nat, end: nat, to: nat)
    ensures Window([y], begin, end, to) == if begin <= y.tag.id < end then [y.At(y.tag.id - begin + to)] else []
  {
    assert [y][..0] == [];
  }

  lemma EmissionIsEmitted(a: Attr, later: seq<Item>, onlyStructs: bool, begin: nat, end: nat, to: nat)
    requires a.Legal() && (a.IsSpecial() ==> Quiet(later))
    requires onlyStructs ==> a.Plain?
    ensures Emission(a, later, onlyStructs, begin, end, to)
         == Emitted(Expand(a), later, onlyStructs, begin, end, to)
  {
    match a
    case Plain(x) =>
      PlainEmission(x, later, onlyStructs, begin, end, to);
    case Noop =>
      EmptyEmission(later, onlyStructs, begin, end, to);
    case Move(_, _, _) =>
      SpecialEmission(a, later, begin, end, to);
    case UserAttrs(_, _) =>
      SpecialEmission(a, later, begin, end, to);
  }

  lemma PlainEmission(x: Item, later: seq<Item>, onlyStructs: bool, begin: nat, end: nat, to: nat)
    ensures Emission(Plain(x), later, onlyStructs, begin, end, to)
         == Emitted(Expand(Plain(x)), later, onlyStructs, begin, end, to)
  {
    assert Expand(Plain(x)) == [x] by {
      assert x.At(x.tag.id) == x;
    }
    SingleSurvivors(x, later);
    hide Survivors, Survivor, TagFate, Select, Window, Attrs, Expand;
    if x.IsAttr() {
      SingleEmission(x, later, onlyStructs, begin, end, to);
    } else {
      EmptyEmission(later, onlyStructs, begin, end, to);
    }
  }

  lemma SingleSurvivors(x: Item, later: seq<Item>)
    ensures x.IsAttr() ==> Attrs([x]) == [x]
    ensures !x.IsAttr() ==> Attrs([x]) == Attrs([])
    ensures Survivors([x], later) == Survivor(x, later)
  {
    assert [x][..0] == [];
    assert Survivors([], later) == [];
  }

  lemma SpecialEmission(a: Attr, later: seq<Item>, begin: nat, end: nat, to: nat)
    requires a.Legal() && a.IsSpecial() && Quiet(later)
    ensures Emission(a, later, false, begin, end, to) == Emitted(Expand(a), later, false, begin, end, to)
  {
    hide Emitted, ExpandAt;
    SpecialIsPlain(a, a.Tag().id);
    ExpandMoves(a, a.Tag().id);
    GroupEmission(Expand(a), a.Tag(), later, begin, end, to);
    match TagFate(a.Tag(), later)
    case Dropped =>
    case Kept(id) =>
      if begin <= id < end {
        ExpandMoves(a, id - begin + to);
      }
  }

  // Quiet elements make a quiet rest.
  lemma {:induction false} RestQuiet(stream: seq<Attr>, k: nat, from: nat)
    requires Legal(stream) && SpecialsLast(stream) && k < from <= |stream| && stream[k].IsSpecial()
    ensures Quiet(Rest(Groups(stream), from))
    decreases |stream| - from
  {
    if from < |stream| {
      hide Expand;
      RestQuiet(stream, k, from + 1);
      assert Quiet(Expand(stream[from]));
      assert Rest(Groups(stream), from) == Expand(stream[from]) + Rest(Groups(stream), from + 1);
    }
  }

  lemma NothingLater(t: RawTag)
    ensures TagFate(t, []) == Kept(t.id)
  {
  }

  // One group against one tag.
  method ScanGroup(g: seq<Item>, t: RawTag) returns (fate: Fate)
    ensures fate == TagFate(t, g)
  {
    var tag := t;
    assert g[..0] == [];
    for i := 0 to |g|
      invariant TagFate(t, g[..i]) == Kept(tag.id) && tag == t.(id := tag.id)
    {
      assert g == g[..i] + g[i..] && g[i..] == [g[i]] + g[i + 1..] && g[..i + 1] == g[..i] + [g[i]];
      TagFateSnoc(t, g[..i], g[i]);
      match Against(g[i], tag) {
        case Dropped =>
          assert g == g[..i + 1] + g[i + 1..];
          TagFateConcat(t, g[..i + 1], g[i + 1..]);
          return Dropped;
        case Kept(id) =>
          tag := tag.(id := id);
      }
    }
    assert g[..|g|] == g;
    return Kept(tag.id);
  }

  // The nested traversal with the filter as its callback: tag t against everything from
  // position k on.
  method Scan(stream: seq<Attr>, k: nat, t: RawTag) returns (fate: Fate)
    requires Legal(stream) && k <= |stream|
    ensures fate == TagFate(t, Rest(Groups(stream), k))
    decreases ContainsMove(stream), 1
  {
    hide TagFate, ExpandAt, Quiet;
    ghost var groups := Groups(stream);
    var tag, j := t, k;
    while j < |stream|
      invariant k <= j <= |stream| && tag == t.(id := tag.id)
      invariant TagFate(t, Rest(groups, k)) == TagFate(tag, Rest(groups, j))
    {
      var g := ExpandElement(stream, j, stream[j].Tag().id);
      TagFateConcat(tag, g, Rest(groups, j + 1));
      var f := ScanGroup(g, tag);
      if f.Dropped? {
        return Dropped;
      }
      tag := tag.(id := f.id);
      j := j + 1;
    }
    NothingLater(tag);
    return Kept(tag.id);
  }

  // What one element stands for; for a move, by traversing the source directory.
  method ExpandElement(stream: seq<Attr>, k: nat, id: nat) returns (g: seq<Item>)
    requires Legal(stream) && k < |stream|
    ensures g == ExpandAt(stream[k], id)
    decreases ContainsMove(stream), 0
  {
    hide Window, Select, KeptOf, SpecialsLast;
    match stream[k]
    case Plain(x) =>
      g := [x.At(id)];
    case Noop =>
      g := [];
    case UserAttrs(_, list) =>
      g := UserItems(id, list);
    case Move(_, fromid, source) =>
      assert ContainsMove(stream);
      g := Traversal(OnDisk(source), true, fromid, fromid + 1, id);
      OnDiskGroups(source);
  }

  // One step of the traversal.
  method EmitElement(stream: seq<Attr>, k: nat, onlyStructs: bool, begin: nat, end: nat, to: nat) returns (g: seq<Item>)
    requires Legal(stream) && SpecialsLast(stream) && k < |stream|
    requires onlyStructs ==> stream[k].Plain?
    ensures g == Emitted(Groups(stream)[k], Rest(Groups(stream), k + 1), onlyStructs, begin, end, to)
    decreases ContainsMove(stream), 2
  {
    hide Rest, TagFate, ExpandAt, Quiet, Emitted;
    var a := stream[k];
    g := [];
    if Selected(a.Tag().type3, onlyStructs) {
      // scan for duplicates and update the id across creates and deletes
      var fate := Scan(stream, k + 1, a.Tag());
      if fate.Kept? && begin <= fate.id < end {
        g := ExpandElement(stream, k, fate.id - begin + to);
      }
    }
    assert g == Emission(a, Rest(Groups(stream), k + 1), onlyStructs, begin, end, to);
    if a.IsSpecial() {
      RestQuiet(stream, k, k + 1);
    }
    EmissionIsEmitted(a, Rest(Groups(stream), k + 1), onlyStructs, begin, end, to);
  }

  // lfs_dir_traverse. The stream is the log on disk, then the attribute list, then the
  // deletion of a pending move out of this directory.
  method Traversal(stream: seq<Attr>, onlyStructs: bool, begin: nat, end: nat, to: nat) returns (out: seq<Item>)
    requires Legal(stream) && SpecialsLast(stream)
    requires onlyStructs ==> !ContainsMove(stream) && forall i :: 0 <= i < |stream| ==> stream[i].Plain?
    ensures out == Window(Select(KeptOf(Groups(stream)), onlyStructs), begin, end, to)
    decreases ContainsMove(stream), 3
  {
    out := [];
    ghost var groups := Groups(stream);
    UpToEnds(groups, onlyStructs, begin, end, to);
    hide UpTo, Rest, ExpandAt, Emitted, Survivors, KeptOf, Select, Window, TagFate;
    for k := 0 to |stream|
      invariant out == UpTo(groups, k, onlyStructs, begin, end, to)
    {
      var g := EmitElement(stream, k, onlyStructs, begin, end, to);
      UpToStep(groups, k, onlyStructs, begin, end, to);
      out := out + g;
    }
  }
}
