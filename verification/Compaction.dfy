// Which attributes survive a compaction (lfs_dir_traverse and its filter), and why
// replaying the survivors gives back the same directory.
module Compaction {
  import opened Wrappers
  import opened Tags
  import opened Log

  // ---- the filter ----------------------------------------------------------------------

  datatype Fate = Dropped | Kept(id: nat)

  // Types with the 0x100 bit are compared in full, the others by their 3-bit type.
  predicate FullyCompared(type3: nat) {
    Kind(type3) == TYPE_FROM || Kind(type3) == TYPE_USERATTR || Kind(type3) == TYPE_CRC || Kind(type3) == TYPE_GLOBALS
  }

  predicate SameKey(later: nat, earlier: nat) {
    if FullyCompared(later) then later == earlier else Kind(later) == Kind(earlier)
  }

  lemma SameKeyIsKey(later: nat, earlier: nat)
    ensures SameKey(later, earlier) <==> Key(later) == Key(earlier)
  {
  }

  // lfs_dir_traverse_filter: what a later attribute does to an earlier tag.
  function Against(later: Item, t: RawTag): Fate {
    if (SameKey(later.tag.type3, t.type3) && later.tag.id == t.id)
       || t.IsDelete()
       || (later.tag.type3 == TYPE_DELETE && later.tag.id == t.id) then Dropped
    else if later.IsSplice() && later.tag.id <= t.id then Kept(t.id + later.Shift())
    else Kept(t.id)
  }

  function TagFate(t: RawTag, later: seq<Item>): Fate
    decreases |later|
  {
    if later == [] then Kept(t.id)
    else
      match Against(later[0], t)
      case Dropped => Dropped
      case Kept(id) => TagFate(t.(id := id), later[1..])
  }

  function Survivor(x: Item, later: seq<Item>): seq<Item> {
    match TagFate(x.tag, later)
    case Dropped => []
    case Kept(id) => [x.At(id)]
  }

  function Survivors(xs: seq<Item>, later: seq<Item>): seq<Item> {
    if xs == [] then []
    else Survivors(xs[..|xs| - 1], later) + Survivor(xs[|xs| - 1], later)
  }

  function Attrs(xs: seq<Item>): seq<Item> {
    if xs == [] then []
    else Attrs(xs[..|xs| - 1]) + if xs[|xs| - 1].IsAttr() then [xs[|xs| - 1]] else []
  }

  // Attributes come in groups: one attribute each, except that a move or a list of user
  // attributes stands for several, which are not filtered against each other.
  function Flat(groups: seq<seq<Item>>): seq<Item> {
    if groups == [] then [] else Flat(groups[..|groups| - 1]) + groups[|groups| - 1]
  }

  function KeptOf(groups: seq<seq<Item>>): seq<Item> {
    if groups == [] then []
    else
      var g := groups[|groups| - 1];
      Survivors(KeptOf(groups[..|groups| - 1]), g) + Attrs(g)
  }

  // ---- filtering in steps ----------------------------------------------------------------

  lemma {:induction false} TagFateConcat(t: RawTag, xs: seq<Item>, ys: seq<Item>)
    ensures TagFate(t, xs + ys)
         == match TagFate(t, xs) { case Dropped => Dropped case Kept(id) => TagFate(t.(id := id), ys) }
    decreases |xs|
  {
    if xs == [] {
      assert xs + ys == ys;
      assert t.(id := t.id) == t;
    } else {
      assert (xs + ys)[1..] == xs[1..] + ys;
      match Against(xs[0], t)
      case Dropped =>
      case Kept(id) =>
        TagFateConcat(t.(id := id), xs[1..], ys);
    }
  }

  lemma {:induction false} SurvivorsConcat(a: seq<Item>, b: seq<Item>, later: seq<Item>)
    ensures Survivors(a + b, later) == Survivors(a, later) + Survivors(b, later)
    decreases |b|
  {
    if b == [] {
      assert a + b == a;
    } else {
      var init, x := b[..|b| - 1], b[|b| - 1];
      assert (a + b)[..|a + b| - 1] == a + init;
      SurvivorsConcat(a, init, later);
    }
  }

  lemma {:induction false} SurvivorsTwice(a: seq<Item>, xs: seq<Item>, ys: seq<Item>)
    ensures Survivors(Survivors(a, xs), ys) == Survivors(a, xs + ys)
    decreases |a|
  {
    if a != [] {
      var init, x := a[..|a| - 1], a[|a| - 1];
      SurvivorsTwice(init, xs, ys);
      TagFateConcat(x.tag, xs, ys);
      SurvivorsConcat(Survivors(init, xs), Survivor(x, xs), ys);
      match TagFate(x.tag, xs)
      case Dropped =>
      case Kept(id) =>
        var one := [x.At(id)];
        assert one[..0] == [];
        assert Survivors(one, ys) == Survivor(x.At(id), ys);
    }
  }

  lemma {:induction false} SurvivorsOfNothing(a: seq<Item>)
    ensures Survivors(a, []) == a
    decreases |a|
  {
    if a != [] {
      SurvivorsOfNothing(a[..|a| - 1]);
    }
  }

  // ---- the view of a list of survivors ----------------------------------------------------

  // The latest value of a key of an entry, read off a list that has no splices.
  function LatestIn(kept: seq<Item>, id: nat, key: nat): Option<Write> {
    if kept == [] then None
    else
      var x := kept[|kept| - 1];
      if x.tag.id == id && Key(x.tag.type3) == key then
        if x.tag.IsDelete() then None else Some(WriteOf(x))
      else LatestIn(kept[..|kept| - 1], id, key)
  }

  predicate NoKey(kept: seq<Item>, id: nat, key: nat) {
    forall i :: 0 <= i < |kept| ==> !(kept[i].tag.id == id && Key(kept[i].tag.type3) == key)
  }

  // Only the newest survivor can be a delete marker, and then it is alone with its key.
  predicate MarkerAlone(kept: seq<Item>) {
    kept == [] ||
    var last := |kept| - 1;
    && (forall i :: 0 <= i < last ==> !kept[i].tag.IsDelete())
    && (kept[last].tag.IsDelete() ==> NoKey(kept[..last], kept[last].tag.id, Key(kept[last].tag.type3)))
  }

  // Every entry is named once, before its other attributes.
  predicate NamesFirst(kept: seq<Item>) {
    kept == [] ||
    (NamesFirst(kept[..|kept| - 1]) && NameKnown(kept[..|kept| - 1], kept[|kept| - 1]))
  }

  predicate NameKnown(init: seq<Item>, x: Item) {
    && x.IsAttr() && Kind(x.tag.type3) != TYPE_FROM
    && x.tag.id < NO_ID
    && (x.IsName() ==> !x.tag.IsDelete() && LatestIn(init, x.tag.id, TYPE_NAME) == None)
    && (!x.IsName() ==> LatestIn(init, x.tag.id, TYPE_NAME).Some?)
  }

  lemma NamesFirstSnoc(init: seq<Item>, x: Item)
    ensures NamesFirst(init + [x]) <==> NamesFirst(init) && NameKnown(init, x)
  {
    SnocPrefix(init, x);
  }

  // The survivors say the same as the entries.
  ghost predicate Agrees(kept: seq<Item>, s: seq<Entry>) {
    && NamesFirst(kept)
    && MarkerAlone(kept)
    && (forall i :: 0 <= i < |kept| ==> kept[i].tag.id < |s|)
    && (forall id, key :: 0 <= id < |s| ==> LatestIn(kept, id, key) == Latest(s[id], key))
    && (forall id :: 0 <= id < |s| ==> NameFirst(s[id]))
  }

  lemma {:induction false} NoKeyNoLatest(kept: seq<Item>, id: nat, key: nat)
    requires NoKey(kept, id, key)
    ensures LatestIn(kept, id, key) == None
    decreases |kept|
  {
    if kept != [] {
      NoKeyNoLatest(kept[..|kept| - 1], id, key);
    }
  }

  // An entry without a name has no attributes at all.
  lemma {:induction false} NamelessIsEmpty(kept: seq<Item>, id: nat)
    requires NamesFirst(kept) && LatestIn(kept, id, TYPE_NAME) == None
    ensures forall i :: 0 <= i < |kept| ==> kept[i].tag.id != id
    decreases |kept|
  {
    if kept != [] {
      var init, x := kept[..|kept| - 1], kept[|kept| - 1];
      if x.tag.id == id {
        assert false;
      }
      NamelessIsEmpty(init, id);
      assert forall i :: 0 <= i < |init| ==> kept[i] == init[i];
    }
  }

  lemma LatestInSnoc(kept: seq<Item>, x: Item, id: nat, key: nat)
    ensures LatestIn(kept + [x], id, key)
         == if x.tag.id == id && Key(x.tag.type3) == key then
              (if x.tag.IsDelete() then None else Some(WriteOf(x)))
            else LatestIn(kept, id, key)
  {
    SnocPrefix(kept, x);
  }

  // ---- one more attribute -------------------------------------------------------------------

  // The id that an entry had before the attribute x; None for a newly created entry.
  function Before(x: Item, id: nat): Option<nat> {
    if !x.IsSplice() || id < x.tag.id then Some(id)
    else if x.tag.type3 == TYPE_DELETE then Some(id + 1)
    else if id == x.tag.id then None
    else Some(id - 1)
  }

  lemma AgainstBefore(x: Item, t: RawTag, id: nat)
    requires Against(x, t) == Kept(id)
    ensures Before(x, id) == Some(t.id)
    ensures forall other :: Before(x, other) == Some(t.id) ==> other == id
  {
  }

  lemma DeletedHasNoId(x: Item, id: nat)
    requires x.tag.type3 == TYPE_DELETE
    ensures Before(x, id) != Some(x.tag.id)
  {
  }

  lemma SurvivorOne(y: Item, x: Item)
    ensures Survivor(y, [x]) == match Against(x, y.tag) { case Dropped => [] case Kept(id) => [y.At(id)] }
  {
    assert [x][0] == x && [x][1..] == [];
    match Against(x, y.tag)
    case Dropped =>
    case Kept(id) =>
      assert TagFate(y.tag.(id := id), []) == Kept(id);
  }

  lemma MarkerAlonePrefix(kept: seq<Item>)
    requires MarkerAlone(kept) && kept != []
    ensures MarkerAlone(kept[..|kept| - 1])
  {
    var init := kept[..|kept| - 1];
    assert forall i :: 0 <= i < |init| ==> init[i] == kept[i];
  }

  // Filtering by x keeps the view of every key that x does not write.
  lemma {:induction false} LatestAfter(kept: seq<Item>, x: Item, id: nat, key: nat)
    requires MarkerAlone(kept)
    requires forall i :: 0 <= i < |kept| ==> kept[i].IsAttr()
    requires !(x.IsAttr() && x.tag.id == id && Key(x.tag.type3) == key)
    ensures LatestIn(Survivors(kept, [x]), id, key)
         == match Before(x, id) { case None => None case Some(was) => LatestIn(kept, was, key) }
    decreases |kept|
  {
    if kept != [] {
      var init, y := kept[..|kept| - 1], kept[|kept| - 1];
      MarkerAlonePrefix(kept);
      assert forall i :: 0 <= i < |init| ==> init[i] == kept[i];
      LatestAfter(init, x, id, key);
      SurvivorOne(y, x);
      match Against(x, y.tag)
      case Dropped =>
        assert Survivors(kept, [x]) == Survivors(init, [x]);
        if Before(x, id) == Some(y.tag.id) && Key(y.tag.type3) == key {
          SameKeyIsKey(x.tag.type3, y.tag.type3);
          if x.tag.type3 == TYPE_DELETE && x.tag.id == y.tag.id {
            DeletedHasNoId(x, id);
          }
          assert y.tag.IsDelete();
          NoKeyNoLatest(init, y.tag.id, key);
        }
      case Kept(to) =>
        AgainstBefore(x, y.tag, to);
        LatestInSnoc(Survivors(init, [x]), y.At(to), id, key);
    }
  }

  lemma {:induction false} NamesFirstAfter(kept: seq<Item>, x: Item, s: seq<Entry>)
    requires NamesFirst(kept) && MarkerAlone(kept) && Fits(s, x)
    requires forall i :: 0 <= i < |kept| ==> kept[i].tag.id < |s| && kept[i].IsAttr()
    requires x.IsName() ==> forall i :: 0 <= i < |kept| ==> kept[i].tag.id != x.tag.id
    ensures NamesFirst(Survivors(kept, [x]))
    decreases |kept|
  {
    if kept != [] {
      var init, y := kept[..|kept| - 1], kept[|kept| - 1];
      MarkerAlonePrefix(kept);
      assert forall i :: 0 <= i < |init| ==> init[i] == kept[i];
      NamesFirstAfter(init, x, s);
      var r := Survivors(init, [x]);
      assert NameKnown(init, y);
      SurvivorOne(y, x);
      assert Survivors(kept, [x]) == r + Survivor(y, [x]);
      hide NamesFirst, MarkerAlone, Survivors, Survivor, LatestIn;
      match Against(x, y.tag)
      case Dropped =>
        assert r + [] == r;
      case Kept(to) =>
        FilteredNameKnown(init, y, x, s, to);
        NamesFirstSnoc(r, y.At(to));
    }
  }

  lemma FilteredNameKnown(init: seq<Item>, y: Item, x: Item, s: seq<Entry>, to: nat)
    requires MarkerAlone(init) && Fits(s, x) && NameKnown(init, y) && y.tag.id < |s|
    requires forall i :: 0 <= i < |init| ==> init[i].IsAttr()
    requires x.IsName() ==> y.tag.id != x.tag.id
    requires Against(x, y.tag) == Kept(to)
    ensures NameKnown(Survivors(init, [x]), y.At(to))
  {
    AgainstBefore(x, y.tag, to);
    LatestAfter(init, x, to, TYPE_NAME);
  }

  // No delete marker survives a later attribute, and what x writes is gone.
  lemma {:induction false} SurvivorsShape(kept: seq<Item>, x: Item)
    requires forall i :: 0 <= i < |kept| ==> kept[i].IsAttr()
    ensures forall i :: 0 <= i < |Survivors(kept, [x])| ==>
              var y := Survivors(kept, [x])[i];
              && !y.tag.IsDelete() && y.IsAttr()
              && exists j :: 0 <= j < |kept| && Before(x, y.tag.id) == Some(kept[j].tag.id)
    ensures x.IsAttr() ==> NoKey(Survivors(kept, [x]), x.tag.id, Key(x.tag.type3))
    decreases |kept|
  {
    if kept != [] {
      var init, y := kept[..|kept| - 1], kept[|kept| - 1];
      SurvivorsShape(init, x);
      assert forall j :: 0 <= j < |init| ==> kept[j] == init[j];
      SurvivorOne(y, x);
      SameKeyIsKey(x.tag.type3, y.tag.type3);
      match Against(x, y.tag)
      case Dropped =>
        assert Survivors(kept, [x]) == Survivors(init, [x]);
      case Kept(to) =>
        AgainstBefore(x, y.tag, to);
        assert Survivors(kept, [x]) == Survivors(init, [x]) + [y.At(to)];
        assert Before(x, to) == Some(kept[|kept| - 1].tag.id);
    }
  }

  lemma {:induction false} LatestInConcat(p: seq<Item>, q: seq<Item>, id: nat, key: nat)
    ensures LatestIn(p + q, id, key) == if NoKey(q, id, key) then LatestIn(p, id, key) else LatestIn(q, id, key)
    decreases |q|
  {
    if q == [] {
      assert p + q == p;
    } else {
      var init, y := q[..|q| - 1], q[|q| - 1];
      assert (p + q)[..|p + q| - 1] == p + init;
      LatestInConcat(p, init, id, key);
      assert NoKey(q, id, key) <==> NoKey(init, id, key) && !(y.tag.id == id && Key(y.tag.type3) == key) by {
        assert q == init + [y];
      }
    }
  }

  // Whether names come first depends only on the names of what precedes.
  lemma {:induction false} NamesFirstSwap(a: seq<Item>, a': seq<Item>, b: seq<Item>)
    requires NamesFirst(a + b) && NamesFirst(a')
    requires forall id :: LatestIn(a', id, TYPE_NAME) == LatestIn(a, id, TYPE_NAME)
    ensures NamesFirst(a' + b)
    decreases |b|
  {
    if b == [] {
      assert a' + b == a' && a + b == a;
    } else {
      var init, y := b[..|b| - 1], b[|b| - 1];
      assert a + b == a + init + [y] && a' + b == a' + init + [y];
      hide NamesFirst, LatestIn;
      NamesFirstSnoc(a + init, y);
      NamesFirstSnoc(a' + init, y);
      NamesFirstSwap(a, a', init);
      LatestInConcat(a, init, y.tag.id, TYPE_NAME);
      LatestInConcat(a', init, y.tag.id, TYPE_NAME);
    }
  }

  lemma {:induction false} NamesFirstPrefix(a: seq<Item>, b: seq<Item>)
    requires NamesFirst(a + b)
    ensures NamesFirst(a)
    decreases |b|
  {
    if b == [] {
      assert a + b == a;
    } else {
      assert (a + b)[..|a + b| - 1] == a + b[..|b| - 1];
      NamesFirstPrefix(a, b[..|b| - 1]);
    }
  }

  lemma {:induction false} NamesFirstAttrs(kept: seq<Item>)
    requires NamesFirst(kept)
    ensures forall i :: 0 <= i < |kept| ==> kept[i].IsAttr()
    decreases |kept|
  {
    if kept != [] {
      var init := kept[..|kept| - 1];
      NamesFirstAttrs(init);
      assert forall i :: 0 <= i < |init| ==> kept[i] == init[i];
    }
  }

  // What Agrees says about the first part of a list.
  lemma AgreesParts(a: seq<Item>, b: seq<Item>, s: seq<Entry>)
    requires Agrees(a + b, s)
    ensures NamesFirst(a) && MarkerAlone(a)
    ensures forall i :: 0 <= i < |a| ==> a[i].IsAttr() && a[i].tag.id < |s|
    ensures forall i :: 0 <= i < |b| ==> b[i].IsAttr() && b[i].tag.id < |s|
    ensures forall i :: 0 <= i < |b| - 1 ==> !b[i].tag.IsDelete()
    ensures b != [] ==> forall i :: 0 <= i < |a| ==> !a[i].tag.IsDelete()
  {
    var all := a + b;
    NamesFirstPrefix(a, b);
    NamesFirstAttrs(all);
    assert forall i :: 0 <= i < |a| ==> all[i] == a[i];
    assert forall i :: 0 <= i < |b| ==> all[|a| + i] == b[i];
    if b == [] {
      assert all == a;
    }
  }

  // Outside its entries a list of survivors says nothing.
  lemma AgreesOutside(kept: seq<Item>, s: seq<Entry>, id: nat, key: nat)
    requires Agrees(kept, s)
    ensures LatestIn(kept, id, key) == if id < |s| then Latest(s[id], key) else None
  {
    if id >= |s| {
      NoKeyNoLatest(kept, id, key);
    }
  }

  // Survivors of the older attributes, filtered by x, followed by attributes of the same
  // group as x that were not filtered, followed by x: first the view, then the order of
  // names, then everything together.
  lemma ViewAfterWrite(a: seq<Item>, b: seq<Item>, x: Item, s: seq<Entry>, id: nat, key: nat)
    requires Agrees(a + b, s) && Fits(s, x) && x.IsAttr()
    ensures LatestIn(Survivors(a, [x]) + b + [x], id, key)
         == if id < |Apply(s, x)| then Latest(Apply(s, x)[id], key) else None
  {
    AgreesParts(a, b, s);
    AgreesOutside(a + b, s, id, key);
    LatestInSnoc(Survivors(a, [x]) + b, x, id, key);
    ApplyWrite(s, x);
    var h := if x.tag.id < |s| then s[x.tag.id] else [];
    SnocPrefix(h, WriteOf(x));
    if !(x.tag.id == id && Key(x.tag.type3) == key) {
      LatestAfter(a, x, id, key);
      LatestInConcat(a, b, id, key);
      LatestInConcat(Survivors(a, [x]), b, id, key);
      if id != x.tag.id {
        ApplyElsewhere(s, x, id);
      }
    }
  }

  lemma NamesAfterWrite(a: seq<Item>, b: seq<Item>, x: Item, s: seq<Entry>)
    requires Agrees(a + b, s) && Fits(s, x) && x.IsAttr() && x.tag.id < NO_ID
    requires b != [] ==> !x.IsName()
    ensures NamesFirst(Survivors(a, [x]) + b + [x])
  {
    AgreesParts(a, b, s);
    var a', all := Survivors(a, [x]), a + b;
    if x.IsName() {
      assert all == a && a' + b == a';
      AgreesOutside(a, s, x.tag.id, TYPE_NAME);
      NamelessIsEmpty(a, x.tag.id);
      NamesFirstAfter(a, x, s);
      SurvivorsShape(a, x);
      NoKeyNoLatest(a', x.tag.id, TYPE_NAME);
    } else {
      NamesFirstAfter(a, x, s);
      forall id
        ensures LatestIn(a', id, TYPE_NAME) == LatestIn(a, id, TYPE_NAME)
      {
        LatestAfter(a, x, id, TYPE_NAME);
      }
      NamesFirstSwap(a, a', b);
      LatestInConcat(a, b, x.tag.id, TYPE_NAME);
      LatestInConcat(a', b, x.tag.id, TYPE_NAME);
      AgreesOutside(all, s, x.tag.id, TYPE_NAME);
      LatestName(s[x.tag.id]);
    }
    SnocPrefix(a' + b, x);
  }

  lemma StepWrite(a: seq<Item>, b: seq<Item>, x: Item, s: seq<Entry>)
    requires Agrees(a + b, s) && Fits(s, x) && x.IsAttr() && |s| <= NO_ID
    requires b != [] ==> !x.IsName() && !x.tag.IsDelete() && !b[|b| - 1].tag.IsDelete()
    ensures Agrees(Survivors(a, [x]) + b + [x], Apply(s, x))
  {
    var a', s' := Survivors(a, [x]), Apply(s, x);
    var r := a' + b + [x];
    hide Survivors, LatestIn, Latest, NamesFirst, Apply;
    AgreesParts(a, b, s);
    SurvivorsShape(a, x);
    NamesAfterWrite(a, b, x, s);
    ApplyWrite(s, x);
    assert forall i :: 0 <= i < |r| - 1 ==> !r[i].tag.IsDelete();
    assert r[..|r| - 1] == a' + b;
    assert MarkerAlone(r) by {
      if x.tag.IsDelete() {
        assert a' + b == a';
      }
    }
    forall id, key | 0 <= id < |s'|
      ensures LatestIn(r, id, key) == Latest(s'[id], key)
    {
      ViewAfterWrite(a, b, x, s, id, key);
    }
    forall id | 0 <= id < |s'|
      ensures NameFirst(s'[id])
    {
      if id != x.tag.id {
        ApplyElsewhere(s, x, id);
      }
    }
  }

  // A splice, a tail, a state record or a checksum: nothing is appended.
  lemma StepOther(a: seq<Item>, x: Item, s: seq<Entry>)
    requires Agrees(a, s) && Fits(s, x) && !x.IsAttr()
    ensures Agrees(Survivors(a, [x]), Apply(s, x))
  {
    var r, s' := Survivors(a, [x]), Apply(s, x);
    NamesFirstAttrs(a);
    NamesFirstAfter(a, x, s);
    SurvivorsShape(a, x);
    forall i | 0 <= i < |r|
      ensures r[i].tag.id < |s'|
    {
      var j :| 0 <= j < |a| && Before(x, r[i].tag.id) == Some(a[j].tag.id);
    }
    forall id, key | 0 <= id < |s'|
      ensures LatestIn(r, id, key) == Latest(s'[id], key)
    {
      LatestAfter(a, x, id, key);
      BeforeEntry(s, x, id);
    }
    forall id | 0 <= id < |s'|
      ensures NameFirst(s'[id])
    {
      BeforeEntry(s, x, id);
    }
  }

  lemma BeforeEntry(s: seq<Entry>, x: Item, id: nat)
    requires Fits(s, x) && !x.IsAttr() && id < |Apply(s, x)|
    ensures match Before(x, id)
            case None => Apply(s, x)[id] == []
            case Some(was) => was < |s| && Apply(s, x)[id] == s[was]
  {
    if x.IsSplice() && x.tag.id <= id {
      ApplySplice(s, x, id);
    } else {
      ApplyElsewhere(s, x, id);
    }
  }

  // ---- whole logs ---------------------------------------------------------------------------

  // A group of several attributes holds plain writes only.
  predicate GroupOk(g: seq<Item>) {
    |g| > 1 ==> forall i :: 0 <= i < |g| ==> g[i].IsAttr() && !g[i].IsName() && !g[i].tag.IsDelete()
  }

  lemma {:induction false} AttrsOfPlain(g: seq<Item>)
    requires forall i :: 0 <= i < |g| ==> g[i].IsAttr()
    ensures Attrs(g) == g
    decreases |g|
  {
    if g != [] {
      AttrsOfPlain(g[..|g| - 1]);
    }
  }

  lemma StepSingle(kept: seq<Item>, x: Item, s: seq<Entry>)
    requires Agrees(kept, s) && Fits(s, x) && |s| <= NO_ID
    ensures Agrees(Survivors(kept, [x]) + Attrs([x]), Apply(s, x))
  {
    assert [x][..0] == [];
    if x.IsAttr() {
      assert kept + [] == kept;
      StepWrite(kept, [], x, s);
      assert Survivors(kept, [x]) + [] + [x] == Survivors(kept, [x]) + Attrs([x]);
    } else {
      StepOther(kept, x, s);
      assert Survivors(kept, [x]) + Attrs([x]) == Survivors(kept, [x]);
    }
  }

  lemma {:induction false} StepGroup(kept: seq<Item>, log: seq<Item>, g: seq<Item>)
    requires WellFormed(log + g) && Agrees(kept, Replay(log))
    requires forall i :: 0 <= i < |g| ==> g[i].IsAttr() && !g[i].IsName() && !g[i].tag.IsDelete()
    ensures Agrees(Survivors(kept, g) + g, Replay(log + g))
    decreases |g|
  {
    hide Agrees, Survivors, Replay, Apply, WellFormed, Fits;
    if g == [] {
      SurvivorsOfNothing(kept);
      assert kept + [] == kept && log + [] == log;
    } else {
      var init, x := g[..|g| - 1], g[|g| - 1];
      assert log + g == log + init + [x];
      ReplaySnoc(log + init, x);
      CountBound(log + init);
      StepGroup(kept, log, init);
      StepWrite(Survivors(kept, init), init, x, Replay(log + init));
      SurvivorsTwice(kept, init, [x]);
      assert init + [x] == g;
      assert Survivors(kept, g) + init + [x] == Survivors(kept, g) + g;
    }
  }

  lemma StepAny(kept: seq<Item>, log: seq<Item>, g: seq<Item>)
    requires WellFormed(log + g) && Agrees(kept, Replay(log)) && GroupOk(g)
    ensures Agrees(Survivors(kept, g) + Attrs(g), Replay(log + g))
  {
    if |g| == 0 {
      assert g == [] && log + g == log;
      SurvivorsOfNothing(kept);
      assert kept + [] == kept && Attrs([]) == [];
    } else if |g| == 1 {
      hide Agrees, Survivors, Replay, Apply, Attrs;
      var x := g[0];
      assert g == [x];
      ReplaySnoc(log, x);
      CountBound(log);
      StepSingle(kept, x, Replay(log));
    } else {
      hide Agrees, Survivors, Replay, Apply, Attrs;
      AttrsOfPlain(g);
      StepGroup(kept, log, g);
    }
  }

  lemma {:induction false} KeptAgrees(groups: seq<seq<Item>>)
    requires WellFormed(Flat(groups))
    requires forall i :: 0 <= i < |groups| ==> GroupOk(groups[i])
    ensures Agrees(KeptOf(groups), Replay(Flat(groups)))
    decreases |groups|
  {
    if groups != [] {
      hide Agrees, Survivors, Replay, Apply, Attrs, WellFormed, GroupOk;
      var init, g := groups[..|groups| - 1], groups[|groups| - 1];
      var log := Flat(init);
      assert Flat(groups) == log + g;
      WellFormedPrefix(log + g, |log|);
      assert (log + g)[..|log|] == log;
      assert forall i :: 0 <= i < |init| ==> init[i] == groups[i];
      KeptAgrees(init);
      StepAny(KeptOf(init), log, g);
    } else {
      assert KeptOf(groups) == [] && Replay(Flat(groups)) == [];
    }
  }

  // The survivors in an id range, renumbered to start at a given id.
  function Window(kept: seq<Item>, begin: nat, end: nat, to: nat): seq<Item> {
    if kept == [] then []
    else
      var x := kept[|kept| - 1];
      Window(kept[..|kept| - 1], begin, end, to)
      + if begin <= x.tag.id < end then [x.At(x.tag.id - begin + to)] else []
  }

  lemma WindowSnoc(init: seq<Item>, x: Item, begin: nat, end: nat, to: nat)
    ensures Window(init + [x], begin, end, to)
         == if begin <= x.tag.id < end then Window(init, begin, end, to) + [x.At(x.tag.id - begin + to)]
            else Window(init, begin, end, to)
  {
    SnocPrefix(init, x);
  }

  lemma {:induction false} WindowConcat(a: seq<Item>, b: seq<Item>, begin: nat, end: nat, to: nat)
    ensures Window(a + b, begin, end, to) == Window(a, begin, end, to) + Window(b, begin, end, to)
    decreases |b|
  {
    if b == [] {
      assert a + b == a;
    } else {
      assert (a + b)[..|a + b| - 1] == a + b[..|b| - 1];
      WindowConcat(a, b[..|b| - 1], begin, end, to);
    }
  }

  lemma {:induction false} WindowView(kept: seq<Item>, begin: nat, end: nat, id: nat, key: nat)
    ensures LatestIn(Window(kept, begin, end, 0), id, key)
         == if begin + id < end then LatestIn(kept, begin + id, key) else None
    decreases |kept|
  {
    if kept != [] {
      var init, x := kept[..|kept| - 1], kept[|kept| - 1];
      WindowView(init, begin, end, id, key);
      var w := Window(init, begin, end, 0);
      assert init + [x] == kept;
      LatestInSnoc(init, x, begin + id, key);
      if begin <= x.tag.id < end {
        var y := x.At(x.tag.id - begin);
        assert Window(kept, begin, end, 0) == w + [y];
        LatestInSnoc(w, y, id, key);
        assert WriteOf(y) == WriteOf(x);
        hide LatestIn, Window, Key;
      } else {
        assert Window(kept, begin, end, 0) == w;
        hide LatestIn, Window, Key;
      }
    }
  }

  lemma {:induction false} WindowNames(kept: seq<Item>, begin: nat, end: nat)
    requires NamesFirst(kept)
    ensures NamesFirst(Window(kept, begin, end, 0))
    ensures forall i :: 0 <= i < |Window(kept, begin, end, 0)| ==> begin + Window(kept, begin, end, 0)[i].tag.id < end
    decreases |kept|
  {
    hide *;
    if kept == [] {
      NoNames(begin, end);
    } else {
      var init, x := kept[..|kept| - 1], kept[|kept| - 1];
      assert kept == init + [x];
      NamesFirstSnoc(init, x);
      WindowNames(init, begin, end);
      WindowSnoc(init, x, begin, end, 0);
      if begin <= x.tag.id < end {
        NameView(init, begin, end, x.tag.id - begin);
        NameKnownAt(init, Window(init, begin, end, 0), x, x.tag.id - begin);
        NamesFirstSnoc(Window(init, begin, end, 0), x.At(x.tag.id - begin));
      }
    }
  }

  lemma NameView(kept: seq<Item>, begin: nat, end: nat, id: nat)
    requires begin + id < end
    ensures LatestIn(Window(kept, begin, end, 0), id, TYPE_NAME) == LatestIn(kept, begin + id, TYPE_NAME)
  {
    hide LatestIn, Window;
    WindowView(kept, begin, end, id, TYPE_NAME);
  }

  lemma NoNames(begin: nat, end: nat)
    ensures Window([], begin, end, 0) == [] && NamesFirst([])
  {
  }

  lemma NameKnownAt(init: seq<Item>, w: seq<Item>, x: Item, id: nat)
    requires NameKnown(init, x) && id <= x.tag.id
    requires LatestIn(w, id, TYPE_NAME) == LatestIn(init, x.tag.id, TYPE_NAME)
    ensures NameKnown(w, x.At(id)) && x.At(id).tag.id == id
  {
    hide LatestIn;
  }

  // A list without splices whose names come first is a well-formed log of its own, and
  // replaying it gives back its view.
  lemma {:induction false} ReplayPlain(out: seq<Item>)
    requires NamesFirst(out)
    ensures WellFormed(out)
    ensures forall id: nat, key: nat :: LatestIn(out, id, key) == EntryLatest(Replay(out), id, key)
    ensures forall id: nat :: id < |Replay(out)| ==> (Replay(out)[id] != [] <==> LatestIn(out, id, TYPE_NAME).Some?)
    ensures Replay(out) != [] ==> LatestIn(out, |Replay(out)| - 1, TYPE_NAME).Some?
    decreases |out|
  {
    hide *;
    if out != [] {
      var init, x := out[..|out| - 1], out[|out| - 1];
      assert out == init + [x];
      NamesFirstInit(out);
      ReplayPlain(init);
      IsPlain(Replay(init), init, x);
      PlainFits(Replay(init), init, x);
      ReplaySnoc(init, x);
      PlainStep(Replay(init), init, x);
    } else {
      NothingRead();
    }
  }

  lemma NamesFirstInit(out: seq<Item>)
    requires NamesFirst(out) && out != []
    ensures NamesFirst(out[..|out| - 1])
  {
    hide NameKnown;
  }

  lemma NothingRead()
    ensures WellFormed([]) && Replay([]) == []
    ensures forall id: nat, key: nat :: LatestIn([], id, key) == EntryLatest([], id, key) == None
  {
  }

  lemma IsPlain(s: seq<Entry>, init: seq<Item>, x: Item)
    requires NamesFirst(init + [x])
    requires forall id: nat, key: nat :: LatestIn(init, id, key) == EntryLatest(s, id, key)
    requires forall id: nat :: id < |s| ==> (s[id] != [] <==> LatestIn(init, id, TYPE_NAME).Some?)
    requires s != [] ==> LatestIn(init, |s| - 1, TYPE_NAME).Some?
    ensures Plain(s, init, x)
  {
    hide NamesFirst, LatestIn, EntryLatest;
  }

  lemma PlainStep(s: seq<Entry>, init: seq<Item>, x: Item)
    requires Plain(s, init, x)
    ensures var out, t := init + [x], Apply(s, x);
            && (forall id: nat, key: nat :: LatestIn(out, id, key) == EntryLatest(t, id, key))
            && (forall id: nat :: id < |t| ==> (t[id] != [] <==> LatestIn(out, id, TYPE_NAME).Some?))
            && (t != [] ==> LatestIn(out, |t| - 1, TYPE_NAME).Some?)
  {
    hide Apply, LatestIn, EntryLatest, Plain;
    var out, t := init + [x], Apply(s, x);
    forall id: nat, key: nat
      ensures LatestIn(out, id, key) == EntryLatest(t, id, key)
    {
      PlainView(s, init, x, id, key);
    }
    forall id: nat | id < |t|
      ensures t[id] != [] <==> LatestIn(out, id, TYPE_NAME).Some?
    {
      PlainNamed(s, init, x, id);
    }
    PlainLast(s, init, x);
  }

  function EntryLatest(s: seq<Entry>, id: nat, key: nat): Option<Write> {
    if id < |s| then Latest(s[id], key) else None
  }

  // The steps of that induction: init has been replayed to s, and x comes next.
  ghost predicate Plain(s: seq<Entry>, init: seq<Item>, x: Item) {
    && NamesFirst(init + [x])
    && (forall id: nat, key: nat :: LatestIn(init, id, key) == EntryLatest(s, id, key))
    && (forall id: nat :: id < |s| ==> (s[id] != [] <==> LatestIn(init, id, TYPE_NAME).Some?))
    && (s != [] ==> LatestIn(init, |s| - 1, TYPE_NAME).Some?)
  }

  lemma PlainFits(s: seq<Entry>, init: seq<Item>, x: Item)
    requires Plain(s, init, x)
    ensures Fits(s, x) && x.IsAttr()
  {
    SnocPrefix(init, x);
    var id := x.tag.id;
    assert LatestIn(init, id, TYPE_NAME) == EntryLatest(s, id, TYPE_NAME);
  }

  lemma EmptyLatest(key: nat)
    ensures Latest([], key) == None
  {
  }

  lemma PlainView(s: seq<Entry>, init: seq<Item>, x: Item, id: nat, key: nat)
    requires Plain(s, init, x)
    ensures LatestIn(init + [x], id, key) == EntryLatest(Apply(s, x), id, key)
  {
    PlainFits(s, init, x);
    ApplyWrite(s, x);
    LatestInSnoc(init, x, id, key);
    assert LatestIn(init, id, key) == EntryLatest(s, id, key);
    hide Plain, LatestIn, Apply, Fits, Latest, Key;
    if id == x.tag.id {
      LatestSnoc(if id < |s| then s[id] else [], WriteOf(x), key);
      assert id >= |s| ==> Latest([], key) == None by { EmptyLatest(key); }
    } else {
      ApplyElsewhere(s, x, id);
    }
  }

  lemma PlainNamed(s: seq<Entry>, init: seq<Item>, x: Item, id: nat)
    requires Plain(s, init, x) && id < |Apply(s, x)|
    ensures Apply(s, x)[id] != [] <==> LatestIn(init + [x], id, TYPE_NAME).Some?
  {
    SnocPrefix(init, x);
    PlainFits(s, init, x);
    ApplyWrite(s, x);
    LatestInSnoc(init, x, id, TYPE_NAME);
    assert LatestIn(init, id, TYPE_NAME) == EntryLatest(s, id, TYPE_NAME);
    if id != x.tag.id {
      ApplyElsewhere(s, x, id);
    }
  }

  lemma PlainLast(s: seq<Entry>, init: seq<Item>, x: Item)
    requires Plain(s, init, x)
    ensures Apply(s, x) != [] && LatestIn(init + [x], |Apply(s, x)| - 1, TYPE_NAME).Some?
  {
    SnocPrefix(init, x);
    PlainFits(s, init, x);
    LatestInSnoc(init, x, |Apply(s, x)| - 1, TYPE_NAME);
  }

  // ---- the theorem ----------------------------------------------------------------------------

  // Compacting the id range [begin, end) of a settled log: what is written out is again a
  // settled log, and its entries are exactly the entries of that range, renumbered.
  lemma CompactionPreserves(groups: seq<seq<Item>>, begin: nat, end: nat)
    requires Settled(Flat(groups))
    requires forall i :: 0 <= i < |groups| ==> GroupOk(groups[i])
    requires begin <= end <= |Replay(Flat(groups))|
    ensures var out, s := Window(KeptOf(groups), begin, end, 0), Replay(Flat(groups));
            && Settled(out)
            && |Replay(out)| == end - begin
            && forall i :: 0 <= i < end - begin ==> SameView(Replay(out)[i], s[begin + i])
  {
    hide Replay, WellFormed, KeptOf, Flat, Window, LatestIn, Latest, NamesFirst, MarkerAlone;
    var all, s, kept := Flat(groups), Replay(Flat(groups)), KeptOf(groups);
    var out := Window(kept, begin, end, 0);
    KeptAgrees(groups);
    NamesComeFirst(all);
    WindowNames(kept, begin, end);
    ReplayPlain(out);
    var r := Replay(out);
    forall i, key | 0 <= i < end - begin
      ensures LatestIn(out, i, key) == Latest(s[begin + i], key)
    {
      WindowView(kept, begin, end, i, key);
    }
    forall i | 0 <= i < end - begin
      ensures LatestIn(out, i, TYPE_NAME).Some?
    {
      LatestName(s[begin + i]);
      assert LatestIn(out, i, TYPE_NAME) == Latest(s[begin + i], TYPE_NAME);
    }
    if |r| > end - begin {
      WindowView(kept, begin, end, |r| - 1, TYPE_NAME);
    }
    assert begin < end ==> LatestIn(out, end - begin - 1, TYPE_NAME).Some?;
    forall i | 0 <= i < end - begin
      ensures SameView(r[i], s[begin + i])
    {
      forall key
        ensures Latest(r[i], key) == Latest(s[begin + i], key)
      {
        assert LatestIn(out, i, key) == Latest(s[begin + i], key);
      }
    }
  }
}
