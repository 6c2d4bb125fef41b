// User attributes: what is set is what is found, until it is set again or removed, through
// commits and compactions.
module Attributes {
  import opened Wrappers
  import opened Tags
  import opened Log
  import opened Lookup
  import Traverse
  import Split

  // What lfs_getattr looks for: types are told apart by all their bits.
  function Find(s: seq<Entry>, id: nat, kind: nat): Option<Write> {
    LookupEntry(s, id, Exact, TYPE_USERATTR + kind)
  }

  // lfs_setattr and lfs_removeattr commit one attribute, the latter a delete marker.
  function SetItem(id: nat, kind: nat, data: seq<byte>): Item {
    Item(RawTag.Tag(TYPE_USERATTR + kind, id, |data|), data)
  }

  function RemoveItem(id: nat, kind: nat): Item {
    Item(RawTag.Tag(TYPE_USERATTR + kind, id, DELETED_SIZE), [])
  }

  lemma AfterAttr(log: seq<Item>, x: Item, kind: nat, at: nat, other: nat)
    requires Settled(log) && kind < 0x100 && other < 0x100 && x.tag.type3 == 0x300 + kind && x.tag.id < |Replay(log)|
    ensures Settled(log + [x]) && |Replay(log + [x])| == |Replay(log)|
    ensures Find(Replay(log + [x]), at, other)
         == if at == x.tag.id && other == kind then (if x.tag.size == 0x3ff then None else Some(WriteOf(x)))
            else Find(Replay(log), at, other)
  {
    hide Replay, WellFormed;
    ReplaySnoc(log, x);
    var s := Replay(log);
    ApplyWrite(s, x);
    assert Apply(s, x) == s[x.tag.id := s[x.tag.id] + [WriteOf(x)]];
    if at == x.tag.id {
      MatchSnoc(s[at], WriteOf(x), Exact, 0x300 + other);
    }
  }

  // Setting an attribute sets it, and no other attribute of any entry.
  lemma SetThenFind(log: seq<Item>, id: nat, kind: nat, data: seq<byte>, at: nat, other: nat)
    requires Settled(log) && id < |Replay(log)| && kind < 0x100 && other < 0x100 && |data| < 0x3ff
    ensures Settled(log + [SetItem(id, kind, data)])
    ensures Find(Replay(log + [SetItem(id, kind, data)]), at, other)
         == if at == id && other == kind then Some(Write(0x300 + kind, |data|, data)) else Find(Replay(log), at, other)
  {
    hide Replay, WellFormed, Find;
    AfterAttr(log, SetItem(id, kind, data), kind, at, other);
  }

  lemma RemoveThenFind(log: seq<Item>, id: nat, kind: nat, at: nat, other: nat)
    requires Settled(log) && id < |Replay(log)| && kind < 0x100 && other < 0x100
    ensures Settled(log + [RemoveItem(id, kind)])
    ensures Find(Replay(log + [RemoveItem(id, kind)]), at, other)
         == if at == id && other == kind then None else Find(Replay(log), at, other)
  {
    hide Replay, WellFormed, Find;
    AfterAttr(log, RemoveItem(id, kind), kind, at, other);
  }

  // Of several attributes of one kind in a list the last counts.
  function LastOf(list: seq<Traverse.UserAttr>, kind: nat): Option<seq<byte>> {
    if list == [] then None
    else
      var a := list[|list| - 1];
      if a.kind == kind then Some(a.data) else LastOf(list[..|list| - 1], kind)
  }

  lemma {:induction false} LastOfIs(list: seq<Traverse.UserAttr>, kind: nat, i: nat)
    requires i < |list| && list[i].kind == kind && forall j :: i < j < |list| ==> list[j].kind != kind
    ensures LastOf(list, kind) == Some(list[i].data)
    decreases |list|
  {
    if i < |list| - 1 {
      LastOfIs(list[..|list| - 1], kind, i);
    }
  }

  lemma {:induction false} LastOfNone(list: seq<Traverse.UserAttr>, kind: nat)
    requires forall j :: 0 <= j < |list| ==> list[j].kind != kind
    ensures LastOf(list, kind) == None
    decreases |list|
  {
    if list != [] {
      LastOfNone(list[..|list| - 1], kind);
    }
  }

  predicate Short(list: seq<Traverse.UserAttr>) {
    forall i :: 0 <= i < |list| ==> list[i].kind < 0x100 && |list[i].data| < 0x3ff
  }

  // A list of attributes is stored under their own types.
  lemma {:induction false} ListThenFind(log: seq<Item>, id: nat, list: seq<Traverse.UserAttr>, at: nat, other: nat)
    requires Settled(log) && id < |Replay(log)| && other < 0x100 && Short(list)
    ensures var xs, last := Traverse.UserItems(id, list), LastOf(list, other);
            && Settled(log + xs) && |Replay(log + xs)| == |Replay(log)|
            && Find(Replay(log + xs), at, other)
            == if at == id && last.Some? then Some(Write(0x300 + other, |last.value|, last.value))
               else Find(Replay(log), at, other)
    decreases |list|
  {
    hide *;
    if list == [] {
      NothingListed(log, id, other);
    } else {
      var init, a := list[..|list| - 1], list[|list| - 1];
      OneListed(log, id, list, other);
      ListThenFind(log, id, init, at, other);
      var x := Traverse.UserItem(id, a);
      UserItemIs(id, a);
      AfterAttr(log + Traverse.UserItems(id, init), x, a.kind, at, other);
    }
  }

  lemma NothingListed(log: seq<Item>, id: nat, other: nat)
    ensures Short([]) && log + Traverse.UserItems(id, []) == log && LastOf([], other) == None
  {
  }

  lemma OneListed(log: seq<Item>, id: nat, list: seq<Traverse.UserAttr>, other: nat)
    requires Short(list) && list != []
    ensures var init, a := list[..|list| - 1], list[|list| - 1];
            && Short(init) && (forall i :: 0 <= i < |init| ==> init[i].kind < 0x100)
            && a.kind < 0x100 && |a.data| < 0x3ff
            && log + Traverse.UserItems(id, list) == log + Traverse.UserItems(id, init) + [Traverse.UserItem(id, a)]
            && LastOf(list, other) == if a.kind == other then Some(a.data) else LastOf(init, other)
  {
    hide Traverse.UserItem;
  }

  // The type of a user attribute is 0x300 with its kind added.
  lemma UserItemIs(id: nat, a: Traverse.UserAttr)
    requires a.kind < 0x100 && |a.data| < 0x3ff
    ensures var x := Traverse.UserItem(id, a);
            && x.tag.type3 == 0x300 + a.kind && x.tag.id == id && x.tag.size != 0x3ff
            && WriteOf(x) == Write(0x300 + a.kind, |a.data|, a.data)
  {
  }

  // ---- through a compaction -------------------------------------------------------------------

  // Lookups for the struct, for the name and for a user attribute of an entry find the same in
  // entries that have the same views.
  lemma {:induction false} MatchIsLatest(h: Entry, mask: TypeMask, type3: nat)
    requires (mask == ByType && (Kind(type3) == TYPE_NAME || Kind(type3) == TYPE_STRUCT))
             || (mask == Exact && Kind(type3) == TYPE_USERATTR)
    ensures LatestMatch(h, mask, type3) == Latest(h, if mask == Exact then type3 else Kind(type3))
    decreases |h|
  {
    if h != [] {
      MatchIsLatest(h[..|h| - 1], mask, type3);
    }
  }

  lemma CompactedLookups(s: seq<Entry>, t: seq<Entry>, id: nat, mask: TypeMask, type3: nat)
    requires Split.SameEntries(s, t)
    requires (mask == ByType && (Kind(type3) == TYPE_NAME || Kind(type3) == TYPE_STRUCT))
             || (mask == Exact && Kind(type3) == TYPE_USERATTR)
    ensures LookupEntry(s, id, mask, type3) == LookupEntry(t, id, mask, type3)
  {
    hide LatestMatch, Latest, Kind;
    if id < |s| {
      MatchIsLatest(s[id], mask, type3);
      MatchIsLatest(t[id], mask, type3);
      assert SameView(s[id], t[id]);
    }
  }
}
