// The metadata log of a directory pair: what a sequence of attributes means.
//
// A log is a sequence of attributes (a tag and its payload), oldest first. Replaying it
// gives the entries of the directory; an entry is the list of the writes made to it
// since it was created, oldest first.
module Log {
  import opened Wrappers
  import opened Tags

  datatype Item = Item(tag: RawTag, data: seq<byte>) {
    // CREATE and DELETE are the only splices there are.
    predicate IsSplice() {
      tag.type3 == TYPE_CREATE || tag.type3 == TYPE_DELETE
    }

    predicate IsName() {
      tag.type3 < TYPE_FROM
    }

    // Names, structs and user attributes belong to an entry.
    predicate IsAttr() {
      tag.type3 < TYPE_SPLICE
    }

    // Ids grow by one above a CREATE and shrink by one above a DELETE.
    function Shift(): int {
      if tag.type3 == TYPE_CREATE then 1 else if tag.type3 == TYPE_DELETE then -1 else 0
    }

    function At(id: nat): Item {
      this.(tag := this.tag.(id := id))
    }
  }

  // What a write leaves in an entry: the attribute without its id.
  datatype Write = Write(type3: nat, size: nat, data: seq<byte>)

  type Entry = seq<Write>

  function WriteOf(x: Item): Write {
    Write(x.tag.type3, x.tag.size, x.data)
  }

  // A later write replaces an earlier one when they have the same key. Types without
  // the 0x100 bit (names, structs, splices, tails) are replaced whatever their chunk;
  // the others, such as user attributes, only by the very same type.
  function Key(type3: nat): nat {
    if type3 < TYPE_FROM then TYPE_NAME
    else if TYPE_STRUCT <= type3 < TYPE_USERATTR then TYPE_STRUCT
    else if TYPE_SPLICE <= type3 < TYPE_CRC then TYPE_SPLICE
    else if TYPE_TAIL <= type3 < TYPE_GLOBALS then TYPE_TAIL
    else type3
  }

  function Latest(h: Entry, key: nat): Option<Write> {
    if h == [] then None
    else
      var w := h[|h| - 1];
      if Key(w.type3) == key then
        if w.size == DELETED_SIZE then None else Some(w)
      else Latest(h[..|h| - 1], key)
  }

  lemma LatestSnoc(h: Entry, w: Write, key: nat)
    ensures Latest(h + [w], key)
         == if Key(w.type3) == key then (if w.size == DELETED_SIZE then None else Some(w)) else Latest(h, key)
  {
    assert (h + [w])[..|h + [w]| - 1] == h;
  }

  ghost predicate SameView(h: Entry, g: Entry) {
    forall key :: Latest(h, key) == Latest(g, key)
  }

  // ---- replay ------------------------------------------------------------------------

  function Extend(s: seq<Entry>, n: nat): (r: seq<Entry>)
    ensures |r| == if |s| >= n then |s| else n
    ensures forall i :: 0 <= i < |r| ==> r[i] == if i < |s| then s[i] else []
  {
    if |s| >= n then s else s + seq(n - |s|, _ => [])
  }

  function Apply(s: seq<Entry>, x: Item): seq<Entry> {
    var id := x.tag.id;
    if x.IsSplice() then
      if x.tag.type3 == TYPE_CREATE then
        if id <= |s| then s[..id] + [[]] + s[id..] else s
      else
        if id < |s| then s[..id] + s[id + 1..] else s
    else if x.IsName() then
      var e := Extend(s, id + 1);
      e[id := e[id] + [WriteOf(x)]]
    else if x.IsAttr() && id < |s| then
      s[id := s[id] + [WriteOf(x)]]
    else s
  }

  function Replay(log: seq<Item>): seq<Entry> {
    if log == [] then []
    else Apply(Replay(log[..|log| - 1]), log[|log| - 1])
  }

  // The checksum tag that ends a commit, as far as logs are concerned.
  const SEAL: Item := Item(RawTag.Tag(TYPE_CRC, NO_ID, 4), [])

  // Making room for an entry, and taking one out.
  function DeleteAt(id: nat): Item {
    Item(RawTag.Tag(TYPE_DELETE, id, 0), [])
  }

  function CreateAt(id: nat): Item {
    Item(RawTag.Tag(TYPE_CREATE, id, 0), [])
  }

  function Insert(s: seq<Entry>, i: nat, e: Entry): seq<Entry>
    requires i <= |s|
  {
    s[..i] + [e] + s[i..]
  }

  function Remove(s: seq<Entry>, i: nat): seq<Entry>
    requires i < |s|
  {
    s[..i] + s[i + 1..]
  }

  // ---- well-formed logs ---------------------------------------------------------------

  predicate AllNamed(s: seq<Entry>) {
    forall i :: 0 <= i < |s| ==> s[i] != []
  }

  // When an attribute may follow a log whose entries are s. Splices happen only between
  // named entries, and FROM types never reach a log. A name is the first write of its entry; when it comes without a
  // CREATE, in the first commit after a compaction, its id may lie past the end.
  predicate Fits(s: seq<Entry>, x: Item) {
    var id := x.tag.id;
    if x.IsSplice() then
      && AllNamed(s) && x.tag.size == 0
      && (x.tag.type3 == TYPE_CREATE ==> id <= |s| < NO_ID)
      && (x.tag.type3 == TYPE_DELETE ==> id < |s|)
    else if x.IsName() then
      id < NO_ID && !x.tag.IsDelete() && (id < |s| ==> s[id] == [])
    else if x.IsAttr() then
      id < |s| && s[id] != [] && Kind(x.tag.type3) != TYPE_FROM
    else Kind(x.tag.type3) != TYPE_SPLICE
  }

  ghost predicate FitsAt(log: seq<Item>, k: nat)
    requires k < |log|
  {
    Fits(Replay(log[..k]), log[k])
  }

  ghost predicate WellFormed(log: seq<Item>) {
    forall k :: 0 <= k < |log| ==> FitsAt(log, k)
  }

  // Every log the file system leaves behind between two operations.
  ghost predicate Settled(log: seq<Item>) {
    WellFormed(log) && AllNamed(Replay(log))
  }

  // ---- basic facts ---------------------------------------------------------------------

  lemma SettledIs(log: seq<Item>)
    ensures Settled(log) <==> WellFormed(log) && AllNamed(Replay(log))
  {
    hide WellFormed, AllNamed, Replay;
  }

  lemma SnocPrefix<T>(s: seq<T>, x: T)
    ensures (s + [x])[..|s + [x]| - 1] == s
    ensures (s + [x])[|s + [x]| - 1] == x
  {
  }

  lemma ReplaySnoc(log: seq<Item>, x: Item)
    ensures Replay(log + [x]) == Apply(Replay(log), x)
    ensures WellFormed(log + [x]) <==> WellFormed(log) && Fits(Replay(log), x)
  {
    SnocPrefix(log, x);
    var all := log + [x];
    assert FitsAt(all, |log|) <==> Fits(Replay(log), x) by {
      assert all[..|log|] == log;
    }
    forall k | 0 <= k < |log|
      ensures FitsAt(all, k) <==> FitsAt(log, k)
    {
      assert all[..k] == log[..k];
    }
    if WellFormed(log) && Fits(Replay(log), x) {
      assert forall k :: 0 <= k < |all| ==> k == |log| || FitsAt(log, k);
    }
    if WellFormed(all) {
      assert forall k :: 0 <= k < |log| ==> FitsAt(all, k);
    }
  }

  // What one attribute does to the entry at a given id.
  lemma ApplyWrite(s: seq<Entry>, x: Item)
    requires Fits(s, x) && x.IsAttr()
    ensures x.tag.id < |Apply(s, x)|
    ensures Apply(s, x)[x.tag.id] == (if x.tag.id < |s| then s[x.tag.id] else []) + [WriteOf(x)]
    ensures |s| <= |Apply(s, x)|
  {
  }

  lemma ApplyElsewhere(s: seq<Entry>, x: Item, id: nat)
    requires Fits(s, x)
    requires if x.IsSplice() then id < x.tag.id else x.IsAttr() ==> id != x.tag.id
    ensures id < |s| ==> id < |Apply(s, x)|
    ensures id < |Apply(s, x)| ==> Apply(s, x)[id] == if id < |s| then s[id] else []
  {
  }

  lemma ApplySplice(s: seq<Entry>, x: Item, id: nat)
    requires Fits(s, x) && x.IsSplice() && x.tag.id <= id
    ensures !(x.tag.type3 == TYPE_CREATE && x.tag.id == id) ==>
              && id - x.Shift() >= 0
              && (id < |Apply(s, x)| <==> id - x.Shift() < |s|)
              && (id < |Apply(s, x)| ==> Apply(s, x)[id] == s[id - x.Shift()])
    ensures x.tag.type3 == TYPE_CREATE && x.tag.id == id ==> id < |Apply(s, x)| && Apply(s, x)[id] == []
  {
  }

  function ApplyAll(s: seq<Entry>, xs: seq<Item>): seq<Entry> {
    if xs == [] then s
    else Apply(ApplyAll(s, xs[..|xs| - 1]), xs[|xs| - 1])
  }

  lemma {:induction false} ReplayConcat(log: seq<Item>, more: seq<Item>)
    ensures Replay(log + more) == ApplyAll(Replay(log), more)
    decreases |more|
  {
    if more == [] {
      assert log + more == log;
    } else {
      var init, last := more[..|more| - 1], more[|more| - 1];
      assert log + more == (log + init) + [last];
      ReplaySnoc(log + init, last);
      ReplayConcat(log, init);
    }
  }

  lemma WellFormedPrefix(log: seq<Item>, k: nat)
    requires WellFormed(log) && k <= |log|
    ensures WellFormed(log[..k])
  {
    forall j | 0 <= j < k
      ensures FitsAt(log[..k], j)
    {
      assert FitsAt(log, j);
      assert log[..k][..j] == log[..j];
    }
  }

  lemma WellFormedAt(log: seq<Item>, k: nat)
    requires WellFormed(log) && k < |log|
    ensures WellFormed(log[..k]) && Fits(Replay(log[..k]), log[k])
    ensures Replay(log[..k + 1]) == Apply(Replay(log[..k]), log[k])
  {
    WellFormedPrefix(log, k);
    assert FitsAt(log, k);
    assert log[..k + 1] == log[..k] + [log[k]];
    ReplaySnoc(log[..k], log[k]);
  }

  // Induction over a log from its newest end.
  lemma Unsnoc(log: seq<Item>)
    requires WellFormed(log) && log != []
    ensures var init, x := log[..|log| - 1], log[|log| - 1];
            && log == init + [x] && WellFormed(init) && Fits(Replay(init), x)
            && Replay(log) == Apply(Replay(init), x)
  {
    WellFormedAt(log, |log| - 1);
    assert log == log[..|log| - 1] + [log[|log| - 1]];
    assert log[..|log| - 1 + 1] == log;
  }

  lemma {:induction false} CountBound(log: seq<Item>)
    requires WellFormed(log)
    ensures |Replay(log)| <= NO_ID
    decreases |log|
  {
    if log != [] {
      Unsnoc(log);
      CountBound(log[..|log| - 1]);
    }
  }

  // The first write of an entry is its name, and no other write is a name.
  ghost predicate NameFirst(h: Entry) {
    forall i :: 0 <= i < |h| ==> (Key(h[i].type3) == TYPE_NAME <==> i == 0) && (i == 0 ==> h[i].size != DELETED_SIZE)
  }

  lemma {:induction false} NamesComeFirst(log: seq<Item>)
    requires WellFormed(log)
    ensures forall i :: 0 <= i < |Replay(log)| ==> NameFirst(Replay(log)[i])
    decreases |log|
  {
    if log != [] {
      Unsnoc(log);
      NamesComeFirst(log[..|log| - 1]);
    }
  }

  lemma {:induction false} LatestName(h: Entry)
    requires NameFirst(h) && h != []
    ensures Latest(h, TYPE_NAME) == Some(h[0])
    decreases |h|
  {
    if |h| > 1 {
      var g := h[..|h| - 1];
      assert forall i :: 0 <= i < |g| ==> g[i] == h[i];
      LatestName(g);
    }
  }
}
