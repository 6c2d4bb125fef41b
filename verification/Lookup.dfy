// Backward lookup in the metadata log (lfs_dir_getslice): the newest matching attribute
// of an entry is found by walking the log from its end, undoing the splices on the way.
module Lookup {
  import opened Wrappers
  import opened Tags
  import opened Log

  // The type masks used by lookups: 0x700 (the 3-bit type), 0x780 (names that are not
  // the superblock's) and 0x7ff (the full type).
  datatype TypeMask = ByType | ByPlainName | Exact {
    predicate Same(a: nat, b: nat) {
      match this
      case ByType => Kind(a) == Kind(b)
      case ByPlainName => Kind(a) == Kind(b) && (Chunk(a) < 0x80 <==> Chunk(b) < 0x80)
      case Exact => a == b
    }
  }

  // What the mask keeps of the eleven bits of a type.
  function MaskBits(mask: TypeMask): bv11 {
    match mask
    case ByType => 0x700
    case ByPlainName => 0x780
    case Exact => 0x7ff
  }

  function Masked(type3: nat, bits: bv11): bv11
    requires type3 < 0x800
  {
    Field11(type3) & bits
  }

  // Types are the same under a mask when they agree in its bits.
  lemma SameIsMasked(mask: TypeMask, a: nat, b: nat)
    requires a < 0x800 && b < 0x800
    ensures mask.Same(a, b) <==> Masked(a, MaskBits(mask)) == Masked(b, MaskBits(mask))
  {
    SameKind(a, b);
    SamePlain(a, b);
    SameType(a, b);
    hide Masked, Kind, Chunk;
  }

  lemma SameKind(a: nat, b: nat)
    requires a < 0x800 && b < 0x800
    ensures Kind(a) == Kind(b) <==> Masked(a, 0x700) == Masked(b, 0x700)
  {
    hide Field11, Kind, Chunk;
    KindInBits(Field11(a));
    KindInBits(Field11(b));
    if Kind(a) == Kind(b) {
      SameField11(Masked(a, 0x700), Masked(b, 0x700));
    }
  }

  lemma SamePlain(a: nat, b: nat)
    requires a < 0x800 && b < 0x800
    ensures Kind(a) == Kind(b) && (Chunk(a) < 0x80 <==> Chunk(b) < 0x80) <==> Masked(a, 0x780) == Masked(b, 0x780)
  {
    SameKind(a, b);
    hide Field11, Kind, Chunk;
    KindInBits(Field11(a));
    KindInBits(Field11(b));
    Halves(Field11(a), Field11(b));
  }

  lemma SameType(a: nat, b: nat)
    requires a < 0x800 && b < 0x800
    ensures a == b <==> Masked(a, 0x7ff) == Masked(b, 0x7ff)
  {
    hide Field11;
    AllBits(Field11(a));
    AllBits(Field11(b));
  }

  lemma KindInBits(f: bv11)
    ensures Kind(f as nat) == (f & 0x700) as nat
    ensures Chunk(f as nat) < 0x80 <==> f & 0x80 == 0
  {
  }

  lemma Halves(f: bv11, g: bv11)
    ensures f & 0x780 == g & 0x780 <==> f & 0x700 == g & 0x700 && (f & 0x80 == 0 <==> g & 0x80 == 0)
  {
  }

  lemma AllBits(f: bv11)
    ensures f & 0x7ff == f
  {
  }

  predicate IsAttrType(type3: nat) {
    type3 < 0x400 && !(0x100 <= type3 < 0x200)
  }

  // The specification: the last write of the entry that matches, unless it is a delete.
  function LatestMatch(h: Entry, mask: TypeMask, type3: nat): Option<Write> {
    if h == [] then None
    else
      var w := h[|h| - 1];
      if mask.Same(w.type3, type3) then
        if w.size == DELETED_SIZE then None else Some(w)
      else LatestMatch(h[..|h| - 1], mask, type3)
  }

  function LookupEntry(s: seq<Entry>, id: nat, mask: TypeMask, type3: nat): Option<Write> {
    if id < |s| then LatestMatch(s[id], mask, type3) else None
  }

  // It is the newest write under the mask: nothing later matches.
  lemma {:induction false} NewestMatch(h: Entry, mask: TypeMask, type3: nat, i: nat)
    requires i < |h| && mask.Same(h[i].type3, type3)
    requires forall j :: i < j < |h| ==> !mask.Same(h[j].type3, type3)
    ensures LatestMatch(h, mask, type3) == if h[i].size == DELETED_SIZE then None else Some(h[i])
    decreases |h|
  {
    if i < |h| - 1 {
      NewestMatch(h[..|h| - 1], mask, type3, i);
    }
  }

  lemma {:induction false} NoMatch(h: Entry, mask: TypeMask, type3: nat)
    requires forall j :: 0 <= j < |h| ==> !mask.Same(h[j].type3, type3)
    ensures LatestMatch(h, mask, type3) == None
    decreases |h|
  {
    if h != [] {
      NoMatch(h[..|h| - 1], mask, type3);
    }
  }

  lemma MatchSnoc(h: Entry, w: Write, mask: TypeMask, type3: nat)
    ensures LatestMatch(h + [w], mask, type3)
         == if mask.Same(w.type3, type3) then (if w.size == DELETED_SIZE then None else Some(w))
            else LatestMatch(h, mask, type3)
  {
    SnocPrefix(h, w);
  }

  // Only attributes of entries can match a lookup for one.
  lemma SameIsAttr(mask: TypeMask, x: Item, type3: nat)
    requires IsAttrType(type3) && mask.Same(x.tag.type3, type3)
    ensures x.IsAttr()
  {
  }

  lemma SpliceIsNoMatch(mask: TypeMask, x: Item, type3: nat)
    requires IsAttrType(type3) && x.IsSplice()
    ensures !mask.Same(x.tag.type3, type3)
  {
  }

  // Undoing one attribute of the log: a splice at or below the id ...
  lemma UndoSplice(s: seq<Entry>, x: Item, id: nat, mask: TypeMask, type3: nat)
    requires Fits(s, x) && x.IsSplice() && x.tag.id <= id
    ensures var r := LookupEntry(Apply(s, x), id, mask, type3);
            if x.tag.type3 == TYPE_CREATE && x.tag.id == id then r == None
            else id - x.Shift() >= 0 && r == LookupEntry(s, id - x.Shift(), mask, type3)
  {
    ApplySplice(s, x, id);
  }

  // ... a matching write to the entry ...
  lemma UndoMatch(s: seq<Entry>, x: Item, mask: TypeMask, type3: nat)
    requires Fits(s, x) && x.IsAttr() && mask.Same(x.tag.type3, type3)
    ensures LookupEntry(Apply(s, x), x.tag.id, mask, type3)
         == if x.tag.IsDelete() then None else Some(WriteOf(x))
  {
    ApplyWrite(s, x);
    MatchSnoc(if x.tag.id < |s| then s[x.tag.id] else [], WriteOf(x), mask, type3);
  }

  // ... and anything else.
  lemma UndoOther(s: seq<Entry>, x: Item, id: nat, mask: TypeMask, type3: nat)
    requires Fits(s, x) && !(x.IsSplice() && x.tag.id <= id)
    requires !(mask.Same(x.tag.type3, type3) && x.tag.id == id)
    ensures LookupEntry(Apply(s, x), id, mask, type3) == LookupEntry(s, id, mask, type3)
  {
    if x.IsAttr() && x.tag.id == id {
      ApplyWrite(s, x);
      MatchSnoc(if id < |s| then s[id] else [], WriteOf(x), mask, type3);
    } else {
      ApplyElsewhere(s, x, id);
    }
  }

  // The three cases together, at position k of a log. Backwards(log, k, id, ...) is the
  // lookup of id in the directory as it was after the first k attributes.
  ghost function Backwards(log: seq<Item>, k: nat, id: nat, mask: TypeMask, type3: nat): Option<Write>
    requires k <= |log|
  {
    LookupEntry(Replay(log[..k]), id, mask, type3)
  }

  lemma BackOverSplice(log: seq<Item>, k: nat, id: nat, mask: TypeMask, type3: nat)
    requires WellFormed(log) && k < |log| && log[k].IsSplice() && log[k].tag.id <= id
    ensures log[k].tag == RawTag.Tag(TYPE_CREATE, id, 0) ==> Backwards(log, k + 1, id, mask, type3) == None
    ensures log[k].tag != RawTag.Tag(TYPE_CREATE, id, 0) ==>
              && id - log[k].Shift() >= 0
              && Backwards(log, k + 1, id, mask, type3) == Backwards(log, k, id - log[k].Shift(), mask, type3)
  {
    WellFormedAt(log, k);
    UndoSplice(Replay(log[..k]), log[k], id, mask, type3);
  }

  lemma BackAtMatch(log: seq<Item>, k: nat, id: nat, mask: TypeMask, type3: nat)
    requires WellFormed(log) && k < |log| && IsAttrType(type3)
    requires mask.Same(log[k].tag.type3, type3) && log[k].tag.id == id
    ensures !log[k].IsSplice()
    ensures Backwards(log, k + 1, id, mask, type3)
         == if log[k].tag.IsDelete() then None else Some(WriteOf(log[k]))
  {
    WellFormedAt(log, k);
    SameIsAttr(mask, log[k], type3);
    UndoMatch(Replay(log[..k]), log[k], mask, type3);
  }

  lemma BackOverOther(log: seq<Item>, k: nat, id: nat, mask: TypeMask, type3: nat)
    requires WellFormed(log) && k < |log|
    requires !(log[k].IsSplice() && log[k].tag.id <= id)
    requires !(mask.Same(log[k].tag.type3, type3) && log[k].tag.id == id)
    ensures Backwards(log, k + 1, id, mask, type3) == Backwards(log, k, id, mask, type3)
  {
    WellFormedAt(log, k);
    UndoOther(Replay(log[..k]), log[k], id, mask, type3);
  }

  // A payload read into a buffer of a given size: cut off, or padded with zeros.
  function Padded(data: seq<byte>, size: nat): (r: seq<byte>)
    ensures |r| == size
  {
    seq(size, i requires 0 <= i < size => if i < |data| then data[i] else 0)
  }

  // lfs_dir_get: gid is the id looked up; pendingMove is the id of a pending move out of
  // this pair, if there is one. On success the tag carries the id asked for.
  method Get(log: seq<Item>, pendingMove: Option<nat>, mask: TypeMask, type3: nat, gid: nat, size: nat)
    returns (tag: Option<RawTag>, buffer: seq<byte>)
    requires WellFormed(log) && IsAttrType(type3)
    ensures var w := LookupEntry(Replay(log), CodeShift(pendingMove, gid), mask, type3);
            && (w.None? <==> tag.None?)
            && (w.Some? ==> tag.value == RawTag.Tag(w.value.type3, gid, w.value.size)
                            && buffer == Padded(w.value.data, size))
            // as much of the payload as there is room for, and zeros behind it
            && (w.Some? ==> |buffer| == size && forall i :: 0 <= i < size ==>
                              buffer[i] == if i < |w.value.data| then w.value.data[i] else 0)
  {
    hide Apply;
    tag, buffer := None, [];
    var shift := 0;
    if pendingMove.Some? && gid <= pendingMove.value {
      // ids seem to be one less while a move is pending
      shift := shift - 1;
    }
    ghost var want := Backwards(log, |log|, gid - shift, mask, type3);
    assert want == LookupEntry(Replay(log), CodeShift(pendingMove, gid), mask, type3) by {
      assert log[..|log|] == log;
      assert gid - shift == CodeShift(pendingMove, gid);
    }
    var k := |log|;
    while k > 0
      invariant 0 <= k <= |log| && gid - shift >= 0
      invariant Backwards(log, k, gid - shift, mask, type3) == want
    {
      k := k - 1;
      var x := log[k];
      ghost var id := gid - shift;
      if x.IsSplice() && x.tag.id <= gid - shift {
        BackOverSplice(log, k, id, mask, type3);
        SpliceIsNoMatch(mask, x, type3);
        if x.tag == RawTag.Tag(TYPE_CREATE, gid - shift, 0) {
          // nothing older can belong to this entry
          return None, [];
        }
        // before this splice the entry had another id
        shift := shift + x.Shift();
      }
      if mask.Same(x.tag.type3, type3) && x.tag.id == gid - shift {
        BackAtMatch(log, k, id, mask, type3);
        if x.tag.IsDelete() {
          return None, [];
        }
        var diff := if |x.data| < size then |x.data| else size;
        buffer := x.data[..diff] + seq(size - diff, _ => 0);
        assert buffer == Padded(x.data, size);
        return Some(x.tag.(id := x.tag.id + shift)), buffer;
      }
      if !(x.IsSplice() && x.tag.id <= id) {
        BackOverOther(log, k, id, mask, type3);
      }
      assert Backwards(log, k, gid - shift, mask, type3) == want;
    }
    assert want == None by { assert log[..0] == []; }
  }

  // The global-state record of a directory is looked up without an id: it is the newest
  // one in the log.
  function LatestState(log: seq<Item>): Option<seq<byte>> {
    if log == [] then None
    else
      var x := log[|log| - 1];
      if x.tag.type3 == TYPE_MOVESTATE then
        if x.tag.IsDelete() then None else Some(x.data)
      else LatestState(log[..|log| - 1])
  }

  // ---- lookups while a move is pending ---------------------------------------------------

  // The entry that the code looks at, and the entry it should look at: the directory as
  // it will be once the moved entry has been deleted.
  function CodeShift(pendingMove: Option<nat>, gid: nat): nat {
    if pendingMove.Some? && gid <= pendingMove.value then gid + 1 else gid
  }

  lemma PendingMoveLookup(log: seq<Item>, m: nat, gid: nat, mask: TypeMask, type3: nat)
    requires Settled(log) && m < |Replay(log)|
    ensures Settled(log + [DeleteAt(m)]) && Replay(log + [DeleteAt(m)]) == Remove(Replay(log), m)
    ensures LookupEntry(Remove(Replay(log), m), gid, mask, type3)
         == LookupEntry(Replay(log), if gid < m then gid else gid + 1, mask, type3)
  {
    hide *;
    SettledIs(log);
    ReplaySnoc(log, DeleteAt(m));
    Deleted(Replay(log), m, gid, mask, type3);
    SettledIs(log + [DeleteAt(m)]);
  }

  lemma Deleted(s: seq<Entry>, m: nat, gid: nat, mask: TypeMask, type3: nat)
    requires AllNamed(s) && m < |s|
    ensures Fits(s, DeleteAt(m)) && Apply(s, DeleteAt(m)) == Remove(s, m) && AllNamed(Remove(s, m))
    ensures LookupEntry(Remove(s, m), gid, mask, type3)
         == LookupEntry(s, if gid < m then gid else gid + 1, mask, type3)
  {
    hide LatestMatch;
  }

  // Entries that a lookup tells apart, as names do in every directory.
  ghost predicate Distinct(s: seq<Entry>, mask: TypeMask, type3: nat) {
    && (forall i :: 0 <= i < |s| ==> LookupEntry(s, i, mask, type3).Some?)
    && (forall i, j :: 0 <= i < j < |s| ==> LookupEntry(s, i, mask, type3) != LookupEntry(s, j, mask, type3))
  }

  // Without a pending move the code looks at the right entry. With one, its comparison is
  // the wrong way round: it finds what is in the directory without the moved entry exactly
  // for the moved id itself and past the end.
  lemma PendingMoveShift(s: seq<Entry>, m: nat, gid: nat, mask: TypeMask, type3: nat)
    requires m < |s| && Distinct(s, mask, type3)
    ensures LookupEntry(s, CodeShift(Some(m), gid), mask, type3) == LookupEntry(Remove(s, m), gid, mask, type3)
            <==> gid == m || gid >= |s|
    ensures LookupEntry(s, CodeShift(None, gid), mask, type3) == LookupEntry(s, gid, mask, type3)
  {
    hide LatestMatch;
    var right := if gid < m then gid else gid + 1;
    assert LookupEntry(Remove(s, m), gid, mask, type3) == LookupEntry(s, right, mask, type3);
  }

  const TWO_FILES: seq<Item> := [CreateAt(0), FileNamed(0, 97), CreateAt(1), FileNamed(1, 98)]

  // Two files a and b, the second of them on the move: looking up the name of entry 0
  // gives that of the entry that is moving away.
  lemma WrongWhileMoving()
    ensures Settled(TWO_FILES)
    ensures LookupEntry(Replay(TWO_FILES), CodeShift(Some(1), 0), ByType, TYPE_NAME) == Some(Write(TYPE_REG, 1, [98]))
    ensures LookupEntry(Replay(TWO_FILES + [DeleteAt(1)]), 0, ByType, TYPE_NAME) == Some(Write(TYPE_REG, 1, [97]))
  {
    var u, v: Entry := [Write(TYPE_REG, 1, [97])], [Write(TYPE_REG, 1, [98])];
    hide *;
    TwoFiles(u, v);
    NameOf(u, [97]);
    NameOf(v, [98]);
    TwoLookups(u, v);
  }

  function FileNamed(id: nat, name: byte): Item {
    Item(RawTag.Tag(TYPE_REG, id, 1), [name])
  }

  lemma TwoFiles(u: Entry, v: Entry)
    requires u == [Write(TYPE_REG, 1, [97])] && v == [Write(TYPE_REG, 1, [98])]
    ensures Settled(TWO_FILES) && Replay(TWO_FILES) == [u, v] && Replay(TWO_FILES + [DeleteAt(1)]) == [u]
  {
    hide Replay, WellFormed;
    NothingYet();
    Next([], CreateAt(0), [], [[]]);
    Named([[]], 0, 97);
    Next([] + [CreateAt(0)], FileNamed(0, 97), [[]], [u]);
    Next([] + [CreateAt(0)] + [FileNamed(0, 97)], CreateAt(1), [u], [u, []]);
    Named([u, []], 1, 98);
    Next([] + [CreateAt(0)] + [FileNamed(0, 97)] + [CreateAt(1)], FileNamed(1, 98), [u, []], [u, v]);
    assert TWO_FILES == [] + [CreateAt(0)] + [FileNamed(0, 97)] + [CreateAt(1)] + [FileNamed(1, 98)];
    Next(TWO_FILES, DeleteAt(1), [u, v], [u]);
  }

  lemma Named(s: seq<Entry>, id: nat, name: byte)
    requires id < |s| && s[id] == []
    ensures Apply(s, FileNamed(id, name)) == s[id := [Write(TYPE_REG, 1, [name])]]
  {
    assert Extend(s, id + 1) == s;
    assert s[id] + [Write(TYPE_REG, 1, [name])] == [Write(TYPE_REG, 1, [name])];
  }

  lemma NothingYet()
    ensures WellFormed([]) && Replay([]) == []
  {
  }

  lemma NameOf(e: Entry, name: seq<byte>)
    requires e == [Write(TYPE_REG, 1, name)]
    ensures LatestMatch(e, ByType, TYPE_NAME) == Some(Write(TYPE_REG, 1, name))
  {
  }

  lemma TwoLookups(u: Entry, v: Entry)
    ensures LookupEntry([u, v], CodeShift(Some(1), 0), ByType, TYPE_NAME) == LatestMatch(v, ByType, TYPE_NAME)
    ensures LookupEntry([u], 0, ByType, TYPE_NAME) == LatestMatch(u, ByType, TYPE_NAME)
  {
    hide LatestMatch;
  }

  lemma Next(log: seq<Item>, x: Item, s: seq<Entry>, t: seq<Entry>)
    requires WellFormed(log) && Replay(log) == s && Fits(s, x) && Apply(s, x) == t
    ensures WellFormed(log + [x]) && Replay(log + [x]) == t
  {
    hide Replay, WellFormed, Fits, Apply;
    ReplaySnoc(log, x);
  }
}
