// Finding a name in a directory (lfs_dir_fetchmatch with lfs_dir_find_match): one forward
// pass over the log that keeps track of the best match so far.
module Search {
  import opened Wrappers
  import opened Tags
  import opened Log
  import opened Compaction
  import opened Util
  import Lookup

  // ---- the order of names ---------------------------------------------------------------

  lemma {:induction false} CompareEq(a: seq<byte>, b: seq<byte>)
    ensures Compare(a, b) == Eq <==> a == b
    decreases |a|
  {
    if a != [] && b != [] {
      CompareEq(a[1..], b[1..]);
      assert a == [a[0]] + a[1..] && b == [b[0]] + b[1..];
    }
  }

  lemma {:induction false} CompareFlip(a: seq<byte>, b: seq<byte>)
    ensures Compare(a, b) == Lt <==> Compare(b, a) == Gt
    decreases |a|
  {
    if a != [] && b != [] && a[0] == b[0] {
      CompareFlip(a[1..], b[1..]);
    }
  }

  lemma {:induction false} CompareTrans(a: seq<byte>, b: seq<byte>, c: seq<byte>)
    requires Compare(a, b) == Lt && Compare(b, c) == Lt
    ensures Compare(a, c) == Lt
    decreases |a|
  {
    if a != [] && b != [] && c != [] && a[0] == b[0] && b[0] == c[0] {
      CompareTrans(a[1..], b[1..], c[1..]);
    }
  }

  // Name a is less than b on account of place k, where they differ first: it has a byte there
  // which is less, or b has ended.
  predicate LessAt(a: seq<byte>, b: seq<byte>, k: nat) {
    k < |a| && k <= |b| && a[..k] == b[..k] && (k == |b| || a[k] < b[k])
  }

  lemma OneIsLess(a: seq<byte>, b: seq<byte>, k: nat)
    requires LessAt(a, b, k)
    ensures forall j: nat :: !LessAt(b, a, j)
    ensures a != b
  {
    forall j: nat
      ensures !LessAt(b, a, j)
    {
      if LessAt(b, a, j) {
        if j < k {
          PrefixAt(a, b, k, j);
        } else if k < j {
          PrefixAt(a, b, j, k);
        }
      }
    }
  }

  lemma PrefixAt(a: seq<byte>, b: seq<byte>, k: nat, j: nat)
    requires j < k <= |a| && k <= |b| && a[..k] == b[..k]
    ensures a[j] == b[j]
  {
    assert a[..k][j] == a[j] && b[..k][j] == b[j];
  }

  // lfs_dir_find_match on top of lfs_bd_cmp: the common length first, then the sizes.
  method CompareNames(disk: seq<byte>, name: seq<byte>) returns (res: Cmp)
    ensures res == Compare(disk, name)
    ensures res == Lt <==> exists k: nat :: LessAt(disk, name, k)
    ensures res == Gt <==> exists k: nat :: LessAt(name, disk, k)
    ensures res == Eq <==> disk == name
  {
    hide LessAt;
    var diff := if |name| < |disk| then |name| else |disk|;
    assert disk[0..] == disk && name[0..] == name;
    for i := 0 to diff
      invariant Compare(disk, name) == Compare(disk[i..], name[i..])
      invariant disk[..i] == name[..i]
    {
      if disk[i] != name[i] {
        Decided(disk, name, i);
        return if disk[i] < name[i] then Lt else Gt;
      }
      assert disk[i..][1..] == disk[i + 1..] && name[i..][1..] == name[i + 1..];
    }
    if |name| != |disk| {
      Decided(disk, name, diff);
      return if |name| < |disk| then Lt else Gt;
    }
    assert disk[..diff] == disk && name[..diff] == name;
    NeitherIsLess(disk);
    return Eq;
  }

  lemma Decided(disk: seq<byte>, name: seq<byte>, k: nat)
    requires k <= |disk| && k <= |name| && disk[..k] == name[..k]
    requires if k < |disk| && k < |name| then disk[k] != name[k] else |disk| != |name|
    ensures var less := k < |disk| && (k == |name| || disk[k] < name[k]);
            && disk != name
            && ((exists j: nat :: LessAt(disk, name, j)) <==> less)
            && ((exists j: nat :: LessAt(name, disk, j)) <==> !less)
  {
    if k < |disk| && (k == |name| || disk[k] < name[k]) {
      assert LessAt(disk, name, k);
      OneIsLess(disk, name, k);
    } else {
      assert LessAt(name, disk, k);
      OneIsLess(name, disk, k);
    }
  }

  lemma NeitherIsLess(a: seq<byte>)
    ensures forall k: nat :: !LessAt(a, a, k)
  {
  }

  // ---- sorted directories ---------------------------------------------------------------------

  predicate Named(s: seq<Entry>, i: nat) {
    i < |s| && s[i] != []
  }

  // Matchable names have a chunk below 0x80, which leaves out the superblock's.
  predicate Plain(s: seq<Entry>, i: nat) {
    Named(s, i) && s[i][0].type3 < 0x80
  }

  // Named entries are in order; only the first entry can be the superblock.
  ghost predicate Sorted(s: seq<Entry>) {
    && (forall i :: 0 < i < |s| && Named(s, i) ==> Plain(s, i))
    && (forall i, j :: 0 <= i < j < |s| && Plain(s, i) && Plain(s, j) ==> Compare(s[i][0].data, s[j][0].data) == Lt)
  }

  // Entries that are not less than the name.
  predicate AtLeast(s: seq<Entry>, i: nat, name: seq<byte>) {
    Plain(s, i) && Compare(s[i][0].data, name) != Lt
  }

  predicate Matches(s: seq<Entry>, i: nat, name: seq<byte>) {
    Plain(s, i) && s[i][0].data == name
  }

  // The first entry that is not less than the name, or the end of the directory.
  function Position(s: seq<Entry>, name: seq<byte>, from: nat): (p: nat)
    requires from <= |s|
    ensures from <= p <= |s|
    ensures p < |s| ==> AtLeast(s, p, name)
    ensures forall i :: from <= i < p ==> !AtLeast(s, i, name)
    decreases |s| - from
  {
    if from == |s| || AtLeast(s, from, name) then from else Position(s, name, from + 1)
  }

  // In a sorted directory the position is the number of entries before the name: all that
  // precede it are less (or the superblock), all that follow are greater.
  lemma PositionSplits(s: seq<Entry>, name: seq<byte>, i: nat)
    requires Sorted(s) && i < |s| && Plain(s, i)
    ensures i < Position(s, name, 0) ==> Compare(s[i][0].data, name) == Lt
    ensures i > Position(s, name, 0) ==> Compare(s[i][0].data, name) == Gt
    ensures Matches(s, i, name) ==> i == Position(s, name, 0)
  {
    var p := Position(s, name, 0);
    CompareEq(s[i][0].data, name);
    assert i < p ==> !AtLeast(s, i, name);
    if i > p {
      assert Named(s, p);
      var a, b := s[p][0].data, s[i][0].data;
      assert Compare(a, b) == Lt;
      CompareFlip(a, b);
      CompareFlip(b, name);
      if Compare(b, name) == Lt {
        CompareTrans(a, b, name);
      }
    }
  }

  // Creating the entry at that position keeps the directory sorted.
  lemma InsertKeepsSorted(s: seq<Entry>, name: seq<byte>, h: Entry)
    requires Sorted(s) && AllNamed(s)
    requires h != [] && h[0].type3 < 0x80 && h[0].data == name
    requires forall i :: 0 <= i < |s| ==> !Matches(s, i, name)
    ensures var p := Position(s, name, 0); Sorted(s[..p] + [h] + s[p..])
  {
    var p := Position(s, name, 0);
    var r := s[..p] + [h] + s[p..];
    assert Inserted(s, p, h, r);
    hide Position, Compare, AllNamed;
    forall i | 0 < i < |r| && Named(r, i)
      ensures Plain(r, i)
    {
      if i != p {
        assert Named(s, if i < p then i else i - 1);
      }
    }
    forall i, j | 0 <= i < j < |r| && Plain(r, i) && Plain(r, j)
      ensures Compare(r[i][0].data, r[j][0].data) == Lt
    {
      InsertedPair(s, name, h, p, r, i, j);
    }
  }

  ghost predicate Inserted(s: seq<Entry>, p: nat, h: Entry, r: seq<Entry>) {
    && p <= |s| && |r| == |s| + 1 && r[p] == h
    && (forall i :: 0 <= i < |r| && i != p ==> r[i] == s[if i < p then i else i - 1])
  }

  lemma InsertedPair(s: seq<Entry>, name: seq<byte>, h: Entry, p: nat, r: seq<Entry>, i: nat, j: nat)
    requires Sorted(s) && Inserted(s, p, h, r) && p == Position(s, name, 0) && h != [] && h[0].data == name
    requires forall k :: 0 <= k < |s| ==> !Matches(s, k, name)
    requires i < j < |r| && Plain(r, i) && Plain(r, j)
    ensures Compare(r[i][0].data, r[j][0].data) == Lt
  {
    hide Position, Compare;
    if i == p {
      assert r[j] == s[j - 1];
      GreaterAfter(s, name, j - 1);
    } else if j == p {
      assert r[i] == s[i];
      PositionSplits(s, name, i);
    } else {
      var i', j' := if i < p then i else i - 1, if j < p then j else j - 1;
      assert r[i] == s[i'] && r[j] == s[j'];
      assert Plain(s, i') && Plain(s, j');
    }
  }

  lemma GreaterAfter(s: seq<Entry>, name: seq<byte>, j: nat)
    requires Sorted(s) && Position(s, name, 0) <= j < |s| && Plain(s, j) && !Matches(s, j, name)
    ensures Compare(name, s[j][0].data) == Lt
  {
    PositionSplits(s, name, j);
    CompareFlip(name, s[j][0].data);
    CompareEq(s[j][0].data, name);
  }

  // ---- the pass over the log --------------------------------------------------------------------

  // The best match so far: a tag, and whether it is the name itself (the validity bit) or
  // only the entry to insert before.
  datatype Best = NoBest | Best(tag: RawTag, found: bool) {
    function Id(): nat {
      if NoBest? then NO_ID else tag.id
    }
  }

  // What one attribute does to the best match.
  function Track(best: Best, x: Item, name: seq<byte>): Best {
    if x.IsSplice() then
      if x.tag == RawTag.Tag(TYPE_DELETE, best.Id(), 0) then
        if best.NoBest? then best else best.(found := false)
      else if best.Best? && x.tag.id <= best.tag.id then
        best.(tag := best.tag.(id := if best.tag.id + x.Shift() >= 0 then best.tag.id + x.Shift() else 0))
      else best
    else if x.tag.type3 < 0x80 then
      match Compare(x.data, name)
      case Eq => Best(x.tag, true)
      case Gt => if x.tag.id <= best.Id() then Best(x.tag, false) else best
      case Lt => best
    else best
  }

  // The directory is in order at every point of its log, and once there has been a splice
  // names only fill entries that have been created.
  ghost predicate Orderly(log: seq<Item>) {
    && WellFormed(log)
    && (forall k :: 0 <= k <= |log| ==> SortedAt(log, k))
    && (forall k :: 0 <= k < |log| ==> NoExtension(log, k))
  }

  ghost predicate SortedAt(log: seq<Item>, k: nat)
    requires k <= |log|
  {
    Sorted(Replay(log[..k]))
  }

  predicate Spliced(log: seq<Item>) {
    exists i :: 0 <= i < |log| && log[i].IsSplice()
  }

  ghost predicate NoExtension(log: seq<Item>, k: nat)
    requires k < |log|
  {
    Spliced(log[..k]) && log[k].IsName() ==> log[k].tag.id < |Replay(log[..k])|
  }

  // What the best match means: it is the first entry that is not less than the name; if
  // there is none, its id is past the end.
  ghost predicate Tracks(best: Best, s: seq<Entry>, name: seq<byte>, spliced: bool) {
    var p := Position(s, name, 0);
    if p < |s| then
      best.Best? && best.tag.id == p && best.found == (s[p][0].data == name)
      && (best.found ==> best.tag.type3 == s[p][0].type3)
    else
      best.NoBest? || (!best.found && best.tag.id >= |s| && spliced)
  }

  lemma PositionIs(s: seq<Entry>, name: seq<byte>, p: nat)
    requires p <= |s| && (p < |s| ==> AtLeast(s, p, name))
    requires forall i :: 0 <= i < p ==> !AtLeast(s, i, name)
    ensures Position(s, name, 0) == p
  {
    var q := Position(s, name, 0);
    assert p < q ==> !AtLeast(s, p, name);
  }

  lemma TrackCreate(best: Best, s: seq<Entry>, x: Item, name: seq<byte>, spliced: bool)
    requires Tracks(best, s, name, spliced) && Fits(s, x) && x.tag.type3 == TYPE_CREATE
    ensures Tracks(Track(best, x, name), Apply(s, x), name, true)
  {
    var s', c, p := Apply(s, x), x.tag.id, Position(s, name, 0);
    var p' := if c <= p then p + 1 else p;
    forall i | 0 <= i < p'
      ensures !AtLeast(s', i, name)
    {
      if i < c { assert s'[i] == s[i]; } else if i > c { assert s'[i] == s[i - 1]; }
      assert i != c ==> !AtLeast(s, if i < c then i else i - 1, name);
    }
    assert p < |s| ==> s'[p'] == s[p];
    PositionIs(s', name, p');
  }

  lemma TrackDelete(best: Best, s: seq<Entry>, x: Item, name: seq<byte>, spliced: bool)
    requires Tracks(best, s, name, spliced) && Fits(s, x) && x.tag.type3 == TYPE_DELETE
    requires Sorted(s) && |s| <= NO_ID
    ensures Tracks(Track(best, x, name), Apply(s, x), name, true)
  {
    var s', d, p := Apply(s, x), x.tag.id, Position(s, name, 0);
    var p' := if d < p then p - 1 else p;
    forall i | 0 <= i < p'
      ensures !AtLeast(s', i, name)
    {
      assert s'[i] == s[if i < d then i else i + 1];
      assert !AtLeast(s, if i < d then i else i + 1, name);
    }
    if d == p && p < |s'| {
      assert s'[p] == s[p + 1];
      assert Named(s, p + 1) && Plain(s, p + 1);
      PositionSplits(s, name, p + 1);
      CompareEq(s[p + 1][0].data, name);
    } else if p < |s| && d != p {
      assert s'[p'] == s[p];
    }
    PositionIs(s', name, p');
  }

  lemma TrackName(best: Best, s: seq<Entry>, x: Item, name: seq<byte>, spliced: bool)
    requires Tracks(best, s, name, spliced) && Fits(s, x) && x.IsName()
    requires Sorted(Apply(s, x)) && (spliced ==> x.tag.id < |s|)
    ensures Tracks(Track(best, x, name), Apply(s, x), name, spliced)
  {
    var s', c, p := Apply(s, x), x.tag.id, Position(s, name, 0);
    CompareEq(x.data, name);
    assert s'[c] == [WriteOf(x)] by { ApplyWrite(s, x); }
    forall i | 0 <= i < |s'| && i != c
      ensures s'[i] == if i < |s| then s[i] else []
    {
      ApplyElsewhere(s, x, i);
    }
    assert AtLeast(s', c, name) <==> x.tag.type3 < 0x80 && Compare(x.data, name) != Lt;
    assert forall i :: 0 <= i < |s| && i != c ==> (AtLeast(s', i, name) <==> AtLeast(s, i, name));
    assert forall i :: |s| <= i < |s'| && i != c ==> !AtLeast(s', i, name);
    if !AtLeast(s', c, name) {
      PositionIs(s', name, if p < |s| then p else |s'|);
    } else if c < p || p == |s| {
      PositionIs(s', name, c);
    } else {
      assert c > p && AtLeast(s', p, name);
      PositionIs(s', name, p);
      PositionSplits(s', name, c);
    }
  }

  lemma TrackOther(best: Best, s: seq<Entry>, x: Item, name: seq<byte>, spliced: bool)
    requires Tracks(best, s, name, spliced) && Fits(s, x) && !x.IsName() && !x.IsSplice()
    requires forall i :: 0 <= i < |s| ==> NameFirst(s[i])
    ensures Tracks(Track(best, x, name), Apply(s, x), name, spliced)
  {
    var s', p := Apply(s, x), Position(s, name, 0);
    forall i | 0 <= i < |s|
      ensures AtLeast(s', i, name) <==> AtLeast(s, i, name)
      ensures s[i] != [] ==> s'[i] != [] && s'[i][0] == s[i][0]
    {
      if x.IsAttr() && i == x.tag.id {
        ApplyWrite(s, x);
      } else {
        ApplyElsewhere(s, x, i);
      }
    }
    PositionIs(s', name, p);
  }

  lemma TrackStep(best: Best, log: seq<Item>, k: nat, name: seq<byte>)
    requires Orderly(log) && k < |log|
    requires Tracks(best, Replay(log[..k]), name, Spliced(log[..k]))
    ensures Tracks(Track(best, log[k], name), Replay(log[..k + 1]), name, Spliced(log[..k + 1]))
  {
    hide Tracks, Track, Replay, Sorted;
    var s, x := Replay(log[..k]), log[k];
    WellFormedAt(log, k);
    CountBound(log[..k]);
    NamesComeFirst(log[..k]);
    assert SortedAt(log, k) && SortedAt(log, k + 1) && NoExtension(log, k);
    SplicedStep(log, k);
    if x.tag.type3 == TYPE_CREATE {
      TrackCreate(best, s, x, name, Spliced(log[..k]));
    } else if x.tag.type3 == TYPE_DELETE {
      TrackDelete(best, s, x, name, Spliced(log[..k]));
    } else if x.IsName() {
      TrackName(best, s, x, name, Spliced(log[..k]));
    } else {
      TrackOther(best, s, x, name, Spliced(log[..k]));
    }
  }

  lemma SplicedStep(log: seq<Item>, k: nat)
    requires k < |log|
    ensures Spliced(log[..k + 1]) <==> Spliced(log[..k]) || log[k].IsSplice()
  {
    var a, b := log[..k], log[..k + 1];
    assert b[k] == log[k];
    assert forall i :: 0 <= i < k ==> a[i] == b[i];
  }

  datatype Found = Found(tag: RawTag) | NotHere | PastEnd

  // lfs_dir_fetchmatch for a name, once the log has been read: what was found, and the id
  // of the entry, or the id at which to create it.
  method FindMatch(log: seq<Item>, pendingMove: Option<nat>, name: seq<byte>) returns (r: Found, id: nat)
    requires Orderly(log) && AllNamed(Replay(log))
    requires pendingMove.Some? ==> pendingMove.value < |Replay(log)|
    ensures pendingMove.None? ==>
              var s := Replay(log);
              && id == Position(s, name, 0)
              && (r.Found? <==> exists i :: 0 <= i < |s| && Matches(s, i, name))
              && (r.Found? ==> Matches(s, id, name) && r.tag.id == id && r.tag.type3 == s[id][0].type3)
              && (r == PastEnd <==> id == |s|)
    ensures pendingMove.Some? ==>
              var s := Remove(Replay(log), pendingMove.value);
              && (r.Found? <==> exists i :: 0 <= i < |s| && Matches(s, i, name))
              && (r.Found? ==> id < |s| && Matches(s, id, name) && r.tag.id == id)
              && Position(s, name, 0) <= id && (r.NotHere? ==> id < |Replay(log)|)
              && id == Position(s, name, 0) + (if r == PastEnd then 1 else 0)
  {
    var best, k, count := NoBest, 0, 0;
    assert log[..0] == [] && log[..|log|] == log;
    assert Sorted(Replay(log)) by { assert SortedAt(log, |log|); }
    assert Tracks(NoBest, [], name, false);
    hide Tracks, Replay, Orderly, AllNamed;
    while k < |log|
      invariant 0 <= k <= |log| && count == |Replay(log[..k])|
      invariant Tracks(best, Replay(log[..k]), name, Spliced(log[..k]))
    {
      TrackStep(best, log, k, name);
      count := CountStep(log, k, count);
      best := Track(best, log[k], name);
      k := k + 1;
    }
    r, id := Conclude(log, best, count, pendingMove, name);
  }

  // Names past the end extend the count; splices move it.
  method CountStep(log: seq<Item>, k: nat, count: nat) returns (r: nat)
    requires WellFormed(log) && k < |log| && count == |Replay(log[..k])|
    ensures r == |Replay(log[..k + 1])|
  {
    var x := log[k];
    WellFormedAt(log, k);
    hide Replay;
    r := count;
    if x.IsName() {
      if x.tag.id >= count {
        r := x.tag.id + 1;
      }
    } else if x.IsSplice() {
      r := count + x.Shift();
    }
  }

  // What is returned after the log has been scanned.
  method Conclude(log: seq<Item>, best: Best, count: nat, pendingMove: Option<nat>, name: seq<byte>)
    returns (r: Found, id: nat)
    requires WellFormed(log) && Sorted(Replay(log)) && AllNamed(Replay(log)) && count == |Replay(log)|
    requires pendingMove.Some? ==> pendingMove.value < |Replay(log)|
    requires Tracks(best, Replay(log), name, Spliced(log))
    ensures pendingMove.None? ==>
              var s := Replay(log);
              && id == Position(s, name, 0)
              && (r.Found? <==> exists i :: 0 <= i < |s| && Matches(s, i, name))
              && (r.Found? ==> Matches(s, id, name) && r.tag.id == id && r.tag.type3 == s[id][0].type3)
              && (r == PastEnd <==> id == |s|)
    ensures pendingMove.Some? ==>
              var s := Remove(Replay(log), pendingMove.value);
              && (r.Found? <==> exists i :: 0 <= i < |s| && Matches(s, i, name))
              && (r.Found? ==> id < |s| && Matches(s, id, name) && r.tag.id == id)
              && Position(s, name, 0) <= id && (r.NotHere? ==> id < |Replay(log)|)
              && id == Position(s, name, 0) + (if r == PastEnd then 1 else 0)
  {
    var b := best;
    // the entry that is moving away does not count
    if pendingMove.Some? && b.Best? {
      if pendingMove.value == b.tag.id {
        b := b.(found := false);
      } else if pendingMove.value < b.tag.id {
        b := b.(tag := b.tag.(id := b.tag.id - 1));
      }
    }
    CountBound(log);
    id := if b.Id() < count then b.Id() else count;
    ghost var s := Replay(log);
    hide Replay, WellFormed, AllNamed;
    MatchIsPosition(s, name);
    if b.Best? && b.found {
      r := Found(b.tag);
    } else if b.Id() < count {
      r := NotHere;
    } else {
      r := PastEnd;
    }
    if pendingMove.Some? {
      MatchWithout(s, pendingMove.value, name);
    }
  }

  // Only the entry at the position can match.
  lemma MatchIsPosition(s: seq<Entry>, name: seq<byte>)
    requires Sorted(s)
    ensures var p := Position(s, name, 0);
            && (forall i :: 0 <= i < |s| && Matches(s, i, name) ==> i == p)
            && (p < |s| && s[p][0].data == name ==> Matches(s, p, name))
  {
    forall i | 0 <= i < |s| && Matches(s, i, name)
      ensures i == Position(s, name, 0)
    {
      PositionSplits(s, name, i);
    }
  }

  lemma PositionWithout(s: seq<Entry>, m: nat, name: seq<byte>)
    requires Sorted(s) && AllNamed(s) && m < |s|
    ensures var p := Position(s, name, 0); Position(Remove(s, m), name, 0) == if p <= m then p else p - 1
  {
    var p, t := Position(s, name, 0), Remove(s, m);
    var q := if p <= m then p else p - 1;
    forall i | 0 <= i < |t|
      ensures t[i] == s[if i < m then i else i + 1]
      ensures AtLeast(t, i, name) <==> AtLeast(s, if i < m then i else i + 1, name)
    {
    }
    if q < |t| && p == m {
      assert Named(s, p) && Plain(s, p);
      assert Compare(s[p][0].data, name) != Lt;
      NextAtLeast(s, p, name);
    }
    PositionIs(t, name, q);
  }

  lemma NextAtLeast(s: seq<Entry>, p: nat, name: seq<byte>)
    requires Sorted(s) && p + 1 < |s| && p == Position(s, name, 0) && AllNamed(s)
    ensures AtLeast(s, p + 1, name)
  {
    assert Named(s, p + 1) && Plain(s, p + 1);
    PositionSplits(s, name, p + 1);
  }

  lemma SameMatch(s: seq<Entry>, i: nat, t: seq<Entry>, j: nat, name: seq<byte>)
    requires i < |s| && j < |t| && s[i] == t[j]
    ensures Matches(s, i, name) <==> Matches(t, j, name)
  {
  }

  lemma RemovedAt(s: seq<Entry>, m: nat)
    requires m < |s|
    ensures |Remove(s, m)| == |s| - 1
    ensures forall i :: 0 <= i < |s| - 1 ==> Remove(s, m)[i] == s[if i < m then i else i + 1]
  {
  }

  lemma MatchWithout(s: seq<Entry>, m: nat, name: seq<byte>)
    requires Sorted(s) && AllNamed(s) && m < |s|
    ensures var p, t := Position(s, name, 0), Remove(s, m);
            (forall i :: 0 <= i < |t| && Matches(t, i, name)
              ==> p != m && p < |s| && Matches(s, p, name) && i == if p < m then p else p - 1)
            && (p < |s| && p != m && Matches(s, p, name) ==> Matches(t, if p < m then p else p - 1, name))
            && Position(t, name, 0) == if p <= m then p else p - 1
  {
    hide *;
    PositionWithout(s, m, name);
    var p, t := Position(s, name, 0), Remove(s, m);
    MatchIsPosition(s, name);
    RemovedAt(s, m);
    forall i | 0 <= i < |t| && Matches(t, i, name)
      ensures p != m && p < |s| && Matches(s, p, name) && i == if p < m then p else p - 1
    {
      SameMatch(s, if i < m then i else i + 1, t, i, name);
    }
    if p < |s| && p != m {
      var q := if p < m then p else p - 1;
      SameMatch(s, p, t, q, name);
    }
  }

  // ---- directories over several pairs ---------------------------------------------------------

  // The entries of a directory that is spread over a chain of pairs.
  function Entries(chain: seq<seq<Item>>): seq<Entry> {
    if chain == [] then [] else Entries(chain[..|chain| - 1]) + Replay(chain[|chain| - 1])
  }

  lemma PositionConcat(a: seq<Entry>, b: seq<Entry>, name: seq<byte>)
    ensures Position(a + b, name, 0)
         == if Position(a, name, 0) < |a| then Position(a, name, 0) else |a| + Position(b, name, 0)
  {
    var p, q := Position(a, name, 0), Position(b, name, 0);
    forall i | 0 <= i < |a + b|
      ensures AtLeast(a + b, i, name) <==> if i < |a| then AtLeast(a, i, name) else AtLeast(b, i - |a|, name)
    {
    }
    PositionIs(a + b, name, if p < |a| then p else |a| + q);
  }

  lemma {:induction false} EntriesConcat(a: seq<seq<Item>>, b: seq<seq<Item>>)
    ensures Entries(a + b) == Entries(a) + Entries(b)
    decreases |b|
  {
    hide Replay;
    if b == [] {
      assert a + b == a;
    } else {
      assert (a + b)[..|a + b| - 1] == a + b[..|b| - 1];
      EntriesConcat(a, b[..|b| - 1]);
    }
  }

  // The search for the last name of a path: pair after pair, as long as the name may still
  // come.
  method FindName(chain: seq<seq<Item>>, name: seq<byte>) returns (r: Found, k: nat, id: nat)
    requires chain != [] && forall i :: 0 <= i < |chain| ==> Orderly(chain[i]) && AllNamed(Replay(chain[i]))
    requires Sorted(Entries(chain))
    ensures k < |chain| && id <= |Replay(chain[k])|
    // in the directory as a whole
    ensures var s, at := Entries(chain), |Entries(chain[..k])| + id;
            && at == Position(s, name, 0)
            && (r.Found? <==> exists i :: 0 <= i < |s| && Matches(s, i, name))
            && (r.Found? ==> id < |Replay(chain[k])| && Matches(Replay(chain[k]), id, name) && r.tag.id == id)
  {
    hide *;
    k := 0;
    NoEntries();
    assert chain[..0] == [];
    while true
      invariant k < |chain| && Position(Entries(chain[..k]), name, 0) == |Entries(chain[..k])|
      decreases |chain| - k
    {
      assert chain[..k + 1] == chain[..k] + [chain[k]] && chain == chain[..k + 1] + chain[k + 1..];
      OnePair(chain[k]);
      EntriesConcat(chain[..k], [chain[k]]);
      EntriesConcat(chain[..k + 1], chain[k + 1..]);
      PositionConcat(Entries(chain[..k]), Replay(chain[k]), name);
      PositionConcat(Entries(chain[..k + 1]), Entries(chain[k + 1..]), name);
      r, id := FindMatch(chain[k], None, name);
      FoundHere(Replay(chain[k]), id, name);
      OnlyThere(Entries(chain), Entries(chain[..k]), Replay(chain[k]), Entries(chain[k + 1..]), id, name);
      if r != PastEnd || k == |chain| - 1 {
        assert k == |chain| - 1 ==> chain[k + 1..] == [];
        return;
      }
      k := k + 1;
    }
  }

  lemma NoEntries()
    ensures Entries([]) == [] && forall name :: Position([], name, 0) == 0
  {
  }

  lemma OnePair(log: seq<Item>)
    ensures Entries([log]) == Replay(log)
  {
    hide Replay;
    assert [log][..0] == [];
  }

  lemma FoundHere(s: seq<Entry>, id: nat, name: seq<byte>)
    requires id == Position(s, name, 0)
    ensures id <= |s| && (id < |s| ==> AtLeast(s, id, name))
    ensures Matches(s, id, name) ==> id < |s|
  {
    hide Compare;
  }

  // A match in the whole directory is the one at the position.
  lemma OnlyThere(all: seq<Entry>, a: seq<Entry>, b: seq<Entry>, c: seq<Entry>, id: nat, name: seq<byte>)
    requires Sorted(all) && all == a + b + c && id < |b| ==> AtLeast(b, id, name)
    requires Sorted(all) && all == a + b + c && (id < |b| ==> Position(all, name, 0) == |a| + id)
    ensures id < |b| ==> ((exists i :: 0 <= i < |all| && Matches(all, i, name)) <==> Matches(b, id, name))
    ensures id >= |b| && c == [] && Position(all, name, 0) == |all|
            ==> !exists i :: 0 <= i < |all| && Matches(all, i, name)
  {
    hide Compare;
    MatchIsPosition(all, name);
    if id < |b| {
      assert all[|a| + id] == b[id];
    }
  }

  // ---- logs stay in order ---------------------------------------------------------------------

  lemma OrderlySnoc(log: seq<Item>, x: Item)
    requires Orderly(log) && Fits(Replay(log), x) && Sorted(Apply(Replay(log), x))
    requires Spliced(log) && x.IsName() ==> x.tag.id < |Replay(log)|
    ensures Orderly(log + [x])
  {
    hide Replay, Sorted, Fits;
    var all := log + [x];
    ReplaySnoc(log, x);
    assert all[..|log|] == log && all[..|all|] == all;
    forall k | 0 <= k <= |all|
      ensures SortedAt(all, k)
    {
      if k <= |log| {
        assert all[..k] == log[..k] && SortedAt(log, k);
      }
    }
    forall k | 0 <= k < |all|
      ensures NoExtension(all, k)
    {
      if k < |log| {
        assert all[..k] == log[..k] && NoExtension(log, k);
      }
    }
  }

  // Creating an entry at the id that the search returned: CREATE, then the name.
  lemma CreateStaysOrderly(log: seq<Item>, type3: nat, name: seq<byte>)
    requires Orderly(log) && AllNamed(Replay(log)) && |Replay(log)| < NO_ID
    requires type3 < 0x80 && |name| < DELETED_SIZE
    requires forall i :: 0 <= i < |Replay(log)| ==> !Matches(Replay(log), i, name)
    ensures var s, p := Replay(log), Position(Replay(log), name, 0);
            var named := Item(RawTag.Tag(type3, p, |name|), name);
            && Orderly(log + [CreateAt(p)] + [named])
            && Replay(log + [CreateAt(p)] + [named]) == s[..p] + [[WriteOf(named)]] + s[p..]
  {
    var s, p := Replay(log), Position(Replay(log), name, 0);
    var named := Item(RawTag.Tag(type3, p, |name|), name);
    assert named.IsName() && !named.tag.IsDelete() && |s| < NO_ID;
    hide *;
    OrderlyParts(log);
    NameOf(named);
    InsertKeepsSorted(s, name, [WriteOf(named)]);
    SortedWithGap(s[..p] + [[WriteOf(named)]] + s[p..], p);
    CreateApplies(s, p, named);
    ReplaySnoc(log, CreateAt(p));
    OrderlySnoc(log, CreateAt(p));
    ReplaySnoc(log + [CreateAt(p)], named);
    OrderlySnoc(log + [CreateAt(p)], named);
  }

  lemma OrderlyParts(log: seq<Item>)
    requires Orderly(log)
    ensures WellFormed(log) && Sorted(Replay(log))
  {
    hide Sorted, Replay, WellFormed;
    assert SortedAt(log, |log|) && log[..|log|] == log;
  }

  lemma NameOf(x: Item)
    ensures WriteOf(x) == Write(x.tag.type3, x.tag.size, x.data)
  {
  }

  lemma CreateApplies(s: seq<Entry>, p: nat, named: Item)
    requires AllNamed(s) && p <= |s| < NO_ID && named.IsName() && named.tag.id == p && !named.tag.IsDelete()
    ensures var gap := s[..p] + [[]] + s[p..];
            && Fits(s, CreateAt(p)) && Apply(s, CreateAt(p)) == gap == (s[..p] + [[WriteOf(named)]] + s[p..])[p := []]
            && Fits(gap, named) && Apply(gap, named) == s[..p] + [[WriteOf(named)]] + s[p..] && p < |gap|
    ensures !CreateAt(p).IsName()
  {
    var gap := s[..p] + [[]] + s[p..];
    assert Extend(gap, p + 1) == gap;
    assert gap[p] + [WriteOf(named)] == [WriteOf(named)];
  }

  lemma SortedWithGap(s: seq<Entry>, p: nat)
    requires Sorted(s) && p < |s|
    ensures Sorted(s[p := []])
  {
    var g := s[p := []];
    forall i | 0 < i < |g| && Named(g, i)
      ensures Plain(g, i)
    {
      assert Named(s, i) && Plain(s, i);
    }
    forall i, j | 0 <= i < j < |g| && Plain(g, i) && Plain(g, j)
      ensures Compare(g[i][0].data, g[j][0].data) == Lt
    {
      assert Plain(s, i) && Plain(s, j);
    }
  }

  // Deleting any entry keeps the rest in order.
  lemma DeleteStaysOrderly(log: seq<Item>, id: nat)
    requires Orderly(log) && AllNamed(Replay(log)) && id < |Replay(log)|
    ensures Orderly(log + [DeleteAt(id)])
  {
    var s, x := Replay(log), DeleteAt(id);
    assert Sorted(s) by { assert SortedAt(log, |log|) && log[..|log|] == log; }
    assert Apply(s, x) == Remove(s, id);
    hide Replay, Orderly, Sorted, Apply;
    SortedWithout(s, id);
    OrderlySnoc(log, x);
  }

  lemma SortedWithout(s: seq<Entry>, id: nat)
    requires Sorted(s) && id < |s|
    ensures Sorted(Remove(s, id))
  {
    var t := Remove(s, id);
    forall i | 0 <= i < |t|
      ensures t[i] == s[if i < id then i else i + 1]
    {
    }
    forall i | 0 < i < |t| && Named(t, i)
      ensures Plain(t, i)
    {
      assert Named(s, if i < id then i else i + 1);
    }
    forall i, j | 0 <= i < j < |t| && Plain(t, i) && Plain(t, j)
      ensures Compare(t[i][0].data, t[j][0].data) == Lt
    {
      var i', j' := if i < id then i else i + 1, if j < id then j else j + 1;
      assert Plain(s, i') && Plain(s, j');
    }
  }

  // What a compaction writes is in order from its first tag on, whatever the order in
  // which the entries come, as long as the directory it describes is.
  lemma {:induction false} CompactedIsOrderly(out: seq<Item>)
    requires NamesFirst(out) && Sorted(Replay(out))
    ensures Orderly(out)
    decreases |out|
  {
    hide *;
    if out == [] {
      NothingOrderly();
    } else {
      var init, x := out[..|out| - 1], out[|out| - 1];
      assert out == init + [x];
      NamesFirstInit(out);
      NamesFirstAttrs(out);
      ReplayPlain(out);
      ReplayPlain(init);
      ReplaySnoc(init, x);
      NamesComeFirst(init);
      SortedBefore(Replay(init), x);
      CompactedIsOrderly(init);
      NamesFirstAttrs(init);
      NoSplices(init);
      OrderlySnoc(init, x);
    }
  }

  lemma NoSplices(log: seq<Item>)
    requires forall i :: 0 <= i < |log| ==> log[i].IsAttr()
    ensures !Spliced(log)
  {
  }

  lemma NothingOrderly()
    ensures Orderly([])
  {
    assert SortedAt([], 0);
  }

  lemma SortedBefore(s: seq<Entry>, x: Item)
    requires Fits(s, x) && x.IsAttr() && Sorted(Apply(s, x))
    requires forall i :: 0 <= i < |s| ==> NameFirst(s[i])
    ensures Sorted(s)
  {
    var s' := Apply(s, x);
    ApplyWrite(s, x);
    forall i | 0 <= i < |s| && s[i] != []
      ensures s'[i] != [] && s'[i][0] == s[i][0]
    {
      if i != x.tag.id {
        ApplyElsewhere(s, x, i);
      }
    }
    forall i | 0 < i < |s| && Named(s, i)
      ensures Plain(s, i)
    {
      assert Named(s', i) && Plain(s', i);
    }
    forall i, j | 0 <= i < j < |s| && Plain(s, i) && Plain(s, j)
      ensures Compare(s[i][0].data, s[j][0].data) == Lt
    {
      assert Plain(s', i) && Plain(s', j);
    }
  }

  // ---- names tell entries apart ------------------------------------------------------------------

  lemma {:induction false} NameFound(h: Entry)
    requires NameFirst(h) && h != []
    ensures Lookup.LatestMatch(h, Lookup.ByType, TYPE_NAME) == Some(h[0])
    decreases |h|
  {
    if |h| > 1 {
      var g := h[..|h| - 1];
      assert forall i :: 0 <= i < |g| ==> g[i] == h[i];
      NameFound(g);
    }
  }

  // In a sorted directory lookups of names are always told apart, so while a move is
  // pending they go wrong exactly where Lookup.PendingMoveShift says.
  lemma SortedIsDistinct(s: seq<Entry>)
    requires Sorted(s) && AllNamed(s) && forall i :: 0 <= i < |s| ==> NameFirst(s[i])
    ensures Lookup.Distinct(s, Lookup.ByType, TYPE_NAME)
  {
    forall i | 0 <= i < |s|
      ensures Lookup.LookupEntry(s, i, Lookup.ByType, TYPE_NAME) == Some(s[i][0])
    {
      NameFound(s[i]);
    }
    forall i, j | 0 <= i < j < |s|
      ensures s[i][0] != s[j][0]
    {
      assert Named(s, j) && Plain(s, j);
      if Plain(s, i) {
        CompareEq(s[i][0].data, s[j][0].data);
      }
    }
    hide Lookup.LatestMatch;
  }
}
