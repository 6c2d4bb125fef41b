// The tails of the directories: each names the pair that comes next, and the last one names
// none.
module Threads {
  import opened Wrappers
  import opened Tags
  import opened Log
  import opened Gstate
  import opened FileSystem
  import Split

  // lfs_pair_isnull
  predicate IsNull(p: Pair) {
    p.first == 0xffff_ffff || p.second == 0xffff_ffff
  }

  function TailPair(d: Mdir): Pair {
    TailFound(d.log).pair
  }

  // The pair that comes after directory i.
  function NextPair(t: seq<Mdir>, i: nat, end: Pair): Pair {
    if i + 1 < |t| then t[i + 1].pair else end
  }

  // Following the tails leads from one to the next, and from the last one to end.
  predicate Leads(t: seq<Mdir>, end: Pair) {
    forall i: nat :: i < |t| ==> TailPair(t[i]) == NextPair(t, i, end)
  }

  // No pair is null, and following the tails ends after the last one.
  predicate Tailed(t: seq<Mdir>) {
    && t != [] && Leads(t, TailPair(t[|t| - 1])) && IsNull(TailPair(t[|t| - 1]))
    && forall i :: 0 <= i < |t| ==> !IsNull(t[i].pair)
  }

  lemma TailedParts(t: seq<Mdir>)
    requires Tailed(t)
    ensures t != [] && IsNull(TailFound(t[|t| - 1].log).pair)
    ensures forall i :: 0 <= i < |t| - 1 ==> TailFound(t[i].log).pair == t[i + 1].pair
    ensures forall i :: 0 <= i < |t| ==> !IsNull(t[i].pair) && t[i].pair != TailFound(t[|t| - 1].log).pair
  {
    hide TailFound;
  }

  // A directory without a tail is the last one.
  lemma WithoutTail(d: Mdir)
    requires NoTail(d.log) && !IsNull(d.pair)
    ensures Tailed([d])
  {
    hide TailFound;
    NoTails([], d.log);
    assert [] + d.log == d.log;
    NowhereToGo();
  }

  lemma NowhereToGo()
    ensures IsNull(TailFound([]).pair)
  {
  }

  // ---- replacing a part of the thread ---------------------------------------------------------

  lemma TailedAt(t: seq<Mdir>, i: nat)
    requires Tailed(t) && i < |t|
    ensures !IsNull(t[i].pair)
  {
    hide TailPair, IsNull;
  }

  lemma LeadsAt(t: seq<Mdir>, end: Pair, i: nat)
    requires Leads(t, end) && i < |t|
    ensures TailPair(t[i]) == NextPair(t, i, end)
  {
    hide TailPair;
  }

  lemma IsTailed(t: seq<Mdir>, end: Pair)
    requires t != [] && IsNull(end)
    requires forall i: nat :: i < |t| ==> TailPair(t[i]) == NextPair(t, i, end) && !IsNull(t[i].pair)
    ensures Tailed(t)
  {
    hide TailPair, IsNull;
    assert TailPair(t[|t| - 1]) == end;
    assert forall i: nat :: i < |t| ==> TailPair(t[i]) == NextPair(t, i, end);
  }

  lemma TailedLeads(t: seq<Mdir>)
    requires Tailed(t)
    ensures t != [] && Leads(t, TailPair(t[|t| - 1])) && IsNull(TailPair(t[|t| - 1]))
    ensures forall i :: 0 <= i < |t| ==> !IsNull(t[i].pair)
  {
    hide TailPair, IsNull, Leads;
  }

  // The directories of ds take the place of those from k to j.
  lemma Spliced(t: seq<Mdir>, k: nat, j: nat, ds: seq<Mdir>)
    requires Tailed(t) && k < j <= |t| && ds != [] && ds[0].pair == t[k].pair
    requires Leads(ds, TailPair(t[j - 1])) && forall i :: 0 <= i < |ds| ==> !IsNull(ds[i].pair)
    ensures Tailed(t[..k] + ds + t[j..])
  {
    hide *;
    TailedLeads(t);
    var u := t[..k] + ds + t[j..];
    var end := TailPair(t[|t| - 1]);
    LeadsAt(t, end, j - 1);
    forall i: nat | i < |u|
      ensures TailPair(u[i]) == NextPair(u, i, end) && !IsNull(u[i].pair)
    {
      if i < k {
        LeadsAt(t, end, i);
        InFront(t, k, j, ds, i, end);
      } else if i < k + |ds| {
        LeadsAt(ds, TailPair(t[j - 1]), i - k);
        Within(t, k, j, ds, i, end);
      } else {
        LeadsAt(t, end, i - k - |ds| + j);
        Behind(t, k, j, ds, i, end);
      }
    }
    IsTailed(u, end);
  }

  lemma InFront(t: seq<Mdir>, k: nat, j: nat, ds: seq<Mdir>, i: nat, end: Pair)
    requires i < k < j <= |t| && ds != [] && ds[0].pair == t[k].pair
    ensures var u := t[..k] + ds + t[j..]; u[i] == t[i] && NextPair(u, i, end) == NextPair(t, i, end)
  {
  }

  lemma Within(t: seq<Mdir>, k: nat, j: nat, ds: seq<Mdir>, i: nat, end: Pair)
    requires k < j <= |t| && k <= i < k + |ds|
    ensures var u := t[..k] + ds + t[j..];
            u[i] == ds[i - k] && NextPair(u, i, end) == NextPair(ds, i - k, NextPair(t, j - 1, end))
  {
  }

  lemma Behind(t: seq<Mdir>, k: nat, j: nat, ds: seq<Mdir>, i: nat, end: Pair)
    requires k < j <= |t| && k + |ds| <= i < k + |ds| + |t| - j
    ensures var u, n := t[..k] + ds + t[j..], i - k - |ds| + j;
            u[i] == t[n] && NextPair(u, i, end) == NextPair(t, n, end)
  {
  }

  lemma LeadsOne(d: Mdir)
    ensures Leads([d], TailPair(d))
  {
    hide TailPair;
  }

  lemma LeadsOn(ds: seq<Mdir>, d: Mdir)
    requires Leads(ds, d.pair)
    ensures Leads(ds + [d], TailPair(d))
  {
    hide *;
    var u := ds + [d];
    forall i: nat | i < |u|
      ensures TailPair(u[i]) == NextPair(u, i, TailPair(d))
    {
      OneBehind(ds, d, i, TailPair(d));
      if i < |ds| {
        LeadsAt(ds, d.pair, i);
      }
    }
    DoesLead(u, TailPair(d));
  }

  lemma OneBehind(ds: seq<Mdir>, d: Mdir, i: nat, end: Pair)
    requires i <= |ds|
    ensures i < |ds| ==> (ds + [d])[i] == ds[i] && NextPair(ds + [d], i, end) == NextPair(ds, i, d.pair)
    ensures i == |ds| ==> (ds + [d])[i] == d && NextPair(ds + [d], i, end) == end
  {
  }

  lemma DoesLead(t: seq<Mdir>, end: Pair)
    requires forall i: nat :: i < |t| ==> TailPair(t[i]) == NextPair(t, i, end)
    ensures Leads(t, end)
  {
    hide TailPair;
    assert forall i: nat :: i < |t| ==> TailPair(t[i]) == NextPair(t, i, end);
  }

  // ---- commits --------------------------------------------------------------------------------

  // A commit whose attributes leave the tail.
  predicate SameTail(d: Mdir, attrs: seq<Item>, m: Memory) {
    TailFound(d.log + WithMove(d, attrs, m)).pair == TailPair(d)
  }

  lemma WrittenTail(d: Mdir, attrs: seq<Item>, m: Memory)
    ensures TailFound(d.log + Written(d, attrs, m)) == TailFound(d.log + WithMove(d, attrs, m))
  {
    hide *;
    CommitReplays(d, attrs, m);
    TailFoundIs(d.log + Written(d, attrs, m));
    TailFoundIs(d.log + WithMove(d, attrs, m));
  }

  predicate NoTail(xs: seq<Item>) {
    forall i :: 0 <= i < |xs| ==> Kind(xs[i].tag.type3) != TYPE_TAIL
  }

  // A move that is finished on the way is no tail.
  lemma MoveIsNoTail(log: seq<Item>, d: Mdir, attrs: seq<Item>, m: Memory)
    requires ProperMove(m.pending)
    ensures TailFound(log + WithMove(d, attrs, m)) == TailFound(log + attrs)
  {
    hide *;
    WithMoveIs(d, attrs, m);
    assert attrs + [] == attrs;
    if HasMoveHere(m.pending, d.pair) {
      var x := MoveItem(m.pending);
      MoveDeletes(m.pending, d.pair);
      DeleteKind(x);
      NoTailIn(log + attrs, x);
      assert log + (attrs + [x]) == log + attrs + [x];
    }
  }

  lemma DeleteKind(x: Item)
    requires x.tag.type3 == TYPE_DELETE
    ensures Kind(x.tag.type3) != TYPE_TAIL
  {
  }

  lemma NoTailSame(d: Mdir, attrs: seq<Item>, m: Memory)
    requires NoTail(attrs) && ProperMove(m.pending)
    ensures SameTail(d, attrs, m)
  {
    hide *;
    MoveIsNoTail(d.log, d, attrs, m);
    NoTailParts(attrs);
    NoTails(d.log, attrs);
    SameTailIs(d, attrs, m);
  }

  lemma NoTailParts(xs: seq<Item>)
    requires NoTail(xs)
    ensures forall i :: 0 <= i < |xs| ==> Kind(xs[i].tag.type3) != TYPE_TAIL
  {
  }

  lemma SameTailIs(d: Mdir, attrs: seq<Item>, m: Memory)
    ensures TailPair(d) == TailFound(d.log).pair
    ensures SameTail(d, attrs, m) <==> TailFound(d.log + WithMove(d, attrs, m)).pair == TailPair(d)
  {
    hide TailFound, WithMove;
  }

  lemma CommitTailed(t: seq<Mdir>, k: nat, attrs: seq<Item>, m: Memory)
    requires Tailed(t) && k < |t| && SameTail(t[k], attrs, m)
    ensures Tailed(Committed(t, k, attrs, m))
  {
    hide *;
    var d := Mdir(t[k].pair, t[k].log + Written(t[k], attrs, m));
    CommittedIs(t, k, attrs, m);
    WrittenTail(t[k], attrs, m);
    SameTailIs(t[k], attrs, m);
    SameTailIs(d, [], m);
    LeadsOne(d);
    TailedAt(t, k);
    Spliced(t, k, k + 1, [d]);
    assert t[..k] + [d] + t[k + 1..] == t[k := d];
  }

  // The pair before a dropped one goes on where that went on.
  lemma DropTailed(t: seq<Mdir>, p: nat, m: Memory)
    requires Tailed(t) && p + 1 < |t| && ProperMove(m.pending)
    ensures Tailed(Dropped(t, p, m))
  {
    hide *;
    var tail, n := TailFound(t[p + 1].log), Inherited(t, p, m);
    var attrs := [Split.TailItem(tail)];
    var d := Mdir(t[p].pair, t[p].log + Written(t[p], attrs, n));
    InheritedIs(t, p, m);
    DroppedIs(t, p, m);
    CommittedIs(t, p, attrs, n);
    WrittenTail(t[p], attrs, n);
    MoveIsNoTail(t[p].log, t[p], attrs, n);
    Split.TailItemIs(t[p].log, tail);
    TailFoundIs(t[p].log + attrs);
    SameTailIs(t[p + 1], [], n);
    SameTailIs(d, [], n);
    LeadsOne(d);
    TailedAt(t, p);
    Spliced(t, p, p + 2, [d]);
    var u := t[p := d];
    assert u[..p + 1] + u[p + 2..] == t[..p] + [d] + t[p + 2..];
  }

  lemma PerformTailed(t: seq<Mdir>, k: nat, attrs: seq<Item>, m: Memory)
    requires Tailed(t) && k < |t| && NoTail(attrs) && ProperMove(m.pending)
    ensures Tailed(Performed(t, k, attrs, m))
  {
    hide *;
    PerformedIs(t, k, attrs, m);
    if Empties(t, k, attrs, m) {
      DropTailed(t, k - 1, Memory(m.pending, Unmoved(m, t[k].pair)));
    } else {
      NoTailSame(t[k], attrs, m);
      CommitTailed(t, k, attrs, m);
    }
  }

  // ---- compactions ----------------------------------------------------------------------------

  // What comes of a compaction leads to where the directory went on.
  lemma {:induction false} ChainLeads(logs: map<Pair, seq<Item>>, chain: seq<Pair>, last: Option<Split.Tail>, end: Pair)
    requires Split.Chain(logs, chain, last) && forall i :: 0 <= i < |chain| ==> chain[i] in logs
    requires end == match last { case Some(tail) => tail.pair case None => NULL_PAIR }
    ensures Leads(MdirsOf(logs, chain), end)
    decreases |chain|
  {
    hide *;
    Split.ChainIs(logs, chain, last);
    var d := Mdir(chain[0], logs[chain[0]]);
    TailFoundIs(d.log);
    SameTailIs(d, [], Memory(ZERO, ZERO));
    if |chain| == 1 {
      OneOf(logs, chain);
      LeadsOne(d);
    } else {
      ChainLeads(logs, chain[1..], last, end);
      MoreOf(logs, chain);
      LeadsFrom(d, MdirsOf(logs, chain[1..]), end);
    }
  }

  lemma OneOf(logs: map<Pair, seq<Item>>, chain: seq<Pair>)
    requires |chain| == 1 && chain[0] in logs
    ensures MdirsOf(logs, chain) == [Mdir(chain[0], logs[chain[0]])]
  {
  }

  lemma MoreOf(logs: map<Pair, seq<Item>>, chain: seq<Pair>)
    requires |chain| > 1 && forall i :: 0 <= i < |chain| ==> chain[i] in logs
    ensures var rest := MdirsOf(logs, chain[1..]);
            rest != [] && rest[0].pair == chain[1] && MdirsOf(logs, chain) == [Mdir(chain[0], logs[chain[0]])] + rest
  {
  }

  lemma LeadsFrom(d: Mdir, t: seq<Mdir>, end: Pair)
    requires Leads(t, end) && t != [] && TailPair(d) == t[0].pair
    ensures Leads([d] + t, end)
  {
    hide *;
    var u := [d] + t;
    forall i: nat | i < |u|
      ensures TailPair(u[i]) == NextPair(u, i, end)
    {
      OneInFront(d, t, i, end);
      if i > 0 {
        LeadsAt(t, end, i - 1);
      }
    }
    DoesLead(u, end);
  }

  lemma OneInFront(d: Mdir, t: seq<Mdir>, i: nat, end: Pair)
    requires i < |t| + 1
    ensures ([d] + t)[i] == if i == 0 then d else t[i - 1]
    ensures NextPair([d] + t, i, end) == if i > 0 then NextPair(t, i - 1, end) else if t == [] then end else t[0].pair
  {
  }

  ghost predicate NoneNull(pairs: set<Pair>) {
    forall p :: p in pairs ==> !IsNull(p)
  }

  // The pairs of a compaction, first and foremost the directory's own.
  lemma PackedParts(t: seq<Mdir>, k: nat, log: seq<Item>, room: Room, logs: map<Pair, seq<Item>>, chain: seq<Pair>,
                    u: seq<Mdir>)
    requires k < |t| && PackedInto(t, k, log, room, logs, chain, u)
    ensures chain != [] && chain[0] == t[k].pair && forall i :: 0 <= i < |chain| ==> chain[i] in logs
    ensures u == t[..k] + MdirsOf(logs, chain) + t[k + 1..] && Split.Chain(logs, chain, Split.TailOf(log))
    ensures NoneNull(room.unused) && !IsNull(t[k].pair) ==> forall i :: 0 <= i < |chain| ==> !IsNull(chain[i])
  {
    hide Split.Chain, Split.ChainEntries, Split.SameEntries, Replay, Split.TailOf, IsNull;
    forall i | 0 <= i < |chain|
      ensures i > 0 ==> chain[i] in room.unused
    {
      if i > 0 {
        assert chain[i] == chain[1..][i - 1] && chain[i] in chain[1..];
      }
    }
  }

  // A part of the thread that a compaction has made of a directory.
  lemma PackedLeads(t: seq<Mdir>, k: nat, log: seq<Item>, room: Room, logs: map<Pair, seq<Item>>, chain: seq<Pair>,
                    u: seq<Mdir>)
    requires k < |t| && PackedInto(t, k, log, room, logs, chain, u) && NoneNull(room.unused) && !IsNull(t[k].pair)
    ensures forall i :: 0 <= i < |chain| ==> chain[i] in logs
    ensures var ds := MdirsOf(logs, chain);
            && ds != [] && ds[0].pair == t[k].pair && u == t[..k] + ds + t[k + 1..]
            && Leads(ds, TailFound(log).pair) && (forall i :: 0 <= i < |ds| ==> !IsNull(ds[i].pair))
  {
    hide *;
    PackedParts(t, k, log, room, logs, chain, u);
    TailFoundIs(log);
    ChainLeads(logs, chain, Split.TailOf(log), TailFound(log).pair);
  }

  lemma PackedTailed(t: seq<Mdir>, k: nat, log: seq<Item>, room: Room, logs: map<Pair, seq<Item>>, chain: seq<Pair>,
                     u: seq<Mdir>)
    requires Tailed(t) && k < |t| && PackedInto(t, k, log, room, logs, chain, u) && NoneNull(room.unused)
    requires TailFound(log).pair == TailPair(t[k])
    ensures Tailed(u)
  {
    hide *;
    TailedAt(t, k);
    PackedLeads(t, k, log, room, logs, chain, u);
    Spliced(t, k, k + 1, MdirsOf(logs, chain));
  }

  // A commit to pair k that has succeeded, appended or compacted: what has come of the pair.
  lemma MadeLeads(t: seq<Mdir>, k: nat, attrs: seq<Item>, m: Memory, room: Room, logs: map<Pair, seq<Item>>,
                  chain: seq<Pair>, u: seq<Mdir>)
    returns (ds: seq<Mdir>)
    requires k < |t| && room.Valid() && CommitMakes(t, k, attrs, m, room, logs, chain, u)
    requires NoneNull(room.unused) && !IsNull(t[k].pair)
    ensures ds != [] && ds[0].pair == t[k].pair && u == t[..k] + ds + t[k + 1..]
    ensures Leads(ds, TailFound(t[k].log + WithMove(t[k], attrs, m)).pair)
    ensures forall i :: 0 <= i < |ds| ==> !IsNull(ds[i].pair)
  {
    hide *;
    CommitMakesIs(t, k, attrs, m, room, logs, chain, u);
    if Appends(room, t[k], attrs, m) {
      var d := Mdir(t[k].pair, t[k].log + Written(t[k], attrs, m));
      CommittedIs(t, k, attrs, m);
      WrittenTail(t[k], attrs, m);
      SameTailIs(d, [], m);
      LeadsOne(d);
      ds := [d];
      assert t[k := d] == t[..k] + [d] + t[k + 1..];
    } else {
      PackedLeads(t, k, t[k].log + WithMove(t[k], attrs, m), room, logs, chain, u);
      ds := MdirsOf(logs, chain);
    }
  }

  lemma MadeTailed(t: seq<Mdir>, k: nat, attrs: seq<Item>, m: Memory, room: Room, logs: map<Pair, seq<Item>>,
                   chain: seq<Pair>, u: seq<Mdir>)
    requires Tailed(t) && k < |t| && room.Valid() && CommitMakes(t, k, attrs, m, room, logs, chain, u)
    requires NoneNull(room.unused) && SameTail(t[k], attrs, m)
    ensures Tailed(u)
  {
    hide *;
    TailedAt(t, k);
    SameTailIs(t[k], attrs, m);
    var ds := MadeLeads(t, k, attrs, m, room, logs, chain, u);
    Spliced(t, k, k + 1, ds);
  }

  // A new directory behind it.
  lemma MadeAndJoined(t: seq<Mdir>, p: nat, attrs: seq<Item>, m: Memory, room: Room, logs: map<Pair, seq<Item>>,
                      chain: seq<Pair>, u: seq<Mdir>, d: Mdir)
    requires Tailed(t) && p < |t| && room.Valid() && CommitMakes(t, p, attrs, m, room, logs, chain, u)
    requires NoneNull(room.unused) && !IsNull(d.pair) && TailPair(d) == TailPair(t[p])
    requires TailFound(t[p].log + WithMove(t[p], attrs, m)).pair == d.pair
    ensures |u| >= |t| && var at := p + 1 + (|u| - |t|); at <= |u| && Tailed(u[..at] + [d] + u[at..])
  {
    hide *;
    TailedAt(t, p);
    var ds := MadeLeads(t, p, attrs, m, room, logs, chain, u);
    LeadsOn(ds, d);
    Spliced(t, p, p + 1, ds + [d]);
    OneMore(ds, d);
    Parted(t[..p], ds, t[p + 1..], d);
  }

  lemma OneMore(ds: seq<Mdir>, d: Mdir)
    requires ds != []
    ensures (ds + [d])[0] == ds[0] && forall i :: 0 <= i < |ds| + 1 ==> (ds + [d])[i] == if i < |ds| then ds[i] else d
  {
  }

  lemma Parted<T>(a: seq<T>, ds: seq<T>, c: seq<T>, d: T)
    ensures var u, at := a + ds + c, |a| + |ds|;
            at <= |u| && u[..at] + [d] + u[at..] == a + (ds + [d]) + c
  {
    var u, at := a + ds + c, |a| + |ds|;
    assert u[..at] == a + ds && u[at..] == c;
  }

  // The directory behind it taken out, where the pair goes on where that went on.
  lemma MadeAndDropped(t: seq<Mdir>, p: nat, attrs: seq<Item>, m: Memory, room: Room, logs: map<Pair, seq<Item>>,
                       chain: seq<Pair>, u: seq<Mdir>)
    requires Tailed(t) && p + 1 < |t| && room.Valid() && CommitMakes(t, p, attrs, m, room, logs, chain, u)
    requires NoneNull(room.unused) && TailFound(t[p].log + WithMove(t[p], attrs, m)).pair == TailPair(t[p + 1])
    ensures |u| >= |t| && var at := p + 1 + (|u| - |t|); at < |u| && Tailed(u[..at] + u[at + 1..])
  {
    hide *;
    TailedAt(t, p);
    var ds := MadeLeads(t, p, attrs, m, room, logs, chain, u);
    Spliced(t, p, p + 2, ds);
    WithoutOne(t, p, ds);
  }

  lemma WithoutOne<T>(t: seq<T>, p: nat, ds: seq<T>)
    requires p + 1 < |t|
    ensures var u, at := t[..p] + ds + t[p + 1..], p + |ds|;
            at < |u| && |u| - |t| == |ds| - 1 && u[..at] + u[at + 1..] == t[..p] + ds + t[p + 2..]
  {
    var u, at := t[..p] + ds + t[p + 1..], p + |ds|;
    assert u[..at] == t[..p] + ds && u[at + 1..] == t[p + 2..];
  }
}
