// What the operations do to the tails: from a device that has just been formatted on, every one
// names the pair that comes next.
module Threading {
  import opened Wrappers
  import opened Tags
  import opened Log
  import opened Gstate
  import opened FileSystem
  import opened Orphans
  import opened Directories
  import opened Replacing
  import opened Threads
  import Moves = Rename
  import Split
  import Traverse

  // ---- mkdir ----------------------------------------------------------------------------------

  // Pair p goes on at a new directory, and that where p went on.
  lemma JoinTailed(t: seq<Mdir>, p: nat, attrs: seq<Item>, m: Memory, d: Mdir)
    requires Tailed(t) && p < |t| && !IsNull(d.pair) && TailPair(d) == TailPair(t[p])
    requires TailFound(t[p].log + WithMove(t[p], attrs, m)).pair == d.pair
    ensures Tailed(Joined(Committed(t, p, attrs, m), p, d))
  {
    hide *;
    var u := Committed(t, p, attrs, m);
    var own := Mdir(t[p].pair, t[p].log + Written(t[p], attrs, m));
    CommittedIs(t, p, attrs, m);
    WrittenTail(t[p], attrs, m);
    SameTailIs(own, [], m);
    LeadsOne(own);
    LeadsOn([own], d);
    TailedAt(t, p);
    Spliced(t, p, p + 1, [own] + [d]);
    JoinedIs(u, p, d);
    assert t[p := own][..p + 1] + [d] + t[p := own][p + 1..] == t[..p] + ([own] + [d]) + t[p + 1..];
  }

  lemma NewDirTail(m: Memory, tail: Split.Tail, pair: Pair)
    requires !HasMove(m.pending)
    ensures TailPair(NewDir(m, tail, pair)) == tail.pair && NewDir(m, tail, pair).pair == pair
  {
    hide *;
    var d, attrs := Mdir(pair, []), [SoftTail(tail.pair)];
    NewDirLog(m, tail, pair);
    WrittenTail(d, attrs, m);
    FileSystem.IsProper(m.pending);
    MoveIsNoTail([], d, attrs, m);
    SoftTailIs(tail.pair);
    TailAfter([], Split.Tail(tail.pair, false));
    SameTailIs(NewDir(m, tail, pair), [], m);
    SameTailIs(d, attrs, m);
  }

  // What the commit that threads the new directory makes of the tail of its pair.
  lemma LinkTail(d: Mdir, p: Pair, m: Memory)
    requires !HasMove(m.pending)
    ensures TailFound(d.log + WithMove(d, [SoftTail(p)], m)).pair == p
  {
    hide *;
    FileSystem.IsProper(m.pending);
    MoveIsNoTail(d.log, d, [SoftTail(p)], m);
    SoftTailIs(p);
    TailAfter(d.log, Split.Tail(p, false));
  }

  lemma EnterTail(d: Mdir, id: nat, name: Item, p: Pair, last: bool, m: Memory)
    requires Settled(d.log) && id <= |Replay(d.log)| < NO_ID && name.IsName() && !name.tag.IsDelete()
    requires !HasMove(m.pending)
    ensures TailFound(d.log + WithMove(d, Entering(id, name, p, last), m)).pair == if last then p else TailPair(d)
  {
    hide *;
    FileSystem.IsProper(m.pending);
    MoveIsNoTail(d.log, d, Entering(id, name, p, last), m);
    EnteringAfter(d.log, id, name, p, last);
    SameTailIs(d, [], m);
  }

  lemma MakeTailed(t: seq<Mdir>, m: Memory, k: Making, n: nat)
    requires MakeReady(t, m, k) && Tailed(t) && !IsNull(k.pair) && n <= 2
    ensures Proper(Nodes(t)) && Tailed(MakeStates(t, m, k, n))
  {
    hide *;
    MakeParts(t, m, k);
    NodesLength(t);
    if Nodes(t)[k.c].split {
      MakeTwiceIs(t, m, k);
      MadeOrphan(t, m, k);
      MadeWhole(t, m, k);
      CountedIs(t, m);
      var p := ChainEnd(Nodes(t), k.c);
      var u := MakeStates(t, m, k, 1);
      var tail, n2 := TailFound(t[p].log), OrphansPrepared(After(Counted(m), t[p].pair), MINUS_ONE);
      NewDirTail(m, tail, k.pair);
      SameTailIs(t[p], [], m);
      LinkTail(t[p], k.pair, Counted(m));
      JoinTailed(t, p, [SoftTail(k.pair)], Counted(m), NewDir(m, tail, k.pair));
      UncountedIs(u, After(Counted(m), t[p].pair));
      EnterTail(u[k.c], k.id, k.Name(), k.pair, false, n2);
      SameTailIs(u[k.c], Entering(k.id, k.Name(), k.pair, false), n2);
      CommitTailed(u, k.c, Entering(k.id, k.Name(), k.pair, false), n2);
    } else {
      ChainEndIs(Nodes(t), k.c);
      MakeOnceIs(t, m, k);
      var n', tail := Memory(m.pending, ZERO), TailFound(t[k.c].log);
      NewDirTail(m, tail, k.pair);
      SameTailIs(t[k.c], [], m);
      EnterTail(t[k.c], k.id, k.Name(), k.pair, true, n');
      JoinTailed(t, k.c, Entering(k.id, k.Name(), k.pair, true), n', NewDir(m, tail, k.pair));
    }
  }

  // A mkdir whose commits may have had to compact, when the first one has succeeded.
  lemma TryMakeTailed(t: seq<Mdir>, m: Memory, k: Making, link: Room, logs: map<Pair, seq<Item>>, chain: seq<Pair>,
                      u: seq<Mdir>)
    requires MakeReady(t, m, k) && Tailed(t) && !IsNull(k.pair) && link.Valid() && NoneNull(link.unused)
    requires k.c < |t| && Proper(Nodes(t)) && ChainEnd(Nodes(t), k.c) < |t|
    requires var p := ChainEnd(Nodes(t), k.c);
             CommitMakes(t, p, LinkAttrs(t, k), LinkMemory(t, m, k), link, logs, chain, u)
    ensures |u| >= |t|
    ensures var p := ChainEnd(Nodes(t), k.c);
            var at := p + (|u| - |t|);
            at < |u| && Tailed(Joined(u, at, NewDir(m, TailFound(t[p].log), k.pair)))
  {
    hide *;
    MakeParts(t, m, k);
    LinkReady(t, m, k);
    LinkIsIt(t, m, k);
    var p, n, attrs := ChainEnd(Nodes(t), k.c), LinkMemory(t, m, k), LinkAttrs(t, k);
    var tail := TailFound(t[p].log);
    NewDirTail(m, tail, k.pair);
    SameTailIs(t[p], [], n);
    if Nodes(t)[k.c].split {
      LinkTail(t[p], k.pair, n);
    } else {
      EnterTail(t[p], k.id, k.Name(), k.pair, true, n);
    }
    MadeAndJoined(t, p, attrs, n, link, logs, chain, u, NewDir(m, tail, k.pair));
    JoinedIs(u, p + (|u| - |t|), NewDir(m, tail, k.pair));
  }

  // And when the second one has, too.
  lemma TryEnterTailed(t: seq<Mdir>, k: Making, v: seq<Mdir>, n: Memory, enter: Room, logs: map<Pair, seq<Item>>,
                       chain: seq<Pair>, u: seq<Mdir>)
    requires Tailed(v) && k.c < |t| && k.c < |v| && v[k.c] == t[k.c] && Settled(t[k.c].log)
    requires k.id <= |Replay(t[k.c].log)| < NO_ID && |k.name| < DELETED_SIZE && !HasMove(n.pending)
    requires enter.Valid() && NoneNull(enter.unused)
    requires CommitMakes(v, k.c, Entering(k.id, k.Name(), k.pair, false), n, enter, logs, chain, u)
    ensures Tailed(u)
  {
    hide *;
    IsDirName(k);
    EnterTail(v[k.c], k.id, k.Name(), k.pair, false, n);
    SameTailIs(v[k.c], Entering(k.id, k.Name(), k.pair, false), n);
    MadeTailed(v, k.c, Entering(k.id, k.Name(), k.pair, false), n, enter, logs, chain, u);
  }

  // A drop whose commit may have had to compact.
  lemma DirDropTailed(t: seq<Mdir>, p: nat, m: Memory, room: Room, logs: map<Pair, seq<Item>>, chain: seq<Pair>,
                      u: seq<Mdir>)
    requires Tailed(t) && p + 1 < |t| && ProperMove(m.pending) && room.Valid() && NoneNull(room.unused)
    requires CommitMakes(t, p, [Split.TailItem(TailFound(t[p + 1].log))], Inherited(t, p, m), room, logs, chain, u)
    ensures |u| >= |t| && var at := p + 1 + (|u| - |t|); at < |u| && Tailed(u[..at] + u[at + 1..])
  {
    hide *;
    var tail, n := TailFound(t[p + 1].log), Inherited(t, p, m);
    InheritedIs(t, p, m);
    MoveIsNoTail(t[p].log, t[p], [Split.TailItem(tail)], n);
    Split.TailItemIs(t[p].log, tail);
    TailFoundIs(t[p].log + [Split.TailItem(tail)]);
    SameTailIs(t[p + 1], [], n);
    MadeAndDropped(t, p, [Split.TailItem(tail)], n, room, logs, chain, u);
  }

  // ---- remove ---------------------------------------------------------------------------------

  lemma DeleteHasNoTail(id: nat)
    ensures NoTail([DeleteAt(id)])
  {
  }

  lemma RemoveTailed(t: seq<Mdir>, m: Memory, r: Removal, n: nat)
    requires RemoveReady(t, m, r) && Tailed(t) && n <= 2
    ensures r.c < |t| && Tailed(RemoveStates(t, m, r, n))
  {
    hide *;
    RemoveParts(t, m, r);
    UnenteredIs(t, m, r);
    OneOrphan(t, m);
    StillThere(t, m, r);
    RemoveStatesAre(t, m, r);
    OrphanedIs(m);
    var o, b := OrphansPrepared(m, ONE), OrphansPrepared(Orphaned(m), MINUS_ONE);
    CleanParts(t, o);
    if Emptied(t, r) {
      PairDropped(t, m, r);
      EmptiedParts(t, r);
      DropTailed(t, r.c - 1, o);
    } else {
      EntryDeleted(t, m, r);
      DeleteHasNoTail(r.id);
      NoTailSame(t[r.c], [DeleteAt(r.id)], o);
      CommitTailed(t, r.c, [DeleteAt(r.id)], o);
    }
    var u := Unentered(t, m, r);
    UncountedIs(u, Orphaned(m));
    CleanParts(u, b);
    DropTailed(u, Place(t, r) - 1, b);
  }

  // ---- rename and recovery --------------------------------------------------------------------

  lemma AttrsHaveNoTail(t: seq<Mdir>, m: Memory, r: Moves.Plan)
    requires Moves.Ready(t, m, r)
    ensures r.from < |t| && NoTail(Moves.Attrs(t, r))
  {
    hide *;
    Moves.ReadyParts(t, m, r);
    Moves.AttrsFine(t, m, r);
    Moves.AttrsIs(t, r);
    Moves.NoTailAdded(r.replaced, r.newid, r.Name(), Traverse.Moved(t[r.from].log, r.oldid, r.newid));
    HasNoTail(Moves.Attrs(t, r));
  }

  lemma HasNoTail(xs: seq<Item>)
    requires forall i :: 0 <= i < |xs| ==> Kind(xs[i].tag.type3) != TYPE_TAIL
    ensures NoTail(xs)
  {
  }

  lemma NothingHasNoTail()
    ensures NoTail([])
  {
  }

  lemma RenameTailed(t: seq<Mdir>, m: Memory, r: Moves.Plan, n: nat)
    requires Moves.Ready(t, m, r) && Tailed(t)
    ensures r.from < |t| && r.to < |t| && Tailed(Moves.States(t, m, r, n))
  {
    hide *;
    Moves.ReadyParts(t, m, r);
    Moves.StatesAre(t, m, r);
    Moves.StatesEnd(t, m, r, n);
    Moves.Prepared(t, m, r);
    Moves.Memories(t, m, r);
    AttrsHaveNoTail(t, m, r);
    NothingHasNoTail();
    CleanParts(t, Moves.Moving(t, m, r));
    PerformTailed(t, r.to, Moves.Attrs(t, r), Moves.Moving(t, m, r));
    if r.from != r.to {
      var u, o := Moves.States(t, m, r, 1), Moves.Midway(t, m, r);
      CleanParts(u, o);
      PerformTailed(u, r.from, [], o);
    }
  }

  lemma DemoveTailed(t: seq<Mdir>, m: Memory)
    requires Tailed(t) && ProperMove(m.pending)
    ensures Tailed(Moves.Demoved(t, m))
  {
    hide *;
    Moves.DemovedParts(t, m);
    NothingHasNoTail();
    var k := Moves.IndexOf(t, Pair(m.pending.a, m.pending.b), 0);
    if HasMove(m.pending) && k < |t| {
      PerformTailed(t, k, [], m);
    }
  }

  lemma RecoverTailed(t: seq<Mdir>)
    requires Tailed(t) && OnlyStored(Dirs(t)) && ProperMove(Total(Dirs(t)))
    ensures Tailed(Moves.Recovered(t))
  {
    hide *;
    Moves.RecoveredIs(t);
    MountedState(t);
    SameMoveItem(Mounted(t), Total(Dirs(t)));
    SameProper(Total(Dirs(t)), Mounted(t));
    DemoveTailed(t, Memory(Mounted(t), ZERO));
  }

  lemma ReplaceTailed(t: seq<Mdir>, m: Memory, r: Moves.Plan, k: nat, n: nat)
    requires ReplaceReady(t, m, r, k) && Tailed(t) && n <= 3
    ensures r.from < |t| && r.to < |t| && Tailed(ReplaceStates(t, m, r, k, n))
  {
    hide *;
    ReplaceParts(t, m, r, k);
    ReplaceCounted(t, m, r, k);
    Abandons(t, m, r, k);
    ReplaceStatesAre(t, m, r, k, n);
    var o := OrphansPrepared(m, ONE);
    if n < 3 {
      RenameTailed(t, o, r, n);
    } else {
      var u, a, p := Moves.States(t, o, r, 2), Moves.Afterwards(t, o, r), Moves.Placed(t, r, k) - 1;
      RenameTailed(t, o, r, 2);
      Uncounting(u, a, p);
      CleanParts(u, OrphansPrepared(a, MINUS_ONE));
      DropTailed(u, p, OrphansPrepared(a, MINUS_ONE));
    }
  }
}
