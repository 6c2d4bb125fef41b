// What mkdir, remove and deorphan leave in the directories: the entry in question comes or goes,
// and every other one stays.
module Entries {
  import opened Wrappers
  import opened Tags
  import opened Log
  import opened Gstate
  import opened FileSystem
  import opened Orphans
  import opened Directories
  import Split

  // ---- mkdir ----------------------------------------------------------------------------------

  // The entry of a new directory: its name, and a struct of eight bytes, the pair.
  function NewEntry(k: Making): Entry {
    [Write(0x002, |k.name|, k.name), Write(0x200, 8, PairBytes(k.pair))]
  }

  lemma EnteringEntry(log: seq<Item>, k: Making, last: bool)
    requires Settled(log) && k.id <= |Replay(log)| < NO_ID && |k.name| < DELETED_SIZE
    ensures Replay(log + Entering(k.id, k.Name(), k.pair, last)) == Insert(Replay(log), k.id, NewEntry(k))
    ensures Settled(log + Entering(k.id, k.Name(), k.pair, last))
  {
    hide *;
    IsDirName(k);
    StructOf(k.id, k.pair);
    var three := [CreateAt(k.id), k.Name().At(k.id), DirStruct(k.id, k.pair)];
    EntryEnters(log, k.id, k.Name(), DirStruct(k.id, k.pair));
    EnteringIs(k.id, k.Name(), k.pair, last);
    WritesAre(k);
    if last {
      TailAfter(log + three, Split.Tail(k.pair, false));
      assert log + (three + [SoftTail(k.pair)]) == log + three + [SoftTail(k.pair)];
    } else {
      assert three + [] == three;
    }
  }

  lemma WritesAre(k: Making)
    ensures [WriteOf(k.Name()), WriteOf(DirStruct(k.id, k.pair))] == NewEntry(k)
  {
    hide PairBytes;
  }

  // A commit without a move.
  lemma CommitEntries(t: seq<Mdir>, c: nat, attrs: seq<Item>, m: Memory)
    requires c < |t| && !HasMove(m.pending)
    ensures var u := Committed(t, c, attrs, m);
            && |u| == |t| && Replay(u[c].log) == Replay(t[c].log + attrs) && u[c].pair == t[c].pair
            && forall i :: 0 <= i < |t| && i != c ==> u[i] == t[i]
  {
    hide *;
    CommittedIs(t, c, attrs, m);
    CommitReplays(t[c], attrs, m);
    WithMoveIs(t[c], attrs, m);
    NoMoveHere(m.pending, t[c].pair);
    assert attrs + [] == attrs;
  }

  // Where directory i of the thread is when a new one has come in behind p.
  function Behind(p: nat, i: nat): nat {
    if i <= p then i else i + 1
  }

  lemma JoinedAt(t: seq<Mdir>, p: nat, d: Mdir)
    requires p < |t|
    ensures var u := Joined(t, p, d);
            |u| == |t| + 1 && u[p + 1] == d && forall i: nat :: i < |t| ==> u[Behind(p, i)] == t[i]
  {
  }

  lemma NewDirEntries(m: Memory, tail: Split.Tail, pair: Pair)
    requires !HasMove(m.pending)
    ensures Replay(NewDir(m, tail, pair).log) == [] && NewDir(m, tail, pair).pair == pair
  {
    hide *;
    var d, attrs := Mdir(pair, []), [SoftTail(tail.pair)];
    NewDirLog(m, tail, pair);
    CommitReplays(d, attrs, m);
    WithMoveIs(d, attrs, m);
    NoMoveHere(m.pending, pair);
    assert attrs + [] == attrs;
    SoftTailIs(tail.pair);
    TailAfter([], Split.Tail(tail.pair, false));
    NothingAtAll();
  }

  // After mkdir the parent has one entry more, where the search said, that is called as was
  // asked for and names the new pair; this is empty, and every other directory is as it was.
  lemma MakeEntries(t: seq<Mdir>, m: Memory, k: Making)
    requires MakeReady(t, m, k)
    ensures k.c < |t| && Proper(Nodes(t)) && ChainEnd(Nodes(t), k.c) < |t| && k.id <= |Replay(t[k.c].log)|
    ensures var u, p := MakeStates(t, m, k, 2), ChainEnd(Nodes(t), k.c);
            && |u| == |t| + 1 && u[p + 1].pair == k.pair && Replay(u[p + 1].log) == []
            && forall i: nat :: i < |t| ==>
                 && u[Behind(p, i)].pair == t[i].pair
                 && Replay(u[Behind(p, i)].log)
                 == if i == k.c then Insert(Replay(t[i].log), k.id, NewEntry(k)) else Replay(t[i].log)
  {
    hide *;
    MakeParts(t, m, k);
    NodesLength(t);
    var p := ChainEnd(Nodes(t), k.c);
    NewDirEntries(m, TailFound(t[p].log), k.pair);
    ShortEnough(t, m, k);
    BehindIs(p);
    if Nodes(t)[k.c].split {
      MakeTwiceIs(t, m, k);
      MadeOrphan(t, m, k);
      CountedIs(t, m);
      var d, u, a := NewDir(m, TailFound(t[p].log), k.pair), MakeStates(t, m, k, 1), Counted(m);
      CommitEntries(t, p, [SoftTail(k.pair)], a);
      SoftTailIs(k.pair);
      TailAfter(t[p].log, Split.Tail(k.pair, false));
      JoinedAt(Committed(t, p, [SoftTail(k.pair)], a), p, d);
      UncountedIs(u, After(a, t[p].pair));
      EnteringEntry(t[k.c].log, k, false);
      CommitEntries(u, k.c, Entering(k.id, k.Name(), k.pair, false), OrphansPrepared(After(a, t[p].pair), MINUS_ONE));
    } else {
      ChainEndIs(Nodes(t), k.c);
      MakeOnceIs(t, m, k);
      EnteringEntry(t[k.c].log, k, true);
      var n, d := Memory(m.pending, ZERO), NewDir(m, TailFound(t[k.c].log), k.pair);
      CommitEntries(t, k.c, Entering(k.id, k.Name(), k.pair, true), n);
      JoinedAt(Committed(t, k.c, Entering(k.id, k.Name(), k.pair, true), n), k.c, d);
    }
  }

  lemma ShortEnough(t: seq<Mdir>, m: Memory, k: Making)
    requires MakeReady(t, m, k)
    ensures |k.name| < DELETED_SIZE
  {
    hide Clean, Off, HasMove, Count, Consistent, New, WellFormed, AllNamed, Replay;
  }

  lemma BehindIs(p: nat)
    ensures forall i: nat :: Behind(p, i) == if i <= p then i else i + 1
  {
  }

  // ---- dropping -------------------------------------------------------------------------------

  // Where directory i is when that behind p is gone.
  function Ahead(p: nat, i: nat): nat {
    if i <= p then i else i - 1
  }

  // u is v without the directory behind p.
  ghost predicate DropsBehind(v: seq<Mdir>, u: seq<Mdir>, p: nat) {
    && p + 1 < |v| && |u| == |v| - 1
    && forall i: nat :: i < |v| && i != p + 1 ==>
         u[Ahead(p, i)].pair == v[i].pair && Replay(u[Ahead(p, i)].log) == Replay(v[i].log)
  }

  lemma DroppedAt(v: seq<Mdir>, u: seq<Mdir>, p: nat, i: nat)
    requires DropsBehind(v, u, p) && i < |v| && i != p + 1
    ensures Ahead(p, i) < |u| == |v| - 1
    ensures u[Ahead(p, i)].pair == v[i].pair && Replay(u[Ahead(p, i)].log) == Replay(v[i].log)
  {
    hide Replay;
  }

  // Dropping a directory, in a removal, a rename or a deorphaning, leaves the entries of all
  // others.
  lemma DropEntries(t: seq<Mdir>, p: nat, m: Memory)
    requires p + 1 < |t| && !HasMoveHere(m.pending, t[p].pair)
    ensures DropsBehind(t, Dropped(t, p, m), p)
  {
    hide *;
    DroppedEntries(t, p, m);
    DroppedOthers(t, p, m);
    var u := Dropped(t, p, m);
    forall i: nat | i < |t| && i != p + 1
      ensures Ahead(p, i) < |u| && u[Ahead(p, i)].pair == t[i].pair && Replay(u[Ahead(p, i)].log) == Replay(t[i].log)
    {
      AheadIs(p, i);
    }
    IsDropped(t, u, p);
  }

  lemma DroppedOthers(t: seq<Mdir>, p: nat, m: Memory)
    requires p + 1 < |t|
    ensures var u := Dropped(t, p, m);
            && |u| == |t| - 1 && u[p].pair == t[p].pair
            && forall i: nat :: i < |t| && i != p + 1 && i != p ==> u[if i <= p then i else i - 1] == t[i]
  {
    hide *;
    var u := Dropped(t, p, m);
    forall i: nat | i < |t| && i != p + 1 && i != p
      ensures u[if i <= p then i else i - 1] == t[i]
    {
      var j := if i <= p then i else i - 1;
      assert u[j] == t[if j < p then j else j + 1];
    }
  }

  lemma IsDropped(v: seq<Mdir>, u: seq<Mdir>, p: nat)
    requires p + 1 < |v| && |u| == |v| - 1
    requires forall i: nat :: i < |v| && i != p + 1 ==>
               && Ahead(p, i) < |u| && u[Ahead(p, i)].pair == v[i].pair
               && Replay(u[Ahead(p, i)].log) == Replay(v[i].log)
    ensures DropsBehind(v, u, p)
  {
    hide Replay;
  }

  // ---- remove ---------------------------------------------------------------------------------

  // Where directory i is when the entry is gone, and with it its pair if that is empty then.
  function Kept(t: seq<Mdir>, r: Removal, i: nat): nat {
    if Emptied(t, r) && i > r.c then i - 1 else i
  }

  // What directory i has then.
  function Remaining(t: seq<Mdir>, r: Removal, i: nat): seq<Entry>
    requires i < |t| && (i == r.c ==> r.id < |Replay(t[i].log)|)
  {
    if i == r.c then Remove(Replay(t[i].log), r.id) else Replay(t[i].log)
  }

  lemma UnenteredAt(t: seq<Mdir>, m: Memory, r: Removal, i: nat)
    requires RemoveReady(t, m, r) && i < |t| && !(Emptied(t, r) && i == r.c)
    ensures r.c < |t| && r.id < |Replay(t[r.c].log)|
    ensures var u := Unentered(t, m, r);
            && Kept(t, r, i) < |u| && u[Kept(t, r, i)].pair == t[i].pair
            && Replay(u[Kept(t, r, i)].log) == Remaining(t, r, i)
    ensures |Unentered(t, m, r)| == if Emptied(t, r) then |t| - 1 else |t|
  {
    hide *;
    RemoveParts(t, m, r);
    OneOrphan(t, m);
    UnenteredIs(t, m, r);
    RemainingIs(t, r, i);
    KeptIs(t, r, i);
    var o := OrphansPrepared(m, ONE);
    if Emptied(t, r) {
      NoMoveHere(o.pending, t[r.c - 1].pair);
      DropEntries(t, r.c - 1, o);
      DroppedAt(t, Unentered(t, m, r), r.c - 1, i);
      AheadIs(r.c - 1, i);
    } else {
      CommitEntries(t, r.c, [DeleteAt(r.id)], o);
      DeleteReplays(t[r.c].log, r.id);
    }
  }

  lemma RemainingIs(t: seq<Mdir>, r: Removal, i: nat)
    requires i < |t| && (i == r.c ==> r.id < |Replay(t[i].log)|)
    ensures Remaining(t, r, i) == if i == r.c then Remove(Replay(t[i].log), r.id) else Replay(t[i].log)
  {
    hide Replay;
  }

  lemma KeptIs(t: seq<Mdir>, r: Removal, i: nat)
    ensures Kept(t, r, i) == if Emptied(t, r) && i > r.c then i - 1 else i
  {
    hide Emptied;
  }

  lemma AheadIs(p: nat, i: nat)
    ensures Ahead(p, i) == if i <= p then i else i - 1
  {
  }

  // Where directory i is after the removal.
  function Left(t: seq<Mdir>, r: Removal, i: nat): nat {
    if Kept(t, r, i) > Place(t, r) then Kept(t, r, i) - 1 else Kept(t, r, i)
  }

  lemma LeftIs(t: seq<Mdir>, r: Removal, i: nat)
    requires Place(t, r) > 0 && i != r.k && (Emptied(t, r) ==> i != r.c && r.k != r.c)
    ensures Kept(t, r, i) != Place(t, r) && Left(t, r, i) == Ahead(Place(t, r) - 1, Kept(t, r, i))
  {
    hide Emptied;
  }

  // After a removal the entry is gone from its directory, and the directory from the thread;
  // every other one has the entries that it had.
  lemma RemoveEntries(t: seq<Mdir>, m: Memory, r: Removal, i: nat)
    requires RemoveReady(t, m, r) && i < |t| && i != r.k && !(Emptied(t, r) && i == r.c)
    ensures r.c < |t| && r.id < |Replay(t[r.c].log)|
    ensures var u := RemoveStates(t, m, r, 2);
            && |u| == (if Emptied(t, r) then |t| - 2 else |t| - 1)
            && Left(t, r, i) < |u| && u[Left(t, r, i)].pair == t[i].pair
            && Replay(u[Left(t, r, i)].log) == Remaining(t, r, i)
  {
    hide *;
    UnenteredAt(t, m, r, i);
    SecondDrop(t, m, r);
    if Emptied(t, r) {
      PairDropped(t, m, r);
      LastParts(Nodes(t), r.c, r.k);
      RemoveParts(t, m, r);
      IsConsistent(Nodes(t));
      HardDroppedProper(Nodes(t), r.c, r.k);
    }
    LeftIs(t, r, i);
    DroppedAt(Unentered(t, m, r), RemoveStates(t, m, r, 2), Place(t, r) - 1, Kept(t, r, i));
  }

  lemma SecondDrop(t: seq<Mdir>, m: Memory, r: Removal)
    requires RemoveReady(t, m, r)
    ensures r.c < |t| && Place(t, r) > 0
    ensures DropsBehind(Unentered(t, m, r), RemoveStates(t, m, r, 2), Place(t, r) - 1)
  {
    hide *;
    RemoveParts(t, m, r);
    StillThere(t, m, r);
    RemoveStatesAre(t, m, r);
    OneOrphan(t, m);
    OrphanedIs(m);
    if Emptied(t, r) {
      PairDropped(t, m, r);
    } else {
      EntryDeleted(t, m, r);
    }
    var v, p, b := Unentered(t, m, r), Place(t, r) - 1, OrphansPrepared(Orphaned(m), MINUS_ONE);
    UncountedIs(v, Orphaned(m));
    NoMoveHere(b.pending, v[p].pair);
    DropEntries(v, p, b);
  }
}
