// A rename in the place of an empty directory: once its entry is replaced the directory is an
// orphan, which is dropped when the rename is done.
module Replacing {
  import opened Wrappers
  import opened Tags
  import opened Log
  import opened Gstate
  import opened FileSystem
  import opened Orphans
  import opened Directories
  import opened Moves = Rename
  import Words

  // Directory k is what the new name stands for; nothing else refers to it.
  ghost predicate ReplaceReady(t: seq<Mdir>, m: Memory, r: Plan, k: nat) {
    && Ready(t, m, r) && r.replaced && !(r.from == r.to && r.oldid == r.newid) && Count(m.pending.tag) == 0
    && Consistent(Nodes(t)) && Empty(Nodes(t), k) && OnlyParent(Nodes(t), r.to, t[k].pair)
    && OnlyRef(Replay(t[r.to].log), r.newid, t[k].pair)
  }

  // The device before the rename, between its two commits, after them, and when the directory
  // is dropped.
  function ReplaceStates(t: seq<Mdir>, m: Memory, r: Plan, k: nat, n: nat): seq<Mdir>
    requires r.from < |t| && r.to < |t|
  {
    var o := OrphansPrepared(m, ONE);
    var u, j := States(t, o, r, 2), Placed(t, r, k);
    if n < 3 || j == 0 || j >= |u| then States(t, o, r, n)
    else Dropped(u, j - 1, OrphansPrepared(Afterwards(t, o, r), MINUS_ONE))
  }

  lemma ReplaceStatesAre(t: seq<Mdir>, m: Memory, r: Plan, k: nat, n: nat)
    requires r.from < |t| && r.to < |t|
    ensures var o := OrphansPrepared(m, ONE);
            var u, j := States(t, o, r, 2), Placed(t, r, k);
            && (n < 3 ==> ReplaceStates(t, m, r, k, n) == States(t, o, r, n))
            && (n >= 3 && 0 < j < |u| ==> ReplaceStates(t, m, r, k, n)
                                          == Dropped(u, j - 1, OrphansPrepared(Afterwards(t, o, r), MINUS_ONE)))
  {
    hide OrphansPrepared, States, Placed, Afterwards, Dropped;
  }

  // ---- counting the orphan --------------------------------------------------------------------

  lemma ReplaceParts(t: seq<Mdir>, m: Memory, r: Plan, k: nat)
    requires ReplaceReady(t, m, r, k)
    ensures Ready(t, m, r) && r.replaced && (r.from == r.to ==> r.oldid != r.newid) && Count(m.pending.tag) == 0
    ensures Consistent(Nodes(t)) && Proper(Nodes(t)) && Empty(Nodes(t), k) && 0 < k < |t|
    ensures r.from < |t| && r.to < |t| && OnlyParent(Nodes(t), r.to, t[k].pair) && Nodes(t)[k].id == t[k].pair
    ensures OnlyRef(Replay(t[r.to].log), r.newid, t[k].pair)
  {
    hide Apart, Clean, Off, HasMove, Count, Proper, Threaded, Referenced, WellFormed, AllNamed, Replay, RefOf, Head;
  }

  lemma ReadyAlso(t: seq<Mdir>, m: Memory, o: Memory, r: Plan)
    requires Ready(t, m, r) && Clean(t, o) && Off(t, o) == ZERO
    ensures Ready(t, o, r)
  {
    hide Apart, Clean, Off, HasMove, Total, Dirs, WellFormed, AllNamed, Replay, Closed;
  }

  // The rename is one from a state with an orphan.
  lemma ReplaceCounted(t: seq<Mdir>, m: Memory, r: Plan, k: nat)
    requires ReplaceReady(t, m, r, k)
    ensures var o := OrphansPrepared(m, ONE);
            Ready(t, o, r) && Count(o.pending.tag) == 1 && TopBit(o.pending.tag) != 0
    ensures Stored(Words.Plus(m.pending.tag, ONE)) == Stored(m.pending.tag)
  {
    hide *;
    ReplaceParts(t, m, r, k);
    ReadyParts(t, m, r);
    var o := OrphansPrepared(m, ONE);
    OneMore(m.pending.tag);
    OrphansPreparedKeeps(t, m, ONE);
    HasOrphansIs(o.pending);
    TopBitNotZero();
    ReadyAlso(t, m, o, r);
  }

  // ---- references -----------------------------------------------------------------------------

  function RefSet(e: Entry): set<Pair> {
    if RefOf(e).Some? then {RefOf(e).value} else {}
  }

  lemma SameRef(e: Entry, g: Entry)
    requires Latest(e, TYPE_STRUCT) == Latest(g, TYPE_STRUCT)
    ensures RefSet(e) == RefSet(g)
  {
    hide Latest;
  }

  lemma RefAt(s: seq<Entry>, i: nat)
    requires i < |s|
    ensures RefSet(s[i]) <= Refs(s)
  {
    hide RefOf;
  }

  // The entry itself has been replaced.
  lemma OverRefs(s: seq<Entry>, i: nat, p: Pair, e: Entry)
    requires OnlyRef(s, i, p)
    ensures i < |s| && i <= |Remove(s, i)| && Refs(Insert(Remove(s, i), i, e)) == Refs(s) - {p} + RefSet(e)
  {
    hide RefOf, Refs;
    RefsRemove(s, i, p);
    RefsInsert(Remove(s, i), i, e);
  }

  lemma LeftRefs(s: seq<Entry>, i: nat)
    requires i < |s|
    ensures Refs(Remove(s, i)) + RefSet(s[i]) == Refs(s) && (|s| == 1 ==> Refs(s) == RefSet(s[i]))
  {
    hide RefOf;
    assert Insert(Remove(s, i), i, s[i]) == s;
    RefsInsert(Remove(s, i), i, s[i]);
  }

  lemma WithinRefs(s: seq<Entry>, oldid: nat, newid: nat, p: Pair, e: Entry)
    requires OnlyRef(s, newid, p) && oldid < |s| && oldid != newid && RefSet(e) == RefSet(s[oldid])
    ensures Refs(Renamed(s, oldid, true, newid, e)) == Refs(s) - {p}
  {
    hide RefOf, Refs, RefSet;
    var u := s[newid := e];
    assert Insert(Remove(s, newid), newid, e) == u;
    OverRefs(s, newid, p, e);
    LeftRefs(u, oldid);
    var v := Remove(u, oldid);
    assert v[if newid < oldid then newid else newid - 1] == e;
    RefAt(v, if newid < oldid then newid else newid - 1);
    RefAt(s, oldid);
    NotThisOne(s, newid, p, oldid);
  }

  lemma NotThisOne(s: seq<Entry>, i: nat, p: Pair, j: nat)
    requires OnlyRef(s, i, p) && j < |s| && j != i
    ensures p !in RefSet(s[j])
  {
    hide RefOf;
  }

  // ---- nodes ----------------------------------------------------------------------------------

  // What the entry on the move refers to.
  function MovedRefs(t: seq<Mdir>, r: Plan): set<Pair>
    requires r.from < |t| && r.oldid < |Replay(t[r.from].log)|
  {
    RefSet(Replay(t[r.from].log)[r.oldid])
  }

  lemma MovedRefsAre(t: seq<Mdir>, o: Memory, r: Plan)
    requires Ready(t, o, r)
    ensures r.from < |t| && r.oldid < |Replay(t[r.from].log)| && RefSet(MovedEntry(t, r)) == MovedRefs(t, r)
    ensures MovedRefs(t, r) <= Nodes(t)[r.from].refs
  {
    hide Ready, MovedEntry, Replay, Latest, RefSet, Refs, TailFound;
    ReadyParts(t, o, r);
    StructIsContent();
    MovedEntryIsOld(t, o, r, TYPE_STRUCT);
    SameRef(MovedEntry(t, r), Replay(t[r.from].log)[r.oldid]);
    RefAt(Replay(t[r.from].log), r.oldid);
  }

  // The first commit of a rename between two directories.
  lemma FirstNodes(t: seq<Mdir>, o: Memory, r: Plan, p: Pair)
    requires Ready(t, o, r) && r.from != r.to && r.replaced && r.to < |t| && OnlyRef(Replay(t[r.to].log), r.newid, p)
    ensures r.from < |t| && r.oldid < |Replay(t[r.from].log)|
    ensures var s := Nodes(t);
            Nodes(States(t, o, r, 1))
            == s[r.to := Node(s[r.to].id, s[r.to].split, s[r.to].refs - {p} + MovedRefs(t, r))]
  {
    hide *;
    ReadyParts(t, o, r);
    MovedRefsAre(t, o, r);
    FirstCommit(t, o, r);
    FirstTail(t, o, r, r.to);
    OverRefs(Replay(t[r.to].log), r.newid, p, MovedEntry(t, r));
    var u := States(t, o, r, 1);
    assert u == t[r.to := u[r.to]];
    NodesUpdate(t, r.to, u[r.to]);
    NodesAt(t, r.to);
    NodeIs(t[r.to]);
    NodeIs(u[r.to]);
  }

  // The second one, when it does not drop the pair, and when it does.
  lemma SecondNodes(t: seq<Mdir>, o: Memory, r: Plan)
    requires Ready(t, o, r) && r.from != r.to
    ensures r.from < |t| && r.to < |t| && r.oldid < |Replay(t[r.from].log)| && |Nodes(States(t, o, r, 1))| == |t|
    ensures var w, u := Nodes(States(t, o, r, 1)), Nodes(States(t, o, r, 2));
            if Dropping(t, r) then
              && Continues(w, r.from) && u == Drop(w, r.from) && w[r.from].refs == MovedRefs(t, r)
            else
              && |u| == |w| && u == w[r.from := Node(w[r.from].id, w[r.from].split, u[r.from].refs)]
              && u[r.from].refs + MovedRefs(t, r) == w[r.from].refs
  {
    hide *;
    ReadyParts(t, o, r);
    StatesAre(t, o, r);
    Memories(t, o, r);
    Prepared(t, o, r);
    SecondEmpties(t, o, r);
    SecondState(t, o, r);
    DroppingIs(t, r);
    MovedRefsIs(t, r);
    DeleteReplays(t[r.from].log, r.oldid);
    LeftRefs(Replay(t[r.from].log), r.oldid);
    var u, v, n := States(t, o, r, 1), States(t, o, r, 2), Midway(t, o, r);
    NodesLength(u);
    NodesAt(u, r.from);
    NodeIs(u[r.from]);
    if Dropping(t, r) {
      var n' := Memory(n.pending, Unmoved(n, u[r.from].pair));
      PerformedIs(u, r.from, [], n);
      DroppedNodes(u, r.from - 1, n');
      FirstTail(t, o, r, r.from - 1);
      NodesAt(u, r.from - 1);
      NodeIs(u[r.from - 1]);
      DoesContinue(Nodes(u), r.from);
    } else {
      assert v == u[r.from := v[r.from]];
      NodesUpdate(u, r.from, v[r.from]);
      NodeIs(v[r.from]);
    }
  }

  lemma MovedRefsIs(t: seq<Mdir>, r: Plan)
    requires r.from < |t| && r.oldid < |Replay(t[r.from].log)|
    ensures MovedRefs(t, r) == RefSet(Replay(t[r.from].log)[r.oldid])
  {
  }

  lemma DoesContinue(t: Thread, c: nat)
    requires 0 < c < |t| && t[c - 1].split
    ensures Continues(t, c)
  {
  }

  // Within one directory the one commit takes the reference out.
  lemma WithinNodes(t: seq<Mdir>, o: Memory, r: Plan, p: Pair)
    requires Ready(t, o, r) && r.from == r.to && r.replaced && r.oldid != r.newid
    requires r.to < |t| && OnlyRef(Replay(t[r.to].log), r.newid, p)
    ensures Nodes(States(t, o, r, 2)) == Unrefer(Nodes(t), r.to, p)
  {
    hide *;
    ReadyParts(t, o, r);
    StatesAre(t, o, r);
    DroppingIs(t, r);
    WithinDirectory(t, o, r);
    FirstTail(t, o, r, r.to);
    MovedRefsAre(t, o, r);
    MovedRefsIs(t, r);
    WithinRefs(Replay(t[r.to].log), r.oldid, r.newid, p, MovedEntry(t, r));
    var u := States(t, o, r, 2);
    assert u == t[r.to := u[r.to]];
    NodesUpdate(t, r.to, u[r.to]);
    NodesAt(t, r.to);
    NodeIs(t[r.to]);
    NodeIs(u[r.to]);
    UnreferIs(Nodes(t), r.to, p);
  }

  // ---- threads --------------------------------------------------------------------------------

  // References move from one pair to another, where they take the place of that to k.
  ghost predicate Overwritten(s: Thread, w: Thread, from: nat, to: nat, k: nat, xs: set<Pair>) {
    && from < |s| && from != to && xs <= s[from].refs && Empty(s, k) && OnlyParent(s, to, s[k].id)
    && w == s[to := Node(s[to].id, s[to].split, s[to].refs - {s[k].id} + xs)]
  }

  lemma OverwrittenRefs(s: Thread, w: Thread, from: nat, to: nat, k: nat, xs: set<Pair>, q: Pair)
    requires Overwritten(s, w, from, to, k, xs)
    ensures k < |s| && (Referenced(w, q) <==> Referenced(s, q) && q != s[k].id)
  {
    hide Head;
    if Referenced(w, q) {
      var i :| 0 <= i < |w| && q in w[i].refs;
      assert q in s[if i == to && q in xs then from else i].refs;
    }
    if Referenced(s, q) && q != s[k].id {
      var i :| 0 <= i < |s| && q in s[i].refs;
      assert q in w[i].refs;
    }
  }

  lemma OverwrittenShape(s: Thread, w: Thread, from: nat, to: nat, k: nat, xs: set<Pair>)
    requires Overwritten(s, w, from, to, k, xs)
    ensures SameShape(s, w) && Empty(w, k) && w[k].id == s[k].id && from < |s| && to < |s| && k != to
    ensures xs <= w[to].refs && forall i :: 0 <= i < |w| ==> s[k].id !in w[i].refs
  {
  }

  // In the other pair they go, too.
  lemma LeavingAbandons(s: Thread, w: Thread, u: Thread, from: nat, to: nat, k: nat, xs: set<Pair>)
    requires Proper(s) && Overwritten(s, w, from, to, k, xs) && |u| == |w|
    requires u == w[from := Node(w[from].id, w[from].split, u[from].refs)] && u[from].refs + xs == w[from].refs
    ensures Abandoned(s, u, k, k)
  {
    OverwrittenShape(s, w, from, to, k, xs);
    assert SameShape(s, u);
    assert Empty(u, k);
    ShapeThreaded(s, u, s[k].id);
    hide Proper, Head, Threaded, Empty, Overwritten;
    forall q: Pair
      ensures (Threaded(u, q) <==> Threaded(s, q)) && (Referenced(u, q) <==> Referenced(s, q) && q != s[k].id)
    {
      ShapeThreaded(s, u, q);
      OverwrittenRefs(s, w, from, to, k, xs, q);
      if Referenced(w, q) {
        var i :| 0 <= i < |w| && q in w[i].refs;
        assert q in u[if i == from && q in xs then to else i].refs;
      }
      if Referenced(u, q) {
        var i :| 0 <= i < |u| && q in u[i].refs;
        assert q in w[i].refs;
      }
    }
    assert u[k].id == s[k].id;
  }

  // Or the pair itself goes.
  lemma DroppingAbandons(s: Thread, w: Thread, from: nat, to: nat, k: nat, xs: set<Pair>)
    requires Proper(s) && Overwritten(s, w, from, to, k, xs) && Continues(w, from) && w[from].refs == xs
    ensures 0 < from < |w| && Abandoned(s, Drop(w, from), k, Shifted(from, k))
  {
    OverwrittenShape(s, w, from, to, k, xs);
    ShapeThreaded(s, w, s[k].id);
    ContinuesInside(w, from);
    hide Proper, Head, Threaded, Referenced, Empty, Overwritten, Drop, Continues, Shifted;
    assert forall q :: q in w[from].refs ==> q in w[to].refs;
    HardDropAbandons(w, from, k);
    forall q: Pair
      ensures Threaded(w, q) <==> Threaded(s, q)
      ensures Referenced(w, q) <==> Referenced(s, q) && q != s[k].id
    {
      ShapeThreaded(s, w, q);
      OverwrittenRefs(s, w, from, to, k, xs, q);
    }
  }

  // ---- the directory that has been replaced ---------------------------------------------------

  // After the rename it is abandoned.
  lemma ReplacedNodes(t: seq<Mdir>, m: Memory, r: Plan, k: nat)
    requires ReplaceReady(t, m, r, k)
    ensures r.from < |t| && r.to < |t|
    ensures Abandoned(Nodes(t), Nodes(States(t, OrphansPrepared(m, ONE), r, 2)), k, Placed(t, r, k))
  {
    hide *;
    ReplaceParts(t, m, r, k);
    ReplaceCounted(t, m, r, k);
    DroppingIs(t, r);
    PlacedAt(t, r, k);
    var o, p, s := OrphansPrepared(m, ONE), t[k].pair, Nodes(t);
    if r.from == r.to {
      WithinNodes(t, o, r, p);
      UnreferAbandons(s, r.to, k);
    } else {
      MovedRefsAre(t, o, r);
      FirstNodes(t, o, r, p);
      SecondNodes(t, o, r);
      NodesLength(t);
      var w, u, xs := Nodes(States(t, o, r, 1)), Nodes(States(t, o, r, 2)), MovedRefs(t, r);
      IsOverwritten(s, w, r.from, r.to, k, xs);
      if Dropping(t, r) {
        DroppingAbandons(s, w, r.from, r.to, k, xs);
      } else {
        LeavingAbandons(s, w, u, r.from, r.to, k, xs);
      }
    }
  }

  lemma IsOverwritten(s: Thread, w: Thread, from: nat, to: nat, k: nat, xs: set<Pair>)
    requires from < |s| && from != to && xs <= s[from].refs && Empty(s, k) && 0 < k < |s| && OnlyParent(s, to, s[k].id)
    requires to < |s| && w == s[to := Node(s[to].id, s[to].split, s[to].refs - {s[k].id} + xs)]
    ensures Overwritten(s, w, from, to, k, xs)
  {
    hide Empty, OnlyParent;
  }

  lemma PlacedAt(t: seq<Mdir>, r: Plan, k: nat)
    ensures Placed(t, r, k) == if Dropping(t, r) then Shifted(r.from, k) else k
  {
    hide Dropping;
  }

  // ---- what is stored -------------------------------------------------------------------------

  // What is stored about orphans is what is in memory, when nothing but the move differs.
  lemma StoredMove(u: seq<Mdir>, n: Memory)
    requires n.delta == ZERO && MoveIn(Off(u, n)) == Off(u, n)
    ensures Flag(u) <==> TopBit(n.pending.tag) != 0
    ensures Off(u, n) == MoveIn(n.pending) ==> !HasMove(Total(Dirs(u)))
  {
    hide *;
    var x := Off(u, n);
    TotalIs(u, n.pending, x);
    MoveInXor(n.pending, x);
    PersistedParts(n.pending);
    TopOfXor(Persisted(n.pending), x);
    FlagSays(u);
    if x == MoveIn(n.pending) {
      XorSelf(x);
      NothingInZero();
      NoMoveIsNone(Total(Dirs(u)));
    }
  }

  lemma TopOfXor(g: G, x: G)
    requires MoveIn(x) == x
    ensures TopBit(Xor(g, x).tag) == TopBit(g.tag)
  {
    assert Words.And(0x7fff_fc00, 0x8000_0000) == 0;
    hide Words.And, Words.Xor;
    Words.AndXor(g.tag, x.tag, 0x8000_0000);
    Words.AndAnd(x.tag, 0x7fff_fc00, 0x8000_0000);
    Words.AndZero(x.tag);
    Words.XorSelf(Words.And(g.tag, 0x8000_0000));
  }

  lemma SameOrphans(x: bv32, y: bv32)
    requires OrphanBits(x) == OrphanBits(y)
    ensures Count(x) == Count(y) && TopBit(x) == TopBit(y)
  {
    assert Words.And(0x8000_03ff, 0x8000_0000) == 0x8000_0000 && Words.And(0x8000_03ff, 0x3ff) == 0x3ff;
    hide Words.And;
    Words.AndAnd(x, 0x8000_03ff, 0x8000_0000);
    Words.AndAnd(y, 0x8000_03ff, 0x8000_0000);
    Words.AndAnd(x, 0x8000_03ff, 0x3ff);
    Words.AndAnd(y, 0x8000_03ff, 0x3ff);
  }

  // After the rename the bit says that there is an orphan ...
  lemma Abandons(t: seq<Mdir>, m: Memory, r: Plan, k: nat)
    requires ReplaceReady(t, m, r, k)
    ensures r.from < |t| && r.to < |t|
    ensures var o := OrphansPrepared(m, ONE);
            var u, a := States(t, o, r, 2), Afterwards(t, o, r);
            && Flag(u) && Clean(u, a) && a.delta == ZERO && Count(a.pending.tag) == 1
            && Off(u, a) == MoveIn(a.pending) && NowhereMoving(a.pending, u) && 0 < Placed(t, r, k) < |u|
  {
    hide *;
    ReplaceParts(t, m, r, k);
    ReplaceCounted(t, m, r, k);
    ReplacedNodes(t, m, r, k);
    var o := OrphansPrepared(m, ONE);
    Finally(t, o, r);
    var u, a := States(t, o, r, 2), Afterwards(t, o, r);
    MoveInTwice(a.pending);
    StoredMove(u, a);
    SameOrphans(a.pending.tag, o.pending.tag);
    AbandonedConsistent(Nodes(t), Nodes(u), k, Placed(t, r, k));
    NodesLength(u);
  }

  // ... and when it has been dropped, that there is none.
  lemma Replaced(t: seq<Mdir>, m: Memory, r: Plan, k: nat)
    requires ReplaceReady(t, m, r, k)
    ensures r.from < |t| && r.to < |t|
    ensures var u, v := ReplaceStates(t, m, r, k, 2), ReplaceStates(t, m, r, k, 3);
            && 0 < Placed(t, r, k) < |u| && Nodes(v) == Drop(Nodes(u), Placed(t, r, k))
            && !Flag(v) && !HasMove(Total(Dirs(v))) && OnlyStored(Dirs(v))
  {
    hide *;
    Abandons(t, m, r, k);
    var o := OrphansPrepared(m, ONE);
    ReplaceStatesAre(t, m, r, k, 2);
    ReplaceStatesAre(t, m, r, k, 3);
    LastOrphan(States(t, o, r, 2), Afterwards(t, o, r), Placed(t, r, k) - 1);
  }

  lemma LastOrphan(u: seq<Mdir>, a: Memory, p: nat)
    requires p + 1 < |u| && Clean(u, a) && Count(a.pending.tag) == 1 && Off(u, a) == MoveIn(a.pending)
    requires NowhereMoving(a.pending, u)
    ensures var v := Dropped(u, p, OrphansPrepared(a, MINUS_ONE));
            && Nodes(v) == Drop(Nodes(u), p + 1) && !Flag(v) && !HasMove(Total(Dirs(v))) && OnlyStored(Dirs(v))
  {
    hide *;
    Uncounting(u, a, p);
    var b := OrphansPrepared(a, MINUS_ONE);
    DropConserves(u, p, b);
    DroppedNodes(u, p, b);
    MemoryIs(b, u[p].pair);
    var v := Dropped(u, p, b);
    CleanParts(v, After(b, u[p].pair));
    MoveInTwice(a.pending);
    StoredMove(v, After(b, u[p].pair));
  }

  // Taking the orphan back when it is about to be dropped.
  lemma Uncounting(u: seq<Mdir>, a: Memory, p: nat)
    requires Clean(u, a) && Count(a.pending.tag) == 1 && NowhereMoving(a.pending, u) && p < |u|
    ensures var b := OrphansPrepared(a, MINUS_ONE);
            && Clean(u, b) && Off(u, b) == Off(u, a) && MoveIn(b.pending) == MoveIn(a.pending)
            && TopBit(b.pending.tag) == 0 && !HasMoveHere(b.pending, u[p].pair)
    ensures Stored(Words.Plus(a.pending.tag, MINUS_ONE)) == Stored(a.pending.tag)
  {
    hide *;
    var b := OrphansPrepared(a, MINUS_ONE);
    OneLess(a.pending.tag);
    OrphansPreparedKeeps(u, a, MINUS_ONE);
    SameMoveItem(b.pending, a.pending);
    HasOrphansIs(b.pending);
    NotMovingAt(a.pending, u, p);
  }

  // ---- safety ---------------------------------------------------------------------------------

  // At every crash point, finishing the move that may be pending leaves a device that is safe:
  // there is at most one orphan, the bit tells of it, and deorphaning gives the threaded
  // directories of before the rename or those of after it.
  lemma ReplaceIsSafe(t: seq<Mdir>, m: Memory, r: Plan, k: nat, n: nat)
    requires ReplaceReady(t, m, r, k) && n <= 3
    ensures r.from < |t| && r.to < |t|
    ensures var u := Recovered(ReplaceStates(t, m, r, k, n));
            && Safe(DiskOf(u), Nodes(t), Nodes(ReplaceStates(t, m, r, k, 3))) && !HasMove(Total(Dirs(u)))
            && Mountable(ReplaceStates(t, m, r, k, n))
  {
    hide *;
    ReplaceParts(t, m, r, k);
    ReplaceCounted(t, m, r, k);
    ReplacedNodes(t, m, r, k);
    Replaced(t, m, r, k);
    Abandons(t, m, r, k);
    ReplaceStatesAre(t, m, r, k, n);
    ReplaceStatesAre(t, m, r, k, 2);
    ReplaceStatesAre(t, m, r, k, 3);
    var o, j := OrphansPrepared(m, ONE), Placed(t, r, k);
    var s, u, v := Nodes(t), ReplaceStates(t, m, r, k, 2), ReplaceStates(t, m, r, k, 3);
    AbandonedConsistent(s, Nodes(u), k, j);
    ReadyParts(t, o, r);
    StatesAre(t, o, r);
    if n < 3 {
      StatesMount(t, o, r, n);
      RenameIsAtomic(t, o, r, n);
      DiskIs(Recovered(ReplaceStates(t, m, r, k, n)));
      if n == 0 {
        ConsistentIsSafe(DiskOf(t), s, Nodes(v));
      } else {
        AbandonedIsSafe(DiskOf(u), s, Nodes(u), k, j);
      }
    } else {
      IsMountable(v);
      MountedState(v);
      SameMoveItem(Mounted(v), Total(Dirs(v)));
      NothingToDemove(v);
      DiskIs(v);
      ConsistentIsSafe(DiskOf(v), s, Nodes(v));
    }
  }

  // lfs_rename over a directory, from the searches on.
  method Replace(fs: Fs, r: Plan, k: nat) returns (ghost between: seq<Mdir>, ghost renamed: seq<Mdir>)
    requires fs.Valid() && ReplaceReady(fs.thread, fs.Mem(), r, k)
    modifies fs
    ensures r.from < |old(fs.thread)| && r.to < |old(fs.thread)|
    ensures between == ReplaceStates(old(fs.thread), old(fs.Mem()), r, k, 1)
    ensures renamed == ReplaceStates(old(fs.thread), old(fs.Mem()), r, k, 2)
    ensures fs.thread == ReplaceStates(old(fs.thread), old(fs.Mem()), r, k, 3) && fs.Valid()
    ensures Off(fs.thread, fs.Mem()) == ZERO <==> !Dropping(old(fs.thread), r)
  {
    hide *;
    ghost var t, m := fs.thread, fs.Mem();
    fs.MemIs();
    ReplaceParts(t, m, r, k);
    ReplaceCounted(t, m, r, k);
    Abandons(t, m, r, k);
    ReplaceStatesAre(t, m, r, k, 1);
    ReplaceStatesAre(t, m, r, k, 2);
    ReplaceStatesAre(t, m, r, k, 3);
    var place := Placed(fs.thread, r, k);
    // the directory is about to be an orphan
    fs.PrepOrphans(ONE);
    fs.MemIs();
    between := Moves.Rename(fs, r);
    renamed := fs.thread;
    fs.MemIs();
    // and is none any more when it is dropped
    Uncounting(renamed, fs.Mem(), place - 1);
    fs.PrepOrphans(MINUS_ONE);
    fs.MemIs();
    fs.Drop(place - 1);
  }

  // ---- recovery -------------------------------------------------------------------------------

  // Mounting, finishing a move and deorphaning: what every operation after a mount begins with.
  method Recover(t: seq<Mdir>) returns (fs: Fs)
    requires Mountable(t)
    ensures fresh(fs) && fs.Valid() && !HasOrphans(fs.gpending)
    ensures Recovers(DiskOf(Recovered(t)), Nodes(fs.thread))
    ensures Off(fs.thread, fs.Mem()) == Leftover(t, Memory(Mounted(t), ZERO))
  {
    hide *;
    MountableIs(t);
    fs := Moves.Recover(t);
    fs.MemIs();
    RecoveredIs(t);
    MountedState(t);
    ReleasedIs(t, Memory(Mounted(t), ZERO));
    StoredMove(fs.thread, fs.Mem());
    SameOrphans(fs.gpending.tag, Mounted(t).tag);
    HasOrphansIs(fs.gpending);
    HasOrphansIs(Mounted(t));
    FlagSays(t);
    DiskIs(fs.thread);
    Words.MinusSelf(Count(fs.gpending.tag));
    ghost var u := fs.thread;
    ghost var k := Deorphan(fs);
    RecoversBy(DiskOf(u), Nodes(fs.thread), k);
    fs.MemIs();
    HasOrphansIs(fs.gpending);
  }
}
