// The thread of directories against the entries that refer to them: orphans, and what
// linking, referring and dropping do to them.
module Orphans {
  import opened Wrappers
  import opened Gstate

  // One metadata pair of the thread: split says that its tail continues the same
  // directory, refs are the directories that its entries refer to.
  datatype Node = Node(id: Pair, split: bool, refs: set<Pair>)

  type Thread = seq<Node>

  // On the device, with the bit of the global state that says there may be orphans.
  datatype Disk = Disk(thread: Thread, flag: bool)

  predicate Head(t: Thread, i: nat)
    requires i < |t|
  {
    i == 0 || !t[i - 1].split
  }

  ghost predicate Referenced(t: Thread, id: Pair) {
    exists i :: 0 <= i < |t| && id in t[i].refs
  }

  // A threaded directory that no entry refers to.
  ghost predicate Orphan(t: Thread, i: nat) {
    0 < i < |t| && Head(t, i) && !Referenced(t, t[i].id)
  }

  ghost predicate Threaded(t: Thread, id: Pair) {
    exists i: nat :: 0 < i < |t| && Head(t, i) && t[i].id == id
  }

  // Pairs are distinct, and the thread ends.
  predicate Proper(t: Thread) {
    && t != [] && !t[|t| - 1].split
    && forall i, j :: 0 <= i < j < |t| ==> t[i].id != t[j].id
  }

  // Besides the root, the threaded directories are exactly those referred to.
  ghost predicate Consistent(t: Thread) {
    && Proper(t)
    && forall id: Pair :: Threaded(t, id) <==> Referenced(t, id)
  }

  // ---- deorphaning ----------------------------------------------------------------------------

  // lfs_dir_drop: the pair before k takes over the tail of pair k.
  function Drop(t: Thread, k: nat): Thread
    requires 0 < k < |t|
  {
    t[..k - 1] + [t[k - 1].(split := t[k].split)] + t[k + 1..]
  }

  // ---- linking and referring -----------------------------------------------------------------------

  // The last pair of the directory that pair c belongs to.
  function ChainEnd(t: Thread, c: nat): (p: nat)
    requires Proper(t) && c < |t|
    ensures c <= p < |t| && !t[p].split && forall i :: c <= i < p ==> t[i].split
    decreases |t| - c
  {
    if t[c].split then ChainEnd(t, c + 1) else c
  }

  function Link(t: Thread, p: nat, id: Pair): Thread
    requires p < |t|
  {
    t[..p + 1] + [Node(id, false, {})] + t[p + 1..]
  }

  function Refer(t: Thread, c: nat, id: Pair): Thread
    requires c < |t|
  {
    t[c := t[c].(refs := t[c].refs + {id})]
  }

  function Unrefer(t: Thread, c: nat, id: Pair): Thread
    requires c < |t|
  {
    t[c := t[c].(refs := t[c].refs - {id})]
  }

  // ---- recovery -------------------------------------------------------------------------------------

  ghost predicate AtMostOneOrphan(t: Thread) {
    forall i: nat, j: nat :: Orphan(t, i) && Orphan(t, j) ==> i == j
  }

  // What mounting and lfs_fs_deorphan make of a state of the device.
  ghost predicate Recovers(d: Disk, t: Thread) {
    if d.flag && exists k: nat :: Orphan(d.thread, k)
    then exists k: nat ::
           Orphan(d.thread, k) && (forall j: nat :: j < k ==> !Orphan(d.thread, j)) && t == Drop(d.thread, k)
    else t == d.thread
  }

  // A state is safe when it has at most one orphan, the flag tells of it, and recovery
  // leads to one of two threads, both consistent.
  ghost predicate Safe(d: Disk, before: Thread, after: Thread) {
    && AtMostOneOrphan(d.thread)
    && ((exists k: nat :: Orphan(d.thread, k)) ==> d.flag)
    && Consistent(before) && Consistent(after)
    && forall t :: Recovers(d, t) ==> t == before || t == after
  }

  lemma NoOrphans(t: Thread)
    requires Consistent(t)
    ensures forall k: nat :: !Orphan(t, k)
  {
    forall k: nat
      ensures !Orphan(t, k)
    {
      if 0 < k < |t| && Head(t, k) {
        assert Threaded(t, t[k].id);
      }
    }
  }

  lemma ConsistentIsSafe(d: Disk, before: Thread, after: Thread)
    requires Consistent(before) && Consistent(after) && (d.thread == before || d.thread == after)
    ensures Safe(d, before, after)
  {
    NoOrphans(d.thread);
  }

  // ---- linking -----------------------------------------------------------------------------------------

  // A directory that is not in the thread and that nothing refers to.
  ghost predicate New(t: Thread, id: Pair) {
    (forall i :: 0 <= i < |t| ==> t[i].id != id) && !Referenced(t, id)
  }

  lemma LinkedNode(t: Thread, p: nat, id: Pair, i: nat)
    requires p < |t| && !t[p].split && i < |t| + 1
    ensures |Link(t, p, id)| == |t| + 1
    ensures i <= p ==> Link(t, p, id)[i] == t[i] && Head(Link(t, p, id), i) == Head(t, i)
    ensures i == p + 1 ==> Link(t, p, id)[i] == Node(id, false, {}) && Head(Link(t, p, id), i)
    ensures i > p + 1 ==> Link(t, p, id)[i] == t[i - 1] && Head(Link(t, p, id), i) == Head(t, i - 1)
  {
  }

  lemma LinkedRefs(t: Thread, p: nat, id: Pair, r: Pair)
    requires p < |t| && !t[p].split
    ensures Referenced(Link(t, p, id), r) <==> Referenced(t, r)
  {
    var l := Link(t, p, id);
    if Referenced(t, r) {
      var i :| 0 <= i < |t| && r in t[i].refs;
      LinkedNode(t, p, id, if i <= p then i else i + 1);
      assert r in l[if i <= p then i else i + 1].refs;
    }
    if Referenced(l, r) {
      var i :| 0 <= i < |l| && r in l[i].refs;
      LinkedNode(t, p, id, i);
      assert r in t[if i <= p then i else i - 1].refs;
    }
  }

  lemma IsThreaded(t: Thread, i: nat)
    requires 0 < i < |t| && Head(t, i)
    ensures Threaded(t, t[i].id)
  {
    hide Head;
  }

  lemma ThreadedAt(t: Thread, r: Pair) returns (i: nat)
    requires Threaded(t, r)
    ensures 0 < i < |t| && Head(t, i) && t[i].id == r
  {
    hide Head;
    i :| 0 < i < |t| && Head(t, i) && t[i].id == r;
  }

  lemma LinkedThreaded(t: Thread, p: nat, id: Pair, r: Pair)
    requires p < |t| && !t[p].split
    ensures Threaded(Link(t, p, id), r) <==> Threaded(t, r) || r == id
  {
    hide *;
    var l := Link(t, p, id);
    LinkedNode(t, p, id, 0);
    if Threaded(t, r) {
      var i := ThreadedAt(t, r);
      var j := if i <= p then i else i + 1;
      LinkedNode(t, p, id, j);
      IsThreaded(l, j);
    }
    LinkedNode(t, p, id, p + 1);
    IsThreaded(l, p + 1);
    if Threaded(l, r) {
      var i := ThreadedAt(l, r);
      LinkedNode(t, p, id, i);
      if i != p + 1 {
        IsThreaded(t, if i <= p then i else i - 1);
      }
    }
  }

  lemma LinkedProper(t: Thread, p: nat, id: Pair)
    requires Proper(t) && p < |t| && !t[p].split && forall i :: 0 <= i < |t| ==> t[i].id != id
    ensures Proper(Link(t, p, id))
  {
    var l := Link(t, p, id);
    forall i, j | 0 <= i < j < |l|
      ensures l[i].id != l[j].id
    {
      LinkedNode(t, p, id, i);
      LinkedNode(t, p, id, j);
    }
    LinkedNode(t, p, id, |t|);
  }

  // Threaded but not yet referred to: one orphan, and dropping it undoes the link.
  lemma LinkedOrphan(t: Thread, p: nat, id: Pair)
    requires Consistent(t) && New(t, id) && p < |t| && !t[p].split
    ensures Orphan(Link(t, p, id), p + 1) && forall k: nat :: Orphan(Link(t, p, id), k) ==> k == p + 1
    ensures Drop(Link(t, p, id), p + 1) == t
  {
    var l := Link(t, p, id);
    LinkedNode(t, p, id, p + 1);
    LinkedRefs(t, p, id, id);
    forall k: nat | Orphan(l, k)
      ensures k == p + 1
    {
      if k != p + 1 {
        LinkedNode(t, p, id, k);
        LinkedRefs(t, p, id, l[k].id);
        NoOrphans(t);
      }
    }
    assert t[p].(split := false) == t[p];
    assert t[..p + 1] == t[..p] + [t[p]];
    assert l[..p] == t[..p] && l[p] == t[p] && l[p + 2..] == t[p + 1..];
  }

  // ---- referring ------------------------------------------------------------------------------------------

  lemma ReferredRefs(t: Thread, c: nat, id: Pair, r: Pair)
    requires c < |t|
    ensures Referenced(Refer(t, c, id), r) <==> Referenced(t, r) || r == id
  {
    var l := Refer(t, c, id);
    if Referenced(t, r) {
      var i :| 0 <= i < |t| && r in t[i].refs;
      assert r in l[i].refs;
    }
    if r == id {
      assert r in l[c].refs;
    }
    if Referenced(l, r) && r != id {
      var i :| 0 <= i < |l| && r in l[i].refs;
      assert r in t[i].refs;
    }
  }

  // Changing refs changes neither who is threaded nor the shape of the thread.
  ghost predicate SameShape(t: Thread, u: Thread) {
    |t| == |u| && forall i :: 0 <= i < |t| ==> t[i].id == u[i].id && t[i].split == u[i].split
  }

  lemma ShapeThreaded(t: Thread, u: Thread, r: Pair)
    requires SameShape(t, u)
    ensures Threaded(t, r) <==> Threaded(u, r)
    ensures Proper(t) <==> Proper(u)
  {
    if Threaded(t, r) {
      var i: nat :| 0 < i < |t| && Head(t, i) && t[i].id == r;
      assert Head(u, i) && u[i].id == r;
    }
    if Threaded(u, r) {
      var i: nat :| 0 < i < |u| && Head(u, i) && u[i].id == r;
      assert Head(t, i) && t[i].id == r;
    }
  }

  // mkdir as a whole.
  lemma MkdirConsistent(t: Thread, p: nat, c: nat, id: Pair)
    requires Consistent(t) && New(t, id) && c <= p < |t| && !t[p].split
    ensures Consistent(Refer(Link(t, p, id), c, id))
  {
    var l := Link(t, p, id);
    var r := Refer(l, c, id);
    LinkedProper(t, p, id);
    assert SameShape(l, r);
    ShapeThreaded(l, r, id);
    forall q: Pair
      ensures Threaded(r, q) <==> Referenced(r, q)
    {
      ShapeThreaded(l, r, q);
      LinkedThreaded(t, p, id, q);
      LinkedRefs(t, p, id, q);
      ReferredRefs(l, c, id, q);
    }
  }

  lemma LinkedIsSafe(d: Disk, t: Thread, p: nat, id: Pair, after: Thread)
    requires Consistent(t) && Consistent(after) && New(t, id) && p < |t| && !t[p].split
    requires d == Disk(Link(t, p, id), true)
    ensures Safe(d, t, after)
  {
    hide Link, Drop, Consistent, New, Orphan;
    LinkedOrphan(t, p, id);
  }

  lemma IsProper(t: Thread)
    requires Consistent(t)
    ensures Proper(t)
  {
  }

  // ---- dropping ------------------------------------------------------------------------------------------

  // An empty directory of one pair, not the root.
  predicate Empty(t: Thread, k: nat) {
    0 < k < |t| && Head(t, k) && !t[k].split && t[k].refs == {}
  }

  lemma DroppedNode(t: Thread, k: nat, i: nat)
    requires Empty(t, k) && i < |t| - 1
    ensures var u := Drop(t, k);
            && |u| == |t| - 1
            && u[i].id == t[if i < k then i else i + 1].id && u[i].refs == t[if i < k then i else i + 1].refs
            && u[i].split == t[if i < k then i else i + 1].split
            && (Head(u, i) <==> Head(t, if i < k then i else i + 1))
  {
  }

  lemma DroppedRefs(t: Thread, k: nat, r: Pair)
    requires Empty(t, k)
    ensures Referenced(Drop(t, k), r) <==> Referenced(t, r)
  {
    var u := Drop(t, k);
    if Referenced(t, r) {
      var i :| 0 <= i < |t| && r in t[i].refs;
      DroppedNode(t, k, if i < k then i else i - 1);
      assert r in u[if i < k then i else i - 1].refs;
    }
    if Referenced(u, r) {
      var i :| 0 <= i < |u| && r in u[i].refs;
      DroppedNode(t, k, i);
      assert r in t[if i < k then i else i + 1].refs;
    }
  }

  lemma IdsDiffer(t: Thread, i: nat, j: nat)
    requires Proper(t) && i < |t| && j < |t| && i != j
    ensures t[i].id != t[j].id
  {
    assert i < j || j < i;
  }

  lemma EmptyParts(t: Thread, k: nat)
    requires Empty(t, k)
    ensures 0 < k < |t| && Head(t, k) && !t[k].split && t[k].refs == {}
  {
    hide Head;
  }

  lemma DroppedThreaded(t: Thread, k: nat, r: Pair)
    requires Proper(t) && Empty(t, k)
    ensures Threaded(Drop(t, k), r) <==> Threaded(t, r) && r != t[k].id
  {
    hide *;
    EmptyParts(t, k);
    DroppedNode(t, k, 0);
    if Threaded(t, r) && r != t[k].id {
      var i := ThreadedAt(t, r);
      var j := if i < k then i else i - 1;
      DroppedNode(t, k, j);
      IsThreaded(Drop(t, k), j);
    }
    if Threaded(Drop(t, k), r) {
      var i := ThreadedAt(Drop(t, k), r);
      var j := if i < k then i else i + 1;
      DroppedNode(t, k, i);
      IdsDiffer(t, j, k);
      IsThreaded(t, j);
    }
  }

  lemma DroppedProper(t: Thread, k: nat)
    requires Proper(t) && Empty(t, k)
    ensures Proper(Drop(t, k))
  {
    var u := Drop(t, k);
    forall i, j | 0 <= i < j < |u|
      ensures u[i].id != u[j].id
    {
      DroppedNode(t, k, i);
      DroppedNode(t, k, j);
    }
    DroppedNode(t, k, |t| - 2);
  }

  // Pair c is the only one that refers to a directory.
  ghost predicate OnlyParent(t: Thread, c: nat, id: Pair) {
    c < |t| && id in t[c].refs && forall i :: 0 <= i < |t| && i != c ==> id !in t[i].refs
  }

  lemma UnreferredRefs(t: Thread, c: nat, id: Pair, r: Pair)
    requires OnlyParent(t, c, id)
    ensures Referenced(Unrefer(t, c, id), r) <==> Referenced(t, r) && r != id
  {
    var l := Unrefer(t, c, id);
    if Referenced(t, r) && r != id {
      var i :| 0 <= i < |t| && r in t[i].refs;
      assert r in l[i].refs;
    }
    if Referenced(l, r) {
      var i :| 0 <= i < |l| && r in l[i].refs;
      assert r in t[i].refs;
    }
  }

  // ---- a directory that nothing refers to any more ----------------------------------------------------

  // In u directory k of t, now at j, is no longer referred to, and that is all that has changed
  // for the directories.
  ghost predicate Abandoned(t: Thread, u: Thread, k: nat, j: nat) {
    && k < |t| && Proper(u) && Empty(u, j) && u[j].id == t[k].id
    && forall q: Pair ::
         (Threaded(u, q) <==> Threaded(t, q)) && (Referenced(u, q) <==> Referenced(t, q) && q != t[k].id)
  }

  // It is the only orphan.
  lemma AbandonedOrphan(t: Thread, u: Thread, k: nat, j: nat)
    requires Consistent(t) && Abandoned(t, u, k, j)
    ensures Orphan(u, j) && forall i: nat :: Orphan(u, i) ==> i == j
  {
    hide Proper, Empty, Threaded, Referenced, Head;
    EmptyParts(u, j);
    forall i: nat | Orphan(u, i)
      ensures i == j
    {
      if i != j {
        IsThreaded(u, i);
        IdsDiffer(u, i, j);
      }
    }
  }

  // Dropping it leaves a consistent thread.
  lemma AbandonedConsistent(t: Thread, u: Thread, k: nat, j: nat)
    requires Consistent(t) && Abandoned(t, u, k, j)
    ensures 0 < j < |u| && Consistent(Drop(u, j))
  {
    hide Proper, Empty, Threaded, Referenced, Drop;
    EmptyParts(u, j);
    DroppedProper(u, j);
    forall q: Pair
      ensures Threaded(Drop(u, j), q) <==> Referenced(Drop(u, j), q)
    {
      DroppedThreaded(u, j, q);
      DroppedRefs(u, j, q);
    }
  }

  // So with the bit set it is recovered from.
  lemma AbandonedIsSafe(d: Disk, t: Thread, u: Thread, k: nat, j: nat)
    requires Consistent(t) && Abandoned(t, u, k, j) && d == Disk(u, true)
    ensures 0 < j < |u| && Safe(d, t, Drop(u, j))
  {
    AbandonedConsistent(t, u, k, j);
    AbandonedOrphan(t, u, k, j);
    hide Abandoned, Drop, Consistent, Orphan;
  }

  // With its entry gone, a directory is.
  lemma UnreferAbandons(t: Thread, c: nat, k: nat)
    requires Consistent(t) && Empty(t, k) && OnlyParent(t, c, t[k].id)
    ensures Abandoned(t, Unrefer(t, c, t[k].id), k, k)
  {
    var id := t[k].id;
    var l := Unrefer(t, c, id);
    assert SameShape(t, l);
    assert Empty(l, k);
    ShapeThreaded(t, l, id);
    hide Threaded, Referenced, Unrefer, Head;
    forall q: Pair
      ensures (Threaded(l, q) <==> Threaded(t, q)) && (Referenced(l, q) <==> Referenced(t, q) && q != id)
    {
      ShapeThreaded(t, l, q);
      UnreferredRefs(t, c, id, q);
    }
  }

  // So it is the only orphan, and dropping it leaves a consistent thread.
  lemma UnreferredOrphan(t: Thread, c: nat, k: nat)
    requires Consistent(t) && Empty(t, k) && OnlyParent(t, c, t[k].id)
    ensures var l := Unrefer(t, c, t[k].id);
            && 0 < k < |l| && Orphan(l, k) && (forall j: nat :: Orphan(l, j) ==> j == k) && Consistent(Drop(l, k))
  {
    hide Proper, Threaded, Referenced, Empty, Drop, Abandoned, Orphan;
    EmptyParts(t, k);
    UnreferAbandons(t, c, k);
    AbandonedOrphan(t, Unrefer(t, c, t[k].id), k, k);
    AbandonedConsistent(t, Unrefer(t, c, t[k].id), k, k);
  }

  // ---- dropping a pair that continues a directory -------------------------------------------------

  predicate Continues(t: Thread, c: nat) {
    0 < c < |t| && t[c - 1].split
  }

  // Where a directory is in the thread afterwards.
  function Shifted(c: nat, k: nat): nat {
    if k > c then k - 1 else k
  }

  lemma HardDropped(t: Thread, c: nat, i: nat)
    requires Continues(t, c) && i < |t| - 1
    ensures 0 < c < |t| && !Head(t, c)
    ensures var u := Drop(t, c);
            && |u| == |t| - 1
            && u[i].id == t[if i < c then i else i + 1].id && u[i].refs == t[if i < c then i else i + 1].refs
            && (Head(u, i) <==> Head(t, if i < c then i else i + 1))
            && (i != c - 1 ==> u[i].split == t[if i < c then i else i + 1].split)
            && (i == c - 1 ==> u[i].split == t[c].split)
  {
  }

  lemma ContinuesInside(t: Thread, c: nat)
    requires Continues(t, c)
    ensures 0 < c < |t|
  {
  }

  // The references of all other pairs stay.
  lemma HardDroppedRefs(t: Thread, c: nat, r: Pair)
    requires Continues(t, c)
    ensures 0 < c < |t| && (Referenced(Drop(t, c), r) <==> exists i :: 0 <= i < |t| && i != c && r in t[i].refs)
  {
    hide Head, Drop, Continues;
    ContinuesInside(t, c);
    var u := Drop(t, c);
    HardDropped(t, c, 0);
    if i :| 0 <= i < |t| && i != c && r in t[i].refs {
      HardDropped(t, c, if i < c then i else i - 1);
      assert r in u[if i < c then i else i - 1].refs;
    }
    if Referenced(u, r) {
      var i :| 0 <= i < |u| && r in u[i].refs;
      HardDropped(t, c, i);
      assert r in t[if i < c then i else i + 1].refs;
    }
  }

  lemma HardDroppedThreaded(t: Thread, c: nat, r: Pair)
    requires Continues(t, c)
    ensures 0 < c < |t| && (Threaded(Drop(t, c), r) <==> Threaded(t, r))
  {
    hide *;
    ContinuesInside(t, c);
    HardDropped(t, c, 0);
    if Threaded(t, r) {
      var i := ThreadedAt(t, r);
      var j := if i < c then i else i - 1;
      HardDropped(t, c, j);
      IsThreaded(Drop(t, c), j);
    }
    if Threaded(Drop(t, c), r) {
      var i := ThreadedAt(Drop(t, c), r);
      HardDropped(t, c, i);
      IsThreaded(t, if i < c then i else i + 1);
    }
  }

  lemma HardDroppedProper(t: Thread, c: nat, k: nat)
    requires Proper(t) && Continues(t, c) && Empty(t, k)
    ensures 0 < c < |t| && k != c
    ensures Proper(Drop(t, c)) && Empty(Drop(t, c), Shifted(c, k)) && Drop(t, c)[Shifted(c, k)].id == t[k].id
  {
    var u := Drop(t, c);
    forall i, j | 0 <= i < j < |u|
      ensures u[i].id != u[j].id
    {
      HardDropped(t, c, i);
      HardDropped(t, c, j);
    }
    HardDropped(t, c, |t| - 2);
    HardDropped(t, c, Shifted(c, k));
  }

  // When the references of the pair are elsewhere, too, but for that to an empty directory,
  // only this is abandoned.
  lemma HardDropAbandons(t: Thread, c: nat, k: nat)
    requires Proper(t) && Continues(t, c) && Empty(t, k)
    requires forall i :: 0 <= i < |t| && i != c ==> t[k].id !in t[i].refs
    requires forall q :: q in t[c].refs && q != t[k].id ==> exists i :: 0 <= i < |t| && i != c && q in t[i].refs
    ensures 0 < c < |t| && Abandoned(t, Drop(t, c), k, Shifted(c, k))
  {
    HardDroppedProper(t, c, k);
    hide Proper, Empty, Continues, Head, Drop, Threaded, Shifted;
    var u := Drop(t, c);
    forall q: Pair
      ensures (Threaded(u, q) <==> Threaded(t, q)) && (Referenced(u, q) <==> Referenced(t, q) && q != t[k].id)
    {
      HardDroppedThreaded(t, c, q);
      HardDroppedRefs(t, c, q);
      if Referenced(t, q) && q != t[k].id {
        var i :| 0 <= i < |t| && q in t[i].refs;
      }
    }
  }

  // The entry was the only one in its pair, which is not the first of its directory: the
  // pair is dropped with it.
  ghost predicate LastInPair(t: Thread, c: nat, k: nat) {
    Empty(t, k) && OnlyParent(t, c, t[k].id) && Continues(t, c) && t[c].refs == {t[k].id}
  }

  // The directory is the only orphan then, too, and dropping it leaves a consistent thread.
  lemma HardDroppedIsSafe(d: Disk, t: Thread, c: nat, k: nat)
    requires Consistent(t) && LastInPair(t, c, k)
    ensures 0 < c < |t| && 0 < Shifted(c, k) < |Drop(t, c)|
    ensures Consistent(Drop(Drop(t, c), Shifted(c, k)))
    ensures d == Disk(Drop(t, c), true) ==> Safe(d, t, Drop(Drop(t, c), Shifted(c, k)))
  {
    hide Proper, Threaded, Referenced, Empty, Continues, Drop, Abandoned, Safe, Shifted;
    IsProper(t);
    HardDropAbandons(t, c, k);
    AbandonedConsistent(t, Drop(t, c), k, Shifted(c, k));
    if d == Disk(Drop(t, c), true) {
      AbandonedIsSafe(d, t, Drop(t, c), k, Shifted(c, k));
    }
  }
}
