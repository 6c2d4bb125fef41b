// The block allocator: a window of the in-use map that slides over the device, and a
// countdown of the blocks it may still look at before the next acknowledgement.
module Alloc {
  import opened Wrappers
  import opened Util
  import opened CtzList
  import Tree

  function Elements(s: seq<nat>): set<nat> {
    set b | b in s
  }

  // ---- the blocks that are in use ---------------------------------------------------------------

  function Number(a: Addr): (n: nat)
    ensures n < WORD
  {
    a.word as nat
  }

  function Numbers(s: seq<Addr>): (r: seq<nat>)
    ensures |r| == |s| && forall i :: 0 <= i < |s| ==> r[i] == Number(s[i])
  {
    seq(|s|, i requires 0 <= i < |s| => Number(s[i]))
  }

  ghost predicate IsReported(v: Tree.Snapshot, n: nat) {
    exists b: Addr :: Number(b) == n && Tree.Reported(v, b)
  }

  // What lfs_fs_traverse reports.
  ghost function Reports(v: Tree.Snapshot): set<nat> {
    set n | 0 <= n < WORD && IsReported(v, n)
  }

  lemma VisitedAre(v: Tree.Snapshot, blocks: seq<Addr>)
    requires forall b :: b in blocks <==> Tree.Reported(v, b)
    ensures Elements(Numbers(blocks)) == Reports(v)
  {
    hide Tree.Reported, Number;
    var all := Numbers(blocks);
    forall n | n in all
      ensures n in Reports(v)
    {
      var i :| 0 <= i < |all| && all[i] == n;
      assert blocks[i] in blocks && Number(blocks[i]) == n;
    }
    forall n | n in Reports(v)
      ensures n in all
    {
      var b: Addr :| Number(b) == n && Tree.Reported(v, b);
      var i :| 0 <= i < |blocks| && blocks[i] == b;
      assert all[i] == n;
    }
  }

  // A block that is not reported is not used, when all that is used is reported.
  lemma NotUsed(v: Tree.Snapshot, n: nat, b: Addr)
    requires n !in Reports(v) && Tree.Reported(v, b)
    ensures Number(b) != n
  {
    hide Tree.Reported, Number;
    assert Number(b) == n ==> IsReported(v, n);
  }

  // ---- the ring ----------------------------------------------------------------------------------

  // Position x of a ring of n blocks, for the positions that the allocator computes.
  function Ring(x: nat, n: nat): nat {
    if x < n then x else x - n
  }

  // The block of the window that bit k stands for.
  function Slot(off: nat, k: nat, n: nat): nat {
    Ring(off + k, n)
  }

  // How far ahead of cur a block is, going round the ring.
  function Ahead(b: nat, cur: nat, n: nat): int {
    if b >= cur then b - cur else b - cur + n
  }

  ghost predicate SeenSince(n: nat, cur: nat, ack: nat, handed: set<nat>, marked: set<nat>) {
    && (forall b :: b in handed ==> b < n && ack <= Ahead(b, cur, n))
    && (forall b :: 0 <= b < n && ack <= Ahead(b, cur, n) ==> b in handed + marked)
  }

  lemma SeenOneMore(n: nat, off: nat, i: nat, ack: nat, handed: set<nat>, marked: set<nat>, used: bool)
    requires off < n && i < n && 0 < ack <= n && SeenSince(n, Ring(off + i, n), ack, handed, marked)
    ensures var cur := Ring(off + i, n);
            SeenSince(n, Ring(off + (i + 1), n), ack - 1,
                      if used then handed else handed + {cur}, if used then marked + {cur} else marked)
  {
    var cur, next := Ring(off + i, n), Ring(off + (i + 1), n);
    forall b: nat | b < n
      ensures Ahead(b, next, n) == if b == cur then n - 1 else Ahead(b, cur, n) - 1
    {
      NextAhead(b, cur, off, i, n);
    }
    hide Ahead, Ring;
  }

  lemma RingIs(x: nat, n: nat)
    requires 0 < n && x < 2 * n
    ensures x % n == Ring(x, n) < n
  {
    Quotient(x, n, if x < n then 0 else 1, Ring(x, n));
  }

  class Allocator {
    const blockCount: nat
    const bits: nat
    const buffer: array<bool>
    var off: nat
    var size: nat
    var i: nat
    var ack: nat

    // what the tree and the open files used at the last call
    ghost var inUse: set<nat>
    // the same, when the window was filled
    ghost var atFill: set<nat>
    // blocks handed out, and blocks found in use, since the last acknowledgement
    ghost var handed: set<nat>
    ghost var marked: set<nat>

    ghost function Cur(): nat
      reads this
    {
      if off < blockCount then Ring(off + i, blockCount) else if blockCount == 0 then 0 else off % blockCount
    }

    // Before the first refill the window is empty and its offset may be anything.
    ghost predicate Shape()
      reads this
    {
      && 0 < blockCount <= 0x8000_0000 && 0 < bits == buffer.Length
      && (off < blockCount || size == 0) && i <= size <= bits && size <= blockCount
      && size - i <= ack <= blockCount
    }

    // The bits that have not been looked at yet say what was in use.
    ghost predicate Window()
      requires Shape()
      reads this, buffer
    {
      forall k :: i <= k < size ==> (buffer[k] <==> Slot(off, k, blockCount) in atFill)
    }

    // Nothing that the rest of the window offers is in use or has been handed out.
    ghost predicate Fresh()
      requires Shape()
      reads this, buffer
    {
      forall k :: i <= k < size && !buffer[k] ==> Slot(off, k, blockCount) !in inUse + handed
    }

    // Since the last acknowledgement the allocator has looked at the last blockCount - ack
    // blocks before the cursor, and every one of them was in use or has been handed out.
    ghost predicate Accounted()
      requires Shape()
      reads this
    {
      SeenSince(blockCount, Cur(), ack, handed, marked)
    }

    ghost predicate Valid()
      reads this, buffer
    {
      Shape() && Window() && Fresh() && Accounted()
    }

    // As after mounting: an empty window, somewhere. The seed is reduced by the block size,
    // not by the block count.
    constructor Mount(blockCount: nat, blockSize: nat, bits: nat, seed: nat, ghost inUse: set<nat>)
      requires 0 < blockCount <= 0x8000_0000 && 0 < bits && 0 < blockSize
      ensures Valid() && this.blockCount == blockCount && this.bits == bits
      ensures this.inUse == inUse && handed == {} && ack == blockCount
    {
      this.blockCount, this.bits := blockCount, bits;
      this.buffer := new bool[bits](_ => false);
      this.off, this.size, this.i, this.ack := seed % blockSize, 0, 0, blockCount;
      this.inUse, this.atFill, this.handed, this.marked := inUse, {}, {}, {};
    }

    // lfs_alloc_ack: whatever has been handed out is by now in use or given up.
    method Ack()
      requires Valid()
      modifies this`ack, this`handed, this`marked
      ensures Valid() && ack == blockCount && handed == {} && marked == {}
    {
      ack := blockCount;
      handed, marked := {}, {};
      if off < blockCount {
        RingIs(off + i, blockCount);
      }
    }

    // lfs_alloc_lookahead: one block that the traversal of the file system reports.
    method Lookahead(block: nat)
      requires Shape() && off < blockCount && block < blockCount
      modifies buffer
      ensures forall k :: 0 <= k < buffer.Length ==>
                (buffer[k] <==> old(buffer[k]) || (k < size && Slot(off, k, blockCount) == block))
    {
      AheadIs(block, off, blockCount);
      var o := Wrap(Wrap(block - off) + blockCount) % blockCount;
      forall k | 0 <= k < size
        ensures Slot(off, k, blockCount) == block <==> k == o
      {
        OnlySlot(off, k, blockCount, block);
      }
      hide Slot, Wrap;
      if o < size {
        buffer[o] := true;
      }
    }

    // The next window begins where this one ends.
    method Turn()
      requires Shape() && i == size && ack > 0 && Accounted()
      modifies this`off, this`size, this`i, this`atFill
      ensures Shape() && Accounted() && off < blockCount && i == 0 && atFill == inUse
      ensures 0 < size == Min(bits, ack) <= ack && off == (old(off) + old(size)) % blockCount
    {
      hide SeenSince;
      ghost var cur := Cur();
      if off < blockCount {
        RingIs(off + size, blockCount);
      }
      off := (off + size) % blockCount;
      size := Min(bits, ack);
      i := 0;
      atFill := inUse;
      assert Cur() == cur;
    }

    // The refill in lfs_alloc.
    method Refill(store: Storage, v: Tree.Snapshot)
      requires Shape() && i == size && ack > 0 && Accounted()
      requires store.Valid() && store.dev == v.dev && store.blockSize == v.blockSize && Tree.Sound(v)
      requires inUse == Reports(v) && forall b :: b in Reports(v) ==> b < blockCount
      modifies this`off, this`size, this`i, this`atFill, buffer
      ensures Valid() && i == 0 && size == Min(bits, ack) > 0 && atFill == inUse
      ensures off == (old(off) + old(size)) % blockCount
      ensures forall k :: 0 <= k < size ==> (buffer[k] <==> (off + k) % blockCount in inUse)
    {
      hide *;
      Turn();
      var blocks := Tree.Visit(store, v);
      VisitedAre(v, blocks);
      AllNumbers(Numbers(blocks), blockCount);
      Mark(Numbers(blocks));
      Filled();
    }

    // Which of the blocks of the window are in use.
    method Mark(tree: seq<nat>)
      requires Shape() && off < blockCount && forall b :: b in tree ==> b < blockCount
      modifies buffer
      ensures forall k :: 0 <= k < size ==> (buffer[k] <==> Slot(off, k, blockCount) in Elements(tree))
    {
      hide Slot, Ring, Elements;
      NoElements();
      forall k | 0 <= k < buffer.Length {
        buffer[k] := false;
      }
      for n := 0 to |tree|
        invariant forall k :: 0 <= k < size ==> (buffer[k] <==> Slot(off, k, blockCount) in Elements(tree[..n]))
        modifies buffer
      {
        assert tree[n] in tree;
        Lookahead(tree[n]);
        ElementsNext(tree, n);
      }
      assert tree[..|tree|] == tree;
    }

    lemma Filled()
      requires Shape() && off < blockCount && i == 0 && size <= ack && Accounted() && atFill == inUse
      requires forall k :: 0 <= k < size ==> (buffer[k] <==> Slot(off, k, blockCount) in inUse)
      ensures Valid()
      ensures forall k :: 0 <= k < size ==> (buffer[k] <==> (off + k) % blockCount in inUse)
    {
      forall k | 0 <= k < size
        ensures Slot(off, k, blockCount) == (off + k) % blockCount
        ensures Slot(off, k, blockCount) !in handed
      {
        RingIs(off + k, blockCount);
        NotBehind(off, k, blockCount);
      }
      hide Slot, Ahead;
    }

    lemma Parts()
      requires Valid()
      ensures Shape() && i <= size <= buffer.Length && (i < size ==> ack > 0) && Cur() == (off + i) % blockCount
    {
      if off < blockCount {
        RingIs(off + i, blockCount);
      }
    }

    // The environment has moved on.
    method Look(ghost now: set<nat>)
      requires Valid() && now <= inUse + handed
      modifies this`inUse
      ensures Valid() && inUse == now
    {
      hide Slot, Ahead;
      inUse := now;
    }

    // lfs_alloc, when v is the state of the file system. Since the last call the directories
    // and the open files may have given up blocks, and taken only blocks handed out since the
    // last acknowledgement. What is handed out is used by none of them.
    method Alloc(store: Storage, v: Tree.Snapshot) returns (r: Result<nat>)
      requires Valid()
      requires store.Valid() && store.dev == v.dev && store.blockSize == v.blockSize && Tree.Sound(v)
      requires Reports(v) <= inUse + handed && forall b :: b in Reports(v) ==> b < blockCount
      modifies this, buffer
      ensures Valid() && inUse == Reports(v)
      ensures r.Ok? ==>
                && r.value < blockCount && r.value !in old(handed) && handed == old(handed) + {r.value}
                && forall b :: Tree.Reported(v, b) ==> b.word as nat != r.value
      ensures r.Ok? ==> forall k :: 0 <= k < |v.thread| ==>
                          v.thread[k].pair.first as nat != r.value && v.thread[k].pair.second as nat != r.value
      ensures r.Ok? && (forall b :: Tree.Reported(v, b) <==> Tree.Used(v, b)) ==>
                forall b :: Tree.Used(v, b) ==> b.word as nat != r.value
      ensures r.Err? ==>
                && r == Err(NoSpc) && handed == old(handed)
                && forall b :: 0 <= b < blockCount ==> b in handed + marked
      ensures old(marked) <= marked <= old(marked) + old(atFill) + Reports(v)
    {
      hide *;
      Look(Reports(v));
      while true
        invariant Valid() && inUse == Reports(v) && handed == old(handed)
        invariant atFill == old(atFill) || atFill == inUse
        invariant old(marked) <= marked <= old(marked) + old(atFill) + Reports(v)
        decreases ack, if i == size then 1 else 0
      {
        ghost var ack0, i0, size0 := ack, i, size;
        Parts();
        while i != size
          invariant i <= size <= buffer.Length && ack <= ack0 && (ack == ack0 ==> i == i0 && size == size0)
          invariant Valid() && inUse == Reports(v) && handed == old(handed)
          invariant atFill == old(atFill) || atFill == inUse
          invariant old(marked) <= marked <= old(marked) + old(atFill) + Reports(v)
          decreases ack
        {
          var o := i;
          Parts();
          if !buffer[o] {
            // this one is free
            var block := (off + o) % blockCount;
            HandOut(block);
            NoneUsed(v, block);
            NoOwn(v, block);
            // go on to the next free block at once, so that an acknowledgement counts from there
            SkipUsed();
            return Ok(block);
          }
          Skip();
          Parts();
        }
        Parts();
        // after a whole turn there is no more to look at
        if ack == 0 {
          EverythingSeen();
          return Err(NoSpc);
        }
        AccountedFor();
        Refill(store, v);
      }
    }

    lemma AccountedFor()
      requires Valid()
      ensures Shape() && Accounted()
    {
    }

    // Past all blocks in use that come next.
    method SkipUsed()
      requires Valid()
      modifies this`i, this`ack, this`marked
      ensures Valid() && old(marked) <= marked <= old(marked) + atFill
    {
      hide *;
      Parts();
      while i != size && buffer[i]
        invariant Valid() && i <= size <= buffer.Length && old(marked) <= marked <= old(marked) + atFill
        decreases ack
      {
        Parts();
        Skip();
        Parts();
      }
    }

    // Past a block that is in use.
    method Skip()
      requires Valid() && i < size && buffer[i]
      modifies this`i, this`ack, this`marked
      ensures Valid() && i == old(i) + 1 && ack == old(ack) - 1
      ensures marked == old(marked) + {old(Cur())} && old(Cur()) in atFill
    {
      hide SeenSince;
      ghost var cur := Cur();
      RingIs(off + i, blockCount);
      SeenOneMore(blockCount, off, i, ack, handed, marked, true);
      assert Slot(off, i, blockCount) in atFill;
      hide Slot;
      i := i + 1;
      ack := ack - 1;
      marked := marked + {cur};
    }

    // Past a block that is given away.
    method HandOut(block: nat)
      requires Valid() && i < size && !buffer[i] && block == Cur()
      modifies this`i, this`ack, this`handed
      ensures Valid() && i == old(i) + 1 && ack == old(ack) - 1
      ensures handed == old(handed) + {block} && block !in inUse && block !in old(handed) && block < blockCount
    {
      Offered(block);
      hide SeenSince, Slot, Ring;
      i := i + 1;
      ack := ack - 1;
      handed := handed + {block};
    }

    lemma Offered(block: nat)
      requires Valid() && i < size && !buffer[i] && block == Cur()
      ensures block !in inUse && block !in handed && block < blockCount
      ensures SeenSince(blockCount, Ring(off + (i + 1), blockCount), ack - 1, handed + {block}, marked)
      ensures forall k :: i < k < size ==> Slot(off, k, blockCount) != block
    {
      hide SeenSince, Ahead;
      RingIs(off + i, blockCount);
      SeenOneMore(blockCount, off, i, ack, handed, marked, false);
      assert Slot(off, i, blockCount) !in inUse + handed;
      DistinctSlots(off, i, size, blockCount);
    }

    lemma EverythingSeen()
      requires Valid() && ack == 0
      ensures forall b :: 0 <= b < blockCount ==> b in handed + marked
    {
      if off < blockCount {
        RingIs(off + i, blockCount);
      }
    }
  }

  lemma AllNumbers(tree: seq<nat>, blockCount: nat)
    requires forall b :: b in Elements(tree) ==> b < blockCount
    ensures forall b :: b in tree ==> b < blockCount
  {
    forall b | b in tree
      ensures b < blockCount
    {
      assert b in Elements(tree);
    }
  }

  lemma NoneUsed(v: Tree.Snapshot, n: nat)
    requires n !in Reports(v)
    ensures forall b :: Tree.Reported(v, b) ==> b.word as nat != n
  {
    hide Tree.Reported, Number, Reports;
    forall b | Tree.Reported(v, b)
      ensures b.word as nat != n
    {
      NotUsed(v, n, b);
      NumberIs(b);
    }
  }

  lemma NumberIs(b: Addr)
    ensures Number(b) == b.word as nat
  {
  }

  // No directory keeps itself in the block.
  lemma NoOwn(v: Tree.Snapshot, n: nat)
    requires forall b :: Tree.Reported(v, b) ==> b.word as nat != n
    ensures forall k :: 0 <= k < |v.thread| ==>
              v.thread[k].pair.first as nat != n && v.thread[k].pair.second as nat != n
  {
    hide Tree.Reported;
    forall k | 0 <= k < |v.thread|
      ensures v.thread[k].pair.first as nat != n && v.thread[k].pair.second as nat != n
    {
      Tree.OwnReported(v, k);
    }
  }

  lemma NextAhead(b: nat, cur: nat, off: nat, i: nat, n: nat)
    requires b < n && off < n && i < n && cur == Ring(off + i, n)
    ensures var next := Ring(off + i + 1, n);
            Ahead(b, next, n) == if b == cur then n - 1 else Ahead(b, cur, n) - 1
  {
  }

  lemma NoElements()
    ensures forall s: seq<nat> :: s == [] ==> Elements(s) == {}
  {
  }

  lemma ElementsNext(s: seq<nat>, n: nat)
    requires n < |s|
    ensures Elements(s[..n + 1]) == Elements(s[..n]) + {s[n]}
  {
    assert s[..n + 1] == s[..n] + [s[n]];
  }

  lemma AheadIs(block: nat, off: nat, n: nat)
    requires block < n && off < n <= 0x8000_0000
    ensures Wrap(Wrap(block - off) + n) % n == Ahead(block, off, n)
    ensures 0 <= Ahead(block, off, n) < n
    ensures Slot(off, Ahead(block, off, n), n) == block
  {
    var a := block - off;
    if a < 0 {
      Quotient(a + WORD, WORD, 0, a + WORD);
      Quotient(a + n, WORD, 0, a + n);
      Wraps(a, n);
    } else {
      Quotient(a, WORD, 0, a);
      Quotient(a + n, WORD, 0, a + n);
    }
    Quotient(block - off + n, n, if block >= off then 1 else 0, Ahead(block, off, n));
  }

  // A difference below zero wraps around, and adding the block count wraps it back.
  lemma Wraps(a: int, n: nat)
    requires a < 0 < a + n && n <= 0x8000_0000
    ensures Wrap(Wrap(a) + n) == a + n
  {
    assert a % WORD == a + WORD;
    Quotient(a + WORD + n, WORD, 1, a + n);
  }

  lemma OnlySlot(off: nat, k: nat, n: nat, block: nat)
    requires off < n && k < n && block < n
    ensures Slot(off, k, n) == block <==> k == Ahead(block, off, n)
  {
  }

  lemma DistinctSlots(off: nat, i: nat, size: nat, n: nat)
    requires off < n && i < size <= n
    ensures forall k :: i < k < size ==> Slot(off, k, n) != Slot(off, i, n)
  {
  }

  lemma NotBehind(off: nat, k: nat, n: nat)
    requires off < n && k < n
    ensures Ahead(Ring(off + k, n), off, n) == k
  {
  }
}
