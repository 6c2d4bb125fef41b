// lfs_file_read, lfs_file_write, lfs_file_flush and lfs_file_seek, for files that are not
// inline: a byte sequence with a cursor, kept in copy-on-write skip lists.
module Files {
  import opened Wrappers
  import opened Tags
  import opened Util
  import opened CtzIndex
  import opened CtzList

  // ---- the specification ------------------------------------------------------------------

  function Zeros(n: nat): (z: seq<byte>)
    ensures |z| == n
  {
    if n == 0 then [] else Zeros(n - 1) + [0]
  }

  function Padded(s: seq<byte>, n: nat): seq<byte> {
    if |s| < n then s + Zeros(n - |s|) else s
  }

  // Overwriting in place, filling with zeros when starting past the end.
  function Overwritten(s: seq<byte>, at: nat, data: seq<byte>): seq<byte> {
    var t := Padded(s, at);
    t[..at] + data + if at + |data| < |t| then t[at + |data|..] else []
  }

  // What a read of n bytes at a position returns.
  function Slice(s: seq<byte>, at: nat, n: nat): seq<byte> {
    if at >= |s| then [] else s[at..at + Min(n, |s| - at)]
  }

  // Byte by byte: what is written at its place, zeros in a gap, and all else as it was.
  lemma OverwrittenAt(s: seq<byte>, at: nat, data: seq<byte>, i: nat)
    ensures var r := Overwritten(s, at, data);
            && |r| == Max(|s|, at + |data|)
            && (i < |r| ==>
                  r[i] == if at <= i < at + |data| then data[i - at] else if i < |s| then s[i] else 0)
  {
    if |s| < at {
      ZerosAt(at - |s|, i - |s|);
    }
  }

  function Max(a: nat, b: nat): nat {
    if a < b then b else a
  }

  lemma {:induction false} ZerosAt(n: nat, i: int)
    ensures 0 <= i < n ==> Zeros(n)[i] == 0
    decreases n
  {
    if 0 <= i < n - 1 {
      ZerosAt(n - 1, i);
    }
  }

  // A read returns as many bytes as there are from the position on, and these.
  lemma SliceAt(s: seq<byte>, at: nat, n: nat, i: nat)
    ensures |Slice(s, at, n)| == if at >= |s| then 0 else if |s| - at < n then |s| - at else n
    ensures i < |Slice(s, at, n)| ==> at + i < |s| && Slice(s, at, n)[i] == s[at + i]
  {
  }

  datatype Whence = Set | Current | End

  // ---- unfinished writes ---------------------------------------------------------------------

  // Bytes up to pos have been written to the blocks of work; the last block, which nobody
  // else uses, is filled up to off.
  ghost predicate Working(dev: Device, blockSize: nat, work: seq<Addr>, block: Addr, off: nat, pos: nat) {
    && 0 < |work| && work[|work| - 1] == block && block !in work[..|work| - 1]
    && Linked(dev, blockSize, work)
    && Pointers(|work| - 1) <= off <= blockSize
    && pos == Start(blockSize, |work| - 1) + off - Pointers(|work| - 1)
  }

  // A place in a file from which to read on.
  ghost predicate Reading(blockSize: nat, chain: seq<Addr>, block: Addr, off: nat, pos: nat) {
    off == blockSize || exists i: nat :: i < |chain| && block == chain[i] && Located(blockSize, pos, i, off)
  }

  // The block size is one on which every position is found; 144 bytes and more are.
  ghost predicate AllStraight(blockSize: nat) {
    Accepted(blockSize) && forall pos: nat :: pos <= FILE_MAX ==> Straight(blockSize, pos)
  }

  lemma BigBlocks(blockSize: nat)
    requires 144 <= blockSize <= FILE_MAX
    ensures AllStraight(blockSize)
  {
    hide Accepted, Straight;
    BigBlocksAreAccepted(blockSize);
    forall pos: nat | pos <= FILE_MAX
      ensures Straight(blockSize, pos)
    {
      BigBlocksAreStraight(blockSize, pos);
    }
  }

  // Only the given blocks have been written.
  ghost predicate WritesWithin(was: Device, dev: Device, blocks: set<Addr>) {
    forall b :: b !in blocks ==> Same(was, dev, b)
  }

  lemma WithinNothing(dev: Device, blocks: set<Addr>)
    ensures WritesWithin(dev, dev, blocks)
  {
  }

  lemma WithinTwice(a: Device, b: Device, c: Device, blocks: set<Addr>, fewer: set<Addr>)
    requires WritesWithin(a, b, blocks) && WritesWithin(b, c, fewer) && fewer <= blocks
    ensures WritesWithin(a, c, blocks)
  {
    forall x | x !in blocks
      ensures Same(a, c, x)
    {
      assert Same(a, b, x) && Same(b, c, x);
    }
  }

  lemma WithinOne(was: Device, dev: Device, nblock: Addr, blocks: set<Addr>)
    requires OnlyWrites(was, dev, nblock) && nblock in blocks
    ensures WritesWithin(was, dev, blocks)
  {
    hide Same;
  }

  // ---- how many blocks a write takes -----------------------------------------------------------

  // The index of the block that holds a position.
  function BlockOf(blockSize: nat, pos: nat): nat {
    if blockSize <= 8 || pos >= WORD then 0 else Index(blockSize, pos).0
  }

  // How many blocks the first n bytes take.
  function BlocksTo(blockSize: nat, n: nat): nat {
    if n == 0 then 0 else BlockOf(blockSize, n - 1) + 1
  }

  // What writing the bytes [from, to) takes: the blocks from the one that holds the first to the
  // one that holds the last; a write that is going on already has the block it has come to.
  function Needs(blockSize: nat, busy: bool, from: nat, to: nat): int {
    if to <= from then 0
    else BlocksTo(blockSize, to) - if busy then BlocksTo(blockSize, from) else BlockOf(blockSize, from)
  }

  // A new block is needed for what comes next.
  predicate NextIsNew(blockSize: nat, busy: bool, from: nat, at: nat) {
    (at == from && !busy) || BlockOf(blockSize, at) == BlocksTo(blockSize, at)
  }

  lemma BlockOfGrows(blockSize: nat, p: nat, q: nat)
    requires AllStraight(blockSize) && p <= q <= FILE_MAX
    ensures BlockOf(blockSize, p) <= BlockOf(blockSize, q)
  {
    hide Straight, Accepted, Index, Start, Pointers;
    BlockSizes(blockSize, p);
    BlockSizes(blockSize, q);
    IndexRight(blockSize, p);
    IndexRight(blockSize, q);
    var i, j := BlockOf(blockSize, p), BlockOf(blockSize, q);
    if j < i {
      StartIsNat(blockSize, i, p);
      StartGrows(blockSize, j + 1, i);
    }
  }

  lemma NewIs(blockSize: nat, busy: bool, from: nat, at: nat)
    ensures NextIsNew(blockSize, busy, from, at)
       <==> (at == from && !busy) || BlockOf(blockSize, at) == BlocksTo(blockSize, at)
  {
    hide BlockOf, BlocksTo;
  }

  lemma NeedsNone(blockSize: nat, busy: bool, from: nat)
    ensures Needs(blockSize, busy, from, from) == 0
  {
  }

  lemma NeedsGrow(blockSize: nat, busy: bool, from: nat, p: nat, q: nat)
    requires AllStraight(blockSize) && from <= p <= q <= FILE_MAX
    ensures 0 <= Needs(blockSize, busy, from, p) <= Needs(blockSize, busy, from, q)
  {
    hide BlockOf, AllStraight;
    if from < p {
      BlockOfGrows(blockSize, from, p - 1);
      BlockOfGrows(blockSize, p - 1, q - 1);
    }
    if from < q {
      BlockOfGrows(blockSize, from, q - 1);
    }
    if 0 < from < q {
      BlockOfGrows(blockSize, from - 1, q - 1);
      BlockOfGrows(blockSize, from - 1, from);
    }
  }

  // One write after the other.
  lemma NeedsAdd(blockSize: nat, busy: bool, from: nat, p: nat, q: nat)
    requires from < p <= q
    ensures Needs(blockSize, busy, from, p) + Needs(blockSize, true, p, q) == Needs(blockSize, busy, from, q)
  {
    hide BlockOf;
  }

  lemma NeedsByByte(blockSize: nat, busy: bool, from: nat, p: nat)
    requires from <= p
    ensures Needs(blockSize, busy, from, p) + Needs(blockSize, busy || p > from, p, p + 1)
         == Needs(blockSize, busy, from, p + 1)
  {
    NeedsNone(blockSize, busy, from);
    if from < p {
      NeedsAdd(blockSize, busy, from, p, p + 1);
    }
    hide Needs;
  }

  lemma NeedsMore(blockSize: nat, busy: bool, from: nat, at: nat, end: nat)
    requires AllStraight(blockSize) && from <= at < end <= FILE_MAX && NextIsNew(blockSize, busy, from, at)
    ensures Needs(blockSize, busy, from, end) > Needs(blockSize, busy, from, at)
  {
    hide BlockOf, AllStraight;
    BlockOfGrows(blockSize, at, end - 1);
  }

  lemma NeedsNext(blockSize: nat, busy: bool, from: nat, at: nat, next: nat, fresh': bool)
    requires from <= at < next
    requires fresh' ==> NextIsNew(blockSize, busy, from, at) && BlocksTo(blockSize, next) == BlockOf(blockSize, at) + 1
    requires !fresh' ==> (at > from || busy) && BlocksTo(blockSize, next) == BlocksTo(blockSize, at)
    ensures Needs(blockSize, busy, from, next) == Needs(blockSize, busy, from, at) + if fresh' then 1 else 0
  {
    hide BlockOf;
  }

  // The blocks in hand, by where a write has come to.
  lemma WorkBlocks(dev: Device, blockSize: nat, work: seq<Addr>, block: Addr, off: nat, pos: nat)
    requires AllStraight(blockSize) && Working(dev, blockSize, work, block, off, pos) && pos <= FILE_MAX
    ensures pos > Start(blockSize, |work| - 1) ==> BlocksTo(blockSize, pos) == |work|
    ensures BlockOf(blockSize, pos) == if off == blockSize then |work| else |work| - 1
  {
    hide Accepted, Straight, Index, Start, Pointers, Linked;
    var n := |work| - 1;
    BlockSizes(blockSize, pos);
    if pos > Start(blockSize, n) {
      WorkIsFile(dev, blockSize, work, block, off, pos);
      IndexIsWhere(blockSize, pos - 1, n, off - 1);
    }
    NextStart(blockSize, n);
    NextStart(blockSize, n + 1);
    if off == blockSize {
      FewPointers(blockSize, n + 1, pos);
      IndexIsWhere(blockSize, pos, n + 1, Pointers(n + 1));
    } else {
      IndexIsWhere(blockSize, pos, n, off);
    }
  }

  // A block that begins within a file has room for a byte.
  lemma FewPointers(blockSize: nat, n: nat, pos: nat)
    requires AllStraight(blockSize) && pos <= FILE_MAX && Start(blockSize, n) <= pos
    ensures Pointers(n) < blockSize
  {
    hide AllStraight, Start, Ctz, BitLength;
    StartIsNat(blockSize, n, pos);
    BlockSizes(blockSize, pos);
    if n > 0 {
      CtzBound(n);
      BitLengthMonotone(n, 0x1ff_ffff);
      TwentyFive();
    }
  }

  lemma OneTaken(all: set<Addr>, rest: set<Addr>, block: Addr)
    requires block in all && rest == all - {block}
    ensures |rest| + 1 == |all| && rest <= all
  {
  }

  class File {
    const store: Storage
    const fileMax: nat
    const append: bool
    // blocks that the allocator can hand out
    var free: set<Addr>
    // the file as of the last flush
    var head: Addr
    var size: nat
    ghost var chain: seq<Addr>
    // the cursor, and the block it is in
    var pos: nat
    var block: Addr
    var off: nat
    var reading: bool
    var writing: bool
    ghost var work: seq<Addr>

    ghost predicate Core()
      reads this, store
    {
      && store.Valid() && AllStraight(store.blockSize) && fileMax <= FILE_MAX
      && size <= fileMax && pos <= fileMax
      && IsFile(store.dev, store.blockSize, chain, head, size) && Disjoint(chain, free)
    }

    // The last block of the unfinished write belongs to it alone.
    ghost predicate Busy()
      reads this, store
    {
      && Working(store.dev, store.blockSize, work, block, off, pos) && Disjoint(work, free)
      && block !in chain && (append ==> pos >= size)
    }

    ghost predicate Valid()
      reads this, store
    {
      && Core()
      && (writing ==> !reading && Busy() && pos > Start(store.blockSize, |work| - 1))
      && (reading ==> Reading(store.blockSize, chain, block, off, pos))
    }

    // The bytes of the file, seen through the writes that have not been flushed.
    ghost function Bytes(): seq<byte>
      reads this, store
    {
      if writing then Front() + After(Flushed(), pos) else Flushed()
    }

    ghost function Flushed(): seq<byte>
      reads this, store
    {
      Written(store.dev, chain, size)
    }

    // The blocks that this file may write: what the allocator can hand out, and the block
    // that it is writing.
    ghost function Own(): set<Addr>
      reads this
    {
      free + if writing then {block} else {}
    }

    // What comes before the cursor.
    ghost function Front(): seq<byte>
      reads this, store
    {
      if writing then Written(store.dev, work, pos) else First(Flushed(), pos)
    }

    constructor (store: Storage, free: set<Addr>, head: Addr, size: nat, fileMax: nat, append: bool,
            ghost chain: seq<Addr>)
      requires store.Valid() && AllStraight(store.blockSize) && fileMax <= FILE_MAX && size <= fileMax
      requires IsFile(store.dev, store.blockSize, chain, head, size) && Disjoint(chain, free)
      ensures Valid() && this.store == store && pos == 0 && Bytes() == Written(store.dev, chain, size)
      ensures this.fileMax == fileMax && this.append == append
    {
      this.store, this.free, this.head, this.size, this.chain := store, free, head, size, chain;
      this.fileMax, this.append := fileMax, append;
      this.pos, this.block, this.off, this.reading, this.writing, this.work := 0, head, 0, false, false, [];
      new;
      hide AllStraight, IsFile;
    }

    lemma CoreParts()
      requires Core()
      ensures store.Valid() && AllStraight(store.blockSize) && fileMax <= FILE_MAX && size <= fileMax && pos <= fileMax
      ensures IsFile(store.dev, store.blockSize, chain, head, size) && Disjoint(chain, free)
      ensures Flushed() == Written(store.dev, chain, size)
      ensures !writing ==> Front() == First(Flushed(), pos)
      ensures writing ==> Front() == Written(store.dev, work, pos)
    {
      hide AllStraight, IsFile, Disjoint, Written, First;
    }

    lemma OwnIs()
      ensures Own() == free + if writing then {block} else {}
    {
    }

    lemma FrontIs()
      ensures Flushed() == Written(store.dev, chain, size)
      ensures Front() == if writing then Written(store.dev, work, pos) else First(Flushed(), pos)
    {
      hide Written, First;
    }

    lemma IsCore()
      requires store.Valid() && AllStraight(store.blockSize) && fileMax <= FILE_MAX && size <= fileMax && pos <= fileMax
      requires IsFile(store.dev, store.blockSize, chain, head, size) && Disjoint(chain, free)
      ensures Core() && Flushed() == Written(store.dev, chain, size)
    {
      hide AllStraight, IsFile, Disjoint, Written;
    }

    lemma BusyParts()
      requires Busy()
      ensures Working(store.dev, store.blockSize, work, block, off, pos) && Disjoint(work, free)
      ensures block !in chain && (append ==> pos >= size)
    {
      hide Working, Disjoint;
    }

    lemma IsBusy()
      requires Working(store.dev, store.blockSize, work, block, off, pos) && Disjoint(work, free)
      requires block !in chain && (append ==> pos >= size) && writing
      ensures Busy() && Front() == Written(store.dev, work, pos)
    {
      hide Working, Disjoint, Written;
    }

    lemma ValidParts()
      requires Valid()
      ensures Core() && size <= fileMax && pos <= fileMax <= FILE_MAX && store.Valid() && AllStraight(store.blockSize)
      ensures writing ==> !reading && Busy() && pos > Start(store.blockSize, |work| - 1)
      ensures reading ==> Reading(store.blockSize, chain, block, off, pos)
      ensures |Flushed()| == size && (writing || pos <= size ==> |Front()| == pos)
              && (writing && append ==> pos >= size)
      ensures Bytes() == if writing then Front() + After(Flushed(), pos) else Flushed()
    {
      hide AllStraight, IsFile, Disjoint, Written, First, After, Working, Start, Reading;
      FirstIs(store.dev, store.blockSize, chain, head, size, pos);
      if writing {
        WorkingLength(store.dev, store.blockSize, work, block, off, pos);
      } else if pos <= size {
        FirstLength(Flushed(), pos);
      }
    }

    lemma IsValid()
      requires Core()
      requires writing ==> !reading && Busy() && pos > Start(store.blockSize, |work| - 1)
      requires reading ==> Reading(store.blockSize, chain, block, off, pos)
      ensures Valid()
      ensures Bytes() == if writing then Front() + After(Flushed(), pos) else Flushed()
    {
      hide Core, Busy, Start, Reading, After, Front, Flushed;
    }

    // What a write extends: the blocks of the file up to the cursor, or the unfinished work.
    method FindBase() returns (ghost base: seq<Addr>)
      requires Core() && !reading && pos < fileMax
      requires writing ==> Busy() && pos > Start(store.blockSize, |work| - 1) && off == store.blockSize
      requires !writing ==> pos <= size
      modifies this`block, this`off
      ensures Core() && IsFile(store.dev, store.blockSize, base, block, pos) && Disjoint(base, free)
      ensures Flushed() == old(Flushed()) && Front() == old(Front()) == Written(store.dev, base, pos)
      ensures writing ==> block == old(block) && off == old(off) && base == work
    {
      hide *;
      CoreParts();
      BlockSizes(store.blockSize, pos);
      base := [];
      if !writing && pos > 0 {
        // where the file has its last byte before the cursor
        ghost var jumps;
        FirstIs(store.dev, store.blockSize, chain, head, size, pos);
        BlockSizes(store.blockSize, pos - 1);
        block, off, jumps := store.Find(head, size, pos - 1, chain);
        ghost var i := Index(store.blockSize, pos - 1).0;
        PrefixIsFile(store.dev, store.blockSize, chain, head, size, pos, i, off);
        base := chain[..i + 1];
        DisjointPrefix(chain, i + 1, free);
      } else if writing {
        BusyParts();
        WorkIsFile(store.dev, store.blockSize, work, block, off, pos);
        base := work;
      } else {
        NoBlocks(store.dev, store.blockSize, chain, head, size, free);
      }
      FrontIs();
      IsCore();
    }

    // The part of lfs_file_write that gets hold of a block to write to. It fails only when
    // there is none.
    method Grow() returns (ok: bool)
      requires Core() && !reading && pos < fileMax
      requires writing ==> Busy() && pos > Start(store.blockSize, |work| - 1) && off == store.blockSize
      requires !writing ==> pos <= size
      requires append ==> pos >= size
      modifies this`free, this`block, this`off, this`writing, this`work, store`dev
      ensures Core() && Flushed() == old(Flushed()) && Front() == old(Front())
      ensures WritesWithin(old(store.dev), store.dev, old(Own())) && Own() <= old(Own())
      ensures ok ==> writing && Busy() && off < store.blockSize
      ensures ok <==> old(free) != {}
      ensures ok ==> block in old(free) && free == old(free) - {block}
      ensures !ok ==> store.dev == old(store.dev) && work == old(work) && free == old(free) && writing == old(writing)
      ensures !ok && writing ==> block == old(block) && off == old(off)
    {
      hide *;
      CoreParts();
      OwnIs();
      ghost var own := Own();
      WithinNothing(store.dev, own);
      BlockSizes(store.blockSize, pos);
      ghost var base := FindBase();
      CoreParts();
      FrontIs();
      OwnIs();
      if free == {} {
        return false;
      }
      ghost var before, front, all := store.dev, Front(), free;
      var nblock :| nblock in free;
      free := free - {nblock};
      var erased: seq<byte> := *;
      if |erased| != store.blockSize {
        erased := seq(store.blockSize, _ => 0xff);
      }
      NotHandedOut(base, all, nblock);
      NotHandedOut(chain, all, nblock);
      block, off, work := store.Extend(block, pos, nblock, erased, base);
      writing := true;
      Older(before, store.dev, store.blockSize, nblock, chain, head, size, all);
      Extended(before, store.dev, store.blockSize, base, work, nblock, off, pos, all);
      IsCore();
      IsBusy();
      OwnIs();
      WithinOne(before, store.dev, nblock, own);
      return true;
    }

    lemma WorkCounts()
      requires Valid()
      ensures writing ==> BlocksTo(store.blockSize, pos) == |work|
      ensures writing ==> BlockOf(store.blockSize, pos) == if off == store.blockSize then |work| else |work| - 1
    {
      hide *;
      ValidParts();
      if writing {
        BusyParts();
        WorkBlocks(store.dev, store.blockSize, work, block, off, pos);
      }
    }

    lemma BusyCounts()
      requires Core() && Busy() && off < store.blockSize
      ensures BlockOf(store.blockSize, pos) == |work| - 1
    {
      hide *;
      CoreParts();
      BusyParts();
      WorkBlocks(store.dev, store.blockSize, work, block, off, pos);
    }

    // The part of lfs_file_write that programs bytes into the block it has got hold of.
    method Fill(data: seq<byte>)
      requires Core() && writing && !reading && Busy()
      requires 0 < |data| <= store.blockSize - off && pos + |data| <= fileMax
      modifies this`pos, this`off, store`dev
      ensures Core() && Busy() && pos == old(pos) + |data| > Start(store.blockSize, |work| - 1)
      ensures WritesWithin(old(store.dev), store.dev, old(Own())) && Own() <= old(Own())
      ensures Flushed() == old(Flushed()) && Front() == old(Front()) + data
    {
      hide *;
      CoreParts();
      BusyParts();
      OwnIs();
      ghost var before, own := store.dev, Own();
      LastBlock(before, store.blockSize, work, block, off, pos);
      var blk := store.dev[block];
      store.dev := store.dev[block := Patch(blk, off, data)];
      Programmed(before, store.dev, store.blockSize, work, block, off, pos, data);
      pos, off := pos + |data|, off + |data|;
      WritesOne(before, block, Patch(blk, off - |data|, data));
      WithinOne(before, store.dev, block, own);
      Older(before, store.dev, store.blockSize, block, chain, head, size, free);
      IsCore();
      IsBusy();
      OwnIs();
    }

    lemma IsIdle()
      requires store.Valid() && AllStraight(store.blockSize) && fileMax <= FILE_MAX && size <= fileMax && pos <= fileMax
      requires IsFile(store.dev, store.blockSize, chain, head, size) && Disjoint(chain, free)
      requires !writing && !reading
      ensures Valid() && Bytes() == Flushed() == Written(store.dev, chain, size)
    {
      hide AllStraight, IsFile, Disjoint, Written;
    }

    // How a write begins: reads are dropped, and an append goes to the end.
    method BeginWrite()
      requires Valid()
      modifies this`reading, this`pos
      ensures Valid() && !reading && Flushed() == old(Flushed()) && Bytes() == old(Bytes()) && Own() == old(Own())
      ensures append && old(pos) < size ==> !writing
      ensures pos == if append && old(pos) < size then size else old(pos)
    {
      hide *;
      ValidParts();
      CoreParts();
      OwnIs();
      if reading {
        reading := false;
        IsIdle();
      }
      if append && pos < size {
        pos := size;
        IsIdle();
      }
      OwnIs();
    }

    // lfs_file_write. An append starts at the end; a write that starts past the end first
    // fills the gap with zeros. It fails when the file would grow too large, with nothing
    // written, or when the device is full, with done bytes written or with the gap filled
    // in part.
    method Write(data: seq<byte>) returns (r: Result<nat>, ghost done: nat)
      requires Valid() && |data| <= FILE_MAX
      modifies this`free, this`pos, this`block, this`off, this`reading, this`writing, this`work, store`dev
      ensures Valid() && Flushed() == old(Flushed())
      ensures WritesWithin(old(store.dev), store.dev, old(Own())) && Own() <= old(Own())
      ensures var at := if append && old(pos) < |old(Bytes())| then |old(Bytes())| else old(pos);
              && (r == Err(FBig) <==> at + |data| > fileMax)
              && (r.Ok? ==> r == Ok(|data|) && pos == at + |data| && Bytes() == Overwritten(old(Bytes()), at, data))
              && (r == Err(FBig) ==> pos == at && Bytes() == old(Bytes()))
      ensures var at := if append && old(pos) < |old(Bytes())| then |old(Bytes())| else old(pos);
              r == Err(NoSpc) ==>
                || (done < |data| && pos == at + done && Bytes() == Overwritten(old(Bytes()), at, data[..done]))
                || (|old(Bytes())| <= pos < at && Bytes() == Padded(old(Bytes()), pos))
      ensures r.Err? ==> r == Err(FBig) || (r == Err(NoSpc) && free == {})
      // it succeeds exactly when there are as many blocks as it takes, and takes no more
      ensures var at := if append && old(pos) < |old(Bytes())| then |old(Bytes())| else old(pos);
              var from := if at < |old(Bytes())| then at else |old(Bytes())|;
              var n := Needs(store.blockSize, old(writing), from, at + |data|);
              && (r.Ok? <==> at + |data| <= fileMax && |old(free)| >= n)
              && free <= old(free) && (r.Ok? ==> |free| == |old(free)| - n)
      ensures |data| > 0 && r.Ok? ==> writing
      ensures old(writing) ==> writing
      decreases if !writing && pos > size then 1 else 0, 1
    {
      hide *;
      ValidParts();
      StartsAt(Bytes(), Flushed(), Front(), pos, writing, append);
      ghost var s0, flushed, dev, own := Bytes(), Flushed(), store.dev, Own();
      WithinNothing(dev, own);
      ghost var bs, busy := store.blockSize, writing;
      BeginWrite();
      ghost var at := pos;
      ValidParts();
      ghost var from := if at < |s0| then at else |s0|;
      NeedsNone(bs, busy, from);
      if pos + |data| > fileMax {
        return Err(FBig), 0;
      }
      if !writing && pos > size {
        // the gap before the cursor
        NeedsAdd(bs, busy, from, at, at + |data|);
        NeedsGrow(bs, busy, from, at, at + |data|);
        var filled := FillGap();
        if !filled {
          return Err(NoSpc), 0;
        }
      } else {
        NotPadded(s0, at);
      }
      ValidParts();
      ghost var mid, less := store.dev, Own();
      var ok;
      ok, done := WriteHere(data);
      WithinTwice(dev, mid, store.dev, own, less);
      OverwrittenFrom(s0, at, data[..done]);
      if !ok {
        return Err(NoSpc), done;
      }
      assert data[..done] == data;
      return Ok(|data|), done;
    }

    // The bytes at the cursor, which is within the file.
    method WriteHere(data: seq<byte>) returns (ok: bool, ghost done: nat)
      requires Valid() && !reading && (writing || pos <= size) && (append ==> pos >= size) && pos + |data| <= fileMax
      modifies this`free, this`pos, this`block, this`off, this`writing, this`work, store`dev
      ensures Valid() && Flushed() == old(Flushed()) && (old(writing) || done > 0 ==> writing)
      ensures WritesWithin(old(store.dev), store.dev, old(Own())) && Own() <= old(Own())
      ensures !reading && pos == old(pos) + done && done <= |data|
      ensures Bytes() == Overwritten(old(Bytes()), old(pos), data[..done])
      ensures if ok then done == |data| else done < |data| && free == {}
      ensures var n := Needs(store.blockSize, old(writing), old(pos), old(pos) + |data|);
              free <= old(free) && (ok <==> |old(free)| >= n) && (ok ==> |free| == |old(free)| - n)
    {
      hide *;
      ghost var s0, flushed, at := Bytes(), Flushed(), pos;
      ValidParts();
      StartsAt(s0, flushed, Front(), pos, writing, append);
      FrontIs();
      NotPadded(s0, at);
      WriteStarts(s0, flushed, at, writing, Front());
      ok, done := WriteBlocks(data);
      ValidParts();
      WriteEnds(s0, flushed, at, data[..done], writing, Front());
    }

    method FillGap() returns (ok: bool)
      requires Valid() && !reading && !writing && size < pos
      modifies this`free, this`pos, this`block, this`off, this`reading, this`writing, this`work, store`dev
      ensures Valid() && Flushed() == old(Flushed())
      ensures WritesWithin(old(store.dev), store.dev, old(Own())) && Own() <= old(Own())
      ensures ok ==> writing && !reading && pos == old(pos)
      ensures Bytes() == Padded(old(Flushed()), pos) && (!ok ==> size <= pos < old(pos) && free == {})
      ensures var n := Needs(store.blockSize, false, size, old(pos));
              free <= old(free) && (ok <==> |old(free)| >= n) && (ok ==> |free| == |old(free)| - n)
      decreases 1, 0
    {
      hide *;
      ValidParts();
      CoreParts();
      OwnIs();
      ghost var flushed, dev, own := Flushed(), store.dev, Own();
      WithinNothing(dev, own);
      var to := pos;
      ghost var bs := store.blockSize;
      pos := size;
      IsIdle();
      OwnIs();
      NeedsNone(bs, false, size);
      NotPadded(flushed, size);
      while pos < to
        invariant WritesWithin(dev, store.dev, own) && Own() <= own
        invariant Valid() && size <= pos <= to && Flushed() == flushed && size == |flushed|
        invariant Bytes() == Padded(flushed, pos)
        invariant pos > size <==> writing
        invariant free <= old(free) && |free| + Needs(bs, false, size, pos) == |old(free)|
      {
        FillsOne(flushed, pos);
        ghost var mid, less, p := store.dev, Own(), pos;
        NeedsByByte(bs, false, size, p);
        NeedsGrow(bs, false, size, p + 1, to);
        var one, done := Write([0]);
        WithinTwice(dev, mid, store.dev, own, less);
        if one.Err? {
          FillsNone(Padded(flushed, pos), pos, done);
          return false;
        }
      }
      ValidParts();
      return true;
    }

    // One round of the loop of lfs_file_write: a block to work in, and then up to its end at most.
    method WriteSome(data: seq<byte>) returns (ok: bool, n: nat)
      requires Valid() && !reading && (writing || pos <= size) && (append ==> pos >= size)
      requires 0 < |data| && pos + |data| <= fileMax
      modifies this`free, this`pos, this`block, this`off, this`writing, this`work, store`dev
      ensures Valid() && !reading && Flushed() == old(Flushed()) && (append ==> pos >= size)
      ensures WritesWithin(old(store.dev), store.dev, old(Own())) && Own() <= old(Own())
      ensures pos == old(pos) + n && n <= |data| && Front() == old(Front()) + data[..n]
      ensures if ok then n > 0 && writing else n == 0 && writing == old(writing) && free == {}
      ensures var bs := store.blockSize;
              var fresh' := !old(writing) || BlockOf(bs, old(pos)) == BlocksTo(bs, old(pos));
              && (!ok ==> fresh' && free == old(free))
              && (ok ==> BlocksTo(bs, pos) == if fresh' then BlockOf(bs, old(pos)) + 1 else BlocksTo(bs, old(pos)))
              && (ok ==> free <= old(free) && |free| == |old(free)| - if fresh' then 1 else 0)
    {
      hide *;
      ValidParts();
      WorkCounts();
      NoneYet(Front(), data);
      ghost var dev, own, had := store.dev, Own(), free;
      WithinNothing(dev, own);
      // a block to work in
      if !writing || off == store.blockSize {
        var grown := Grow();
        if !grown {
          IsValid();
          return false, 0;
        }
        OneTaken(had, free, block);
        BusyCounts();
      }
      // up to the end of the block at most
      BusyParts();
      WorkingRoom(store.dev, store.blockSize, work, block, off, pos);
      n := Min(|data|, store.blockSize - off);
      MinIs(|data|, store.blockSize - off);
      ghost var mid, less := store.dev, Own();
      Fill(data[..n]);
      WithinTwice(dev, mid, store.dev, own, less);
      IsValid();
      WorkCounts();
      return true, n;
    }

    // The loop of lfs_file_write.
    method WriteBlocks(data: seq<byte>) returns (ok: bool, ghost done: nat)
      requires Valid() && !reading && (writing || pos <= size) && (append ==> pos >= size) && pos + |data| <= fileMax
      modifies this`free, this`pos, this`block, this`off, this`writing, this`work, store`dev
      ensures Valid() && Flushed() == old(Flushed()) && (old(writing) || done > 0 ==> writing)
      ensures WritesWithin(old(store.dev), store.dev, old(Own())) && Own() <= old(Own())
      ensures !reading && pos == old(pos) + done && done <= |data| && Front() == old(Front()) + data[..done]
      ensures if ok then done == |data| else done < |data| && free == {}
      ensures done == 0 ==> writing == old(writing)
      ensures var n := Needs(store.blockSize, old(writing), old(pos), old(pos) + |data|);
              free <= old(free) && (ok <==> |old(free)| >= n) && (ok ==> |free| == |old(free)| - n)
    {
      hide *;
      ghost var front, dev, own := Front(), store.dev, Own();
      ghost var bs, busy, from := store.blockSize, writing, pos;
      ValidParts();
      NeedsNone(bs, busy, from);
      WithinNothing(dev, own);
      var k := 0;
      done := 0;
      NoneYet(front, data);
      while k < |data|
        invariant 0 <= k == done <= |data| && pos == old(pos) + done
        invariant Valid() && !reading && Flushed() == old(Flushed()) && (append ==> pos >= size)
        invariant WritesWithin(dev, store.dev, own) && Own() <= own && Front() == front + data[..done]
        invariant if done == 0 then writing == old(writing) && (writing || pos <= size) else writing
        invariant free <= old(free) && |free| + Needs(bs, busy, from, pos) == |old(free)|
      {
        NewIs(bs, busy, from, pos);
        ghost var at, mid, less, was := pos, store.dev, Own(), writing;
        var more, n := WriteSome(data[k..]);
        WithinTwice(dev, mid, store.dev, own, less);
        if !more {
          NeedsMore(bs, busy, from, at, from + |data|);
          assert Front() == front + data[..done] by {
            NoneYet(front + data[..done], data[k..]);
          }
          return false, done;
        }
        SomeMore(front, data, k, n);
        FirstOfRest(data, k, n);
        k := k + n;
        done := k;
        NeedsNext(bs, busy, from, at, pos, !was || BlockOf(bs, at) == BlocksTo(bs, at));
      }
      return true, done;
    }

    // The loop of lfs_file_read: n bytes of the flushed file, from a place that may
    // already have been found.
    method ReadBlocks(at: nat, n: nat, wasReading: bool, b: Addr, o: nat)
      returns (data: seq<byte>, isReading: bool, b': Addr, o': nat)
      requires Core() && at + n <= size
      requires wasReading ==> Reading(store.blockSize, chain, b, o, at)
      ensures at + n <= |Flushed()| && data == Flushed()[at..at + n]
      ensures isReading ==> Reading(store.blockSize, chain, b', o', at + n)
      ensures n == 0 ==> isReading == wasReading
    {
      hide *;
      CoreParts();
      FirstIs(store.dev, store.blockSize, chain, head, size, at);
      data, isReading, b', o' := [], wasReading, b, o;
      while |data| < n
        invariant |data| <= n && data == Flushed()[at..at + |data|]
        invariant isReading ==> Reading(store.blockSize, chain, b', o', at + |data|)
        invariant n == 0 ==> isReading == wasReading
        decreases n - |data|
      {
        ghost var p := at + |data|;
        // a block to work in
        if !isReading || o' == store.blockSize {
          b', o' := Locate(at + |data|);
          isReading := true;
        }
        // from this block, at most to its end
        ReadRoom(store.dev, store.blockSize, chain, head, size, b', o', p);
        var diff := Min(n - |data|, store.blockSize - o');
        MinIs(n - |data|, store.blockSize - o');
        ReadSlice(store.dev, store.blockSize, chain, head, size, b', o', p, diff);
        SliceMore(Flushed(), at, |data|, diff);
        data := data + store.dev[b'][o'..o' + diff];
        o' := o' + diff;
      }
    }

    method Locate(at: nat) returns (b: Addr, o: nat)
      requires Core() && at < size
      ensures Reading(store.blockSize, chain, b, o, at) && o < store.blockSize
    {
      hide *;
      CoreParts();
      BlockSizes(store.blockSize, at);
      ghost var jumps;
      b, o, jumps := store.Find(head, size, at, chain);
      FoundHere(store.blockSize, chain, b, o, at, Index(store.blockSize, at).0);
    }

    // How many blocks a flush takes.
    ghost function FlushNeeds(): int
      reads this, store
    {
      if writing then Needs(store.blockSize, true, pos, size) else 0
    }

    lemma FlushNeedsIs()
      ensures FlushNeeds() == if writing then Needs(store.blockSize, true, pos, size) else 0
      ensures size <= pos ==> FlushNeeds() == 0
    {
      hide BlocksTo, BlockOf;
    }

    // lfs_file_flush: what comes after the cursor is copied from the old blocks, and the
    // file becomes what has been written. The bytes do not change.
    method Flush() returns (ok: bool)
      requires Valid()
      modifies this, store`dev
      ensures Valid() && Bytes() == old(Bytes())
      ensures WritesWithin(old(store.dev), store.dev, old(Own())) && Own() <= old(Own())
      ensures ok ==> !writing && !reading && pos == old(pos) && Flushed() == Bytes() && size == |Bytes()|
      ensures !ok ==> Flushed() == old(Flushed()) && size == old(size) && old(writing) && free == {}
      ensures free <= old(free) && (ok <==> |old(free)| >= old(FlushNeeds()))
      ensures ok ==> |free| == |old(free)| - old(FlushNeeds())
    {
      hide *;
      ValidParts();
      CoreParts();
      OwnIs();
      FlushNeedsIs();
      ghost var dev, own := store.dev, Own();
      WithinNothing(dev, own);
      if reading {
        reading := false;
        IsIdle();
        OwnIs();
      }
      if writing {
        var p := pos;
        // what lies behind the cursor comes along, byte by byte
        var origReading, origBlock, origOff := false, head, 0;
        ghost var all, flushed, bs := Bytes(), Flushed(), store.blockSize;
        NeedsNone(bs, true, p);
        while pos < size
          invariant Valid() && writing && !reading && size == old(size)
          invariant Bytes() == all && Flushed() == flushed && |flushed| == size
          invariant WritesWithin(dev, store.dev, own) && Own() <= own
          invariant origReading ==> Reading(store.blockSize, chain, origBlock, origOff, pos)
          invariant p <= pos <= (if p < size then size else p)
          invariant free <= old(free) && |free| + Needs(bs, true, p, pos) == |old(free)|
          decreases size - pos
        {
          ValidParts();
          var data;
          data, origReading, origBlock, origOff := ReadBlocks(pos, 1, origReading, origBlock, origOff);
          CopiesOne(Front(), flushed, pos, data);
          ghost var mid, less, at := store.dev, Own(), pos;
          NeedsByByte(bs, true, p, at);
          NeedsGrow(bs, true, p, at + 1, size);
          var copied, done := Write(data);
          WithinTwice(dev, mid, store.dev, own, less);
          if copied.Err? {
            return false;
          }
          ValidParts();
        }
        Conclude(p);
      }
      ValidParts();
      return true;
    }

    // From here on the file is what has been written.
    method Conclude(p: nat)
      requires Valid() && writing && !reading && pos >= size && p <= pos
      modifies this`head, this`size, this`chain, this`writing, this`pos
      ensures Valid() && !writing && !reading && pos == p && Bytes() == old(Bytes()) && Flushed() == Bytes()
      ensures size == |Bytes()| && Own() <= old(Own())
    {
      hide *;
      ValidParts();
      BusyParts();
      CoreParts();
      WorkIsFile(store.dev, store.blockSize, work, block, off, pos);
      NothingAfter(Front(), Flushed(), pos);
      OwnIs();
      head, size, chain := block, pos, work;
      writing := false;
      pos := p;
      IsIdle();
      OwnIs();
      ValidParts();
    }

    // lfs_file_read: at most n bytes from the cursor on.
    method Read(n: nat) returns (r: Result<seq<byte>>)
      requires Valid()
      modifies this, store`dev
      ensures Valid() && Bytes() == old(Bytes())
      ensures WritesWithin(old(store.dev), store.dev, old(Own())) && Own() <= old(Own())
      ensures r.Ok? ==> r.value == Slice(Bytes(), old(pos), n) && pos == old(pos) + |r.value|
      ensures r.Err? ==> r == Err(NoSpc) && old(writing) && free == {}
      ensures free <= old(free) && (r.Ok? <==> |old(free)| >= old(FlushNeeds()))
    {
      hide *;
      FlushNeedsIs();
      ghost var dev, own := store.dev, Own();
      WithinNothing(dev, own);
      if writing {
        // reading needs the writes to be finished
        var ok := Flush();
        if !ok {
          return Err(NoSpc);
        }
      }
      ValidParts();
      var data := ReadHere(n);
      return Ok(data);
    }

    // The same when there is nothing to be finished.
    method ReadHere(n: nat) returns (data: seq<byte>)
      requires Valid() && !writing
      modifies this`reading, this`block, this`off, this`pos
      ensures Valid() && Bytes() == old(Bytes()) && Own() == old(Own()) && !writing
      ensures data == Slice(Bytes(), old(pos), n) && pos == old(pos) + |data|
    {
      hide *;
      ValidParts();
      CoreParts();
      SliceIs(Bytes(), pos, n);
      OwnIs();
      if pos >= size {
        return [];
      }
      var k := Min(n, size - pos);
      MinIs(n, size - pos);
      var found, b, o;
      data, found, b, o := ReadBlocks(pos, k, reading, block, off);
      reading, block, off := found, b, o;
      pos := pos + k;
      IsReading();
      OwnIs();
    }

    lemma IsReading()
      requires store.Valid() && AllStraight(store.blockSize) && fileMax <= FILE_MAX && size <= fileMax && pos <= fileMax
      requires IsFile(store.dev, store.blockSize, chain, head, size) && Disjoint(chain, free)
      requires !writing && (reading ==> Reading(store.blockSize, chain, block, off, pos))
      ensures Valid() && Bytes() == Flushed() == Written(store.dev, chain, size)
    {
      hide AllStraight, IsFile, Disjoint, Written, Reading;
    }

    // lfs_file_seek: positions are thirty-two-bit words.
    method Seek(to: int, whence: Whence) returns (r: Result<nat>)
      requires Valid()
      modifies this, store`dev
      ensures Valid() && Bytes() == old(Bytes())
      ensures WritesWithin(old(store.dev), store.dev, old(Own())) && Own() <= old(Own())
      ensures var npos := Wrap(match whence case Set => to case Current => old(pos) + to case End => |Bytes()| + to);
              && (r.Ok? ==> npos <= fileMax && r == Ok(npos) && pos == npos && !writing && !reading)
              && (r == Err(Inval) ==> npos > fileMax && pos == old(pos))
      ensures r.Err? ==> r == Err(Inval) || (r == Err(NoSpc) && old(writing) && free == {})
      ensures free <= old(free) && (r == Err(NoSpc) <==> |old(free)| < old(FlushNeeds()))
    {
      hide *;
      // write out everything beforehand
      var ok := Flush();
      if !ok {
        return Err(NoSpc);
      }
      ValidParts();
      CoreParts();
      // where to
      var npos := Wrap(to);
      if whence == Current {
        npos := Wrap(pos + to);
      } else if whence == End {
        npos := Wrap(size + to);
      }
      if npos > fileMax {
        return Err(Inval);
      }
      OwnIs();
      // go there
      pos := npos;
      IsIdle();
      OwnIs();
      return Ok(npos);
    }
  }

  ghost predicate Disjoint(chain: seq<Addr>, free: set<Addr>) {
    forall k :: 0 <= k < |chain| ==> chain[k] !in free
  }

  ghost function Written(dev: Device, chain: seq<Addr>, n: nat): seq<byte> {
    var data := Data(dev, chain);
    if n <= |data| then data[..n] else data
  }

  function After(s: seq<byte>, n: nat): seq<byte> {
    if n < |s| then s[n..] else []
  }

  // ---- the skip list at an unfinished write -----------------------------------------------------

  lemma IndexIsWhere(blockSize: nat, pos: nat, i: nat, off: int)
    requires AllStraight(blockSize) && pos <= FILE_MAX && Located(blockSize, pos, i, off)
    ensures blockSize >= 104 && FILE_MAX < WORD && Index(blockSize, pos).0 == i && Index(blockSize, pos).1 == off
  {
    hide Accepted, Straight, Index, Located;
    AcceptedSize(blockSize);
    assert Straight(blockSize, pos);
    IndexRight(blockSize, pos);
    LocatedOnce(blockSize, pos, i, Index(blockSize, pos).0, off, Index(blockSize, pos).1);
  }

  // As soon as the last block holds a byte, what has been written is a file.
  lemma WorkIsFile(dev: Device, blockSize: nat, work: seq<Addr>, block: Addr, off: nat, pos: nat)
    requires AllStraight(blockSize) && Working(dev, blockSize, work, block, off, pos) && pos <= FILE_MAX
    requires pos > Start(blockSize, |work| - 1)
    ensures pos > 0 && IsFile(dev, blockSize, work, block, pos)
    ensures Located(blockSize, pos - 1, |work| - 1, off - 1)
  {
    hide Accepted, Straight, Index, Start, Pointers, Linked;
    var n := |work| - 1;
    StartIsNat(blockSize, n, pos);
    NextStart(blockSize, n);
    IndexIsWhere(blockSize, pos - 1, n, off - 1);
    assert Straight(blockSize, pos - 1);
  }

  lemma StartIsNat(blockSize: nat, n: nat, pos: nat)
    requires AllStraight(blockSize) && pos <= FILE_MAX && Start(blockSize, n) <= pos
    ensures Start(blockSize, n) >= 0 && blockSize > 8
    ensures n < 0x200_0000
  {
    hide Accepted, Straight, Start;
    AcceptedSize(blockSize);
    NotBeyond(blockSize, pos, n);
    SmallIndices(blockSize, pos, n);
    StartGrows(blockSize, 0, n);
    StartZero(blockSize);
  }

  // The blocks of a file up to some position are a file themselves, with the same bytes.
  lemma PrefixIsFile(dev: Device, blockSize: nat, chain: seq<Addr>, head: Addr, size: nat, p: nat, i: nat, off: int)
    requires AllStraight(blockSize) && IsFile(dev, blockSize, chain, head, size) && 0 < p <= size
    requires i < |chain| && Located(blockSize, p - 1, i, off)
    ensures IsFile(dev, blockSize, chain[..i + 1], chain[i], p)
    ensures p <= |Data(dev, chain[..i + 1])| && Written(dev, chain[..i + 1], p) == First(Written(dev, chain, size), p)
  {
    hide Accepted, Straight, Index, Linked, Data, Located;
    FileParts(dev, blockSize, chain, head, size);
    IndexIsWhere(blockSize, p - 1, i, off);
    assert Straight(blockSize, p - 1);
    LinkedTo(dev, blockSize, chain, i + 1);
    FileParts(dev, blockSize, chain[..i + 1], chain[i], p);
    DataPrefix(dev, blockSize, chain, i + 1);
  }

  // The first n bytes.
  function First(s: seq<byte>, n: nat): seq<byte> {
    if n < |s| then s[..n] else s
  }

  lemma {:induction false} LinkedTo(dev: Device, blockSize: nat, chain: seq<Addr>, k: nat)
    requires Linked(dev, blockSize, chain) && k <= |chain|
    ensures Linked(dev, blockSize, chain[..k])
    decreases |chain|
  {
    hide Linked;
    if k < |chain| {
      LinkedInit(dev, blockSize, chain);
      LinkedTo(dev, blockSize, chain[..|chain| - 1], k);
      assert chain[..|chain| - 1][..k] == chain[..k];
    } else {
      assert chain[..k] == chain;
    }
  }

  lemma {:induction false} DataPrefix(dev: Device, blockSize: nat, chain: seq<Addr>, k: nat)
    requires k <= |chain|
    ensures |Data(dev, chain[..k])| <= |Data(dev, chain)|
    ensures Data(dev, chain)[..|Data(dev, chain[..k])|] == Data(dev, chain[..k])
    decreases |chain|
  {
    hide Pointers;
    if k < |chain| {
      var n := |chain| - 1;
      DataPrefix(dev, blockSize, chain[..n], k);
      assert chain[..n][..k] == chain[..k];
    } else {
      assert chain[..k] == chain;
    }
  }

  // ---- what Grow needs ---------------------------------------------------------------------------

  lemma BlockSizes(blockSize: nat, pos: nat)
    requires AllStraight(blockSize) && pos <= FILE_MAX
    ensures blockSize >= 104 && FILE_MAX == 0x7fff_ffff && Straight(blockSize, pos) && Accepted(blockSize)
    ensures WORD == 0x1_0000_0000
  {
    hide Straight, Accepted;
    AcceptedSize(blockSize);
  }

  lemma FirstIs(dev: Device, blockSize: nat, chain: seq<Addr>, head: Addr, size: nat, pos: nat)
    requires AllStraight(blockSize) && IsFile(dev, blockSize, chain, head, size)
    ensures |Written(dev, chain, size)| == size
  {
    hide AllStraight, Data;
    if size > 0 {
      AcceptedFrom(blockSize);
      FileParts(dev, blockSize, chain, head, size);
    } else {
      EmptyFile(dev, blockSize, chain, head, size);
    }
    hide IsFile;
  }

  lemma AcceptedFrom(blockSize: nat)
    requires AllStraight(blockSize)
    ensures Accepted(blockSize)
  {
    hide Accepted, Straight;
  }

  lemma DisjointPrefix(chain: seq<Addr>, k: nat, free: set<Addr>)
    requires Disjoint(chain, free) && k <= |chain|
    ensures Disjoint(chain[..k], free)
  {
  }

  lemma NoBlocks(dev: Device, blockSize: nat, chain: seq<Addr>, head: Addr, size: nat, free: set<Addr>)
    ensures forall block :: IsFile(dev, blockSize, [], block, 0)
    ensures Disjoint([], free) && Written(dev, [], 0) == [] && First(Written(dev, chain, size), 0) == []
  {
    hide Linked;
  }

  lemma NotHandedOut(chain: seq<Addr>, free: set<Addr>, nblock: Addr)
    requires Disjoint(chain, free) && nblock in free
    ensures nblock !in chain && Disjoint(chain, free - {nblock})
  {
  }

  lemma Older(was: Device, dev: Device, blockSize: nat, nblock: Addr, chain: seq<Addr>, head: Addr, size: nat,
          free: set<Addr>)
    requires AllStraight(blockSize) && IsFile(was, blockSize, chain, head, size) && nblock !in chain
    requires OnlyWrites(was, dev, nblock)
    ensures IsFile(dev, blockSize, chain, head, size) && Written(dev, chain, size) == Written(was, chain, size)
  {
    AcceptedFrom(blockSize);
    hide AllStraight, IsFile, OnlyWrites, Data;
    OlderFiles(was, dev, blockSize, nblock, chain, head, size);
  }

  // The new last block is in nobody else's list.
  lemma Extended(was: Device, dev: Device, blockSize: nat, base: seq<Addr>, work: seq<Addr>, nblock: Addr, off: nat,
                 pos: nat, free: set<Addr>)
    requires 0 < |work| <= |base| + 1 && work == base[..|work| - 1] + [nblock]
    requires nblock !in base && Disjoint(base, free) && nblock in free
    requires Linked(dev, blockSize, work) && Located(blockSize, pos, |work| - 1, off) && off < blockSize
    requires pos <= |Data(dev, work)| && pos <= |Data(was, base)| && Content(dev, work, pos) == Content(was, base, pos)
    ensures Working(dev, blockSize, work, nblock, off, pos) && Disjoint(work, free - {nblock})
    ensures Written(dev, work, pos) == Written(was, base, pos)
  {
    hide Linked, Data, Start, Pointers;
    assert work[..|work| - 1] == base[..|work| - 1];
    forall k | 0 <= k < |work|
      ensures work[k] !in free - {nblock}
    {
      if k < |work| - 1 {
        assert work[k] == base[k];
      }
    }
    assert nblock !in base[..|work| - 1];
  }

  // ---- what Fill needs ----------------------------------------------------------------------------

  lemma LastBlock(dev: Device, blockSize: nat, work: seq<Addr>, block: Addr, off: nat, pos: nat)
    requires Working(dev, blockSize, work, block, off, pos)
    ensures block in dev && |dev[block]| == blockSize
  {
    hide Linked, Pointers, Start;
    BlockBytes(dev, blockSize, work, |work| - 1);
  }

  lemma {:induction false} Programmed(was: Device, dev: Device, blockSize: nat, work: seq<Addr>, block: Addr, off: nat,
          pos: nat, data: seq<byte>)
    requires Working(was, blockSize, work, block, off, pos) && off + |data| <= blockSize
    requires block in was && |was[block]| == blockSize && dev == was[block := Patch(was[block], off, data)]
    ensures Working(dev, blockSize, work, block, off + |data|, pos + |data|)
    ensures Written(dev, work, pos + |data|) == Written(was, work, pos) + data
    ensures |data| > 0 ==> pos + |data| > Start(blockSize, |work| - 1)
  {
    hide Linked, Pointers, Start, Data, Patch;
    var n := |work| - 1;
    var init := work[..n];
    assert work == init + [block];
    WritesOne(was, block, Patch(was[block], off, data));
    FreshUntouched(was, dev, init, block);
    LinkedInit(was, blockSize, work);
    LinkedFrame(was, dev, blockSize, init);
    LinkedAt(was, blockSize, work, n);
    PatchedParts(was[block], off, data, Pointers(n));
    CopiedBlock(was, dev, blockSize, work, work, n, off);
    LinkedSnoc(dev, blockSize, init, block);
    DataFrame(was, dev, blockSize, init);
    DataLength(was, blockSize, init);
    DataSnoc(was, blockSize, init, block);
    DataSnoc(dev, blockSize, init, block);
    Joined(Data(was, init), was[block][Pointers(n)..], dev[block][Pointers(n)..], off - Pointers(n), data);
  }

  lemma PatchedParts(s: seq<byte>, at: nat, data: seq<byte>, p: nat)
    requires p <= at && at + |data| <= |s|
    ensures Patch(s, at, data)[..at] == s[..at]
    ensures Patch(s, at, data)[p..][..at - p] == s[p..][..at - p]
    ensures Patch(s, at, data)[p..][at - p..at - p + |data|] == data
  {
    var r := Patch(s, at, data);
    assert r[..at] == s[..at];
    assert r[p..][..at - p] == r[..at][p..];
    assert s[p..][..at - p] == s[..at][p..];
    assert r[p..][at - p..at - p + |data|] == r[at..at + |data|];
  }

  lemma Joined(a: seq<byte>, b: seq<byte>, c: seq<byte>, k: nat, data: seq<byte>)
    requires k + |data| <= |b| == |c| && c[..k] == b[..k] && c[k..k + |data|] == data
    ensures (a + c)[..|a| + k + |data|] == (a + b)[..|a| + k] + data
  {
    assert (a + b)[..|a| + k] == a + b[..k];
    assert (a + c)[..|a| + k + |data|] == a + c[..k + |data|];
    assert c[..k + |data|] == c[..k] + c[k..k + |data|];
  }

  // ---- what Write needs ---------------------------------------------------------------------------

  lemma WorkingLength(dev: Device, blockSize: nat, work: seq<Addr>, block: Addr, off: nat, pos: nat)
    requires Working(dev, blockSize, work, block, off, pos)
    ensures pos <= |Data(dev, work)| && |Written(dev, work, pos)| == pos
  {
    hide Linked, Pointers, Start, Data;
    DataLength(dev, blockSize, work);
    NextStart(blockSize, |work| - 1);
  }

  lemma WorkingRoom(dev: Device, blockSize: nat, work: seq<Addr>, block: Addr, off: nat, pos: nat)
    requires Working(dev, blockSize, work, block, off, pos)
    ensures off <= blockSize
  {
    hide Linked, Pointers, Start;
  }

  lemma FirstLength(s: seq<byte>, n: nat)
    requires n <= |s|
    ensures |First(s, n)| == n
  {
  }

  // Where a write starts, in terms of the bytes there were.
  lemma StartsAt(s0: seq<byte>, flushed: seq<byte>, front: seq<byte>, pos: nat, writing: bool, append: bool)
    requires s0 == if writing then front + After(flushed, pos) else flushed
    requires writing ==> |front| == pos && (append ==> pos >= |flushed|)
    ensures (append && pos < |flushed| <==> append && pos < |s0|) && (!writing ==> |s0| == |flushed|)
    ensures append && pos < |flushed| ==> |s0| == |flushed|
    ensures writing ==> pos <= |s0|
  {
  }

  lemma NoneYet(front: seq<byte>, data: seq<byte>)
    ensures front + data[..0] == front
  {
  }

  lemma FirstOfRest(data: seq<byte>, k: nat, n: nat)
    requires k + n <= |data|
    ensures data[k..][..n] == data[k..k + n]
  {
  }

  lemma SomeMore(front: seq<byte>, data: seq<byte>, done: nat, diff: nat)
    requires done + diff <= |data|
    ensures front + data[..done + diff] == front + data[..done] + data[done..done + diff]
  {
    assert data[..done + diff] == data[..done] + data[done..done + diff];
  }

  lemma NotPadded(s: seq<byte>, n: nat)
    requires n <= |s|
    ensures Padded(s, n) == s
  {
  }

  lemma OverwrittenFrom(s: seq<byte>, at: nat, data: seq<byte>)
    ensures Overwritten(Padded(s, at), at, data) == Overwritten(s, at, data)
  {
  }

  lemma FillsOne(s: seq<byte>, n: nat)
    requires |s| <= n
    ensures |Padded(s, n)| == n && Overwritten(Padded(s, n), n, [0]) == Padded(s, n + 1)
  {
    var z := Zeros(n - |s|);
    assert Zeros(n + 1 - |s|) == z + [0];
    assert s + (z + [0]) == s + z + [0];
    NotPadded(Padded(s, n), n);
  }

  lemma FillsNone(s: seq<byte>, n: nat, done: nat)
    requires |s| == n
    ensures done < 1 ==> [0][..done] == [] && Overwritten(s, n, []) == s
    ensures |Padded(s, n)| == n
  {
    NotPadded(s, n);
  }

  lemma WriteStarts(t: seq<byte>, flushed: seq<byte>, at: nat, writing: bool, front: seq<byte>)
    requires t == if writing then front + After(flushed, at) else flushed
    requires |front| == at && at <= |t| && (!writing ==> front == First(flushed, at))
    ensures front == t[..at] && t[at..] == After(flushed, at)
  {
  }

  lemma WriteEnds(s0: seq<byte>, flushed: seq<byte>, at: nat, data: seq<byte>, writing: bool, front: seq<byte>)
    requires at <= |Padded(s0, at)| && Padded(s0, at)[at..] == After(flushed, at)
    requires front == Padded(s0, at)[..at] + data
    requires !writing ==> data == [] && Padded(s0, at) == flushed
    ensures (if writing then front + After(flushed, at + |data|) else flushed) == Overwritten(s0, at, data)
  {
    hide Padded;
    var t := Padded(s0, at);
    if at + |data| < |t| {
      assert t[at + |data|..] == t[at..][|data|..];
    }
    if !writing {
      assert t == t[..at] + t[at..];
    }
  }

  // ---- what Read and Flush need ----------------------------------------------------------------------

  lemma FoundHere(blockSize: nat, chain: seq<Addr>, b: Addr, o: nat, pos: nat, i: nat)
    requires i < |chain| && b == chain[i] && Located(blockSize, pos, i, o)
    ensures Reading(blockSize, chain, b, o, pos) && o < blockSize
  {
    NextStart(blockSize, i);
    hide Start, Pointers;
  }

  lemma ReadRoom(dev: Device, blockSize: nat, chain: seq<Addr>, head: Addr, size: nat, b: Addr, o: nat, pos: nat)
    requires AllStraight(blockSize) && IsFile(dev, blockSize, chain, head, size) && size > 0
    requires Reading(blockSize, chain, b, o, pos) && o != blockSize
    ensures b in dev && |dev[b]| == blockSize && o < blockSize
  {
    AcceptedFrom(blockSize);
    hide AllStraight, Linked, Start, Pointers, Accepted, Straight, Index;
    var i: nat :| i < |chain| && b == chain[i] && Located(blockSize, pos, i, o);
    BlockBytes(dev, blockSize, chain, i);
    NextStart(blockSize, i);
  }

  // Within a block, the bytes of the file follow each other.
  lemma ReadSlice(dev: Device, blockSize: nat, chain: seq<Addr>, head: Addr, size: nat, b: Addr, o: nat, pos: nat,
          n: nat)
    requires AllStraight(blockSize) && IsFile(dev, blockSize, chain, head, size) && size > 0
    requires Reading(blockSize, chain, b, o, pos) && o != blockSize && o + n <= blockSize && pos + n <= size
    ensures b in dev && |dev[b]| == blockSize && pos + n <= |Written(dev, chain, size)|
    ensures dev[b][o..o + n] == Written(dev, chain, size)[pos..pos + n]
    ensures Reading(blockSize, chain, b, o + n, pos + n)
  {
    hide *;
    AcceptedFrom(blockSize);
    FirstIs(dev, blockSize, chain, head, size, pos);
    ReadRoom(dev, blockSize, chain, head, size, b, o, pos);
    var i := WhichBlock(blockSize, chain, b, o, pos);
    FileParts(dev, blockSize, chain, head, size);
    var left, right := dev[b][o..o + n], Written(dev, chain, size)[pos..pos + n];
    forall q | 0 <= q < n
      ensures left[q] == right[q]
    {
      LaterByte(blockSize, pos, i, o, q);
      ByteAt(dev, blockSize, chain, pos + q, i, o + q);
      WrittenAt(dev, chain, size, pos + q);
    }
    if o + n < blockSize {
      LaterByte(blockSize, pos, i, o, n);
      FoundHere(blockSize, chain, b, o + n, pos + n, i);
    } else {
      BlockDone(blockSize, chain, b, o + n, pos + n);
    }
  }

  lemma WhichBlock(blockSize: nat, chain: seq<Addr>, b: Addr, o: nat, pos: nat) returns (i: nat)
    requires Reading(blockSize, chain, b, o, pos) && o != blockSize
    ensures i < |chain| && b == chain[i] && Located(blockSize, pos, i, o)
  {
    hide Located;
    i :| i < |chain| && b == chain[i] && Located(blockSize, pos, i, o);
  }

  lemma LaterByte(blockSize: nat, pos: nat, i: nat, o: nat, q: nat)
    requires Located(blockSize, pos, i, o) && o + q < blockSize
    ensures Located(blockSize, pos + q, i, o + q)
  {
    NextStart(blockSize, i);
    hide Start, Pointers;
  }

  lemma WrittenAt(dev: Device, chain: seq<Addr>, size: nat, k: nat)
    requires k < size <= |Data(dev, chain)|
    ensures |Written(dev, chain, size)| == size && Written(dev, chain, size)[k] == Data(dev, chain)[k]
  {
    hide Data;
  }

  lemma BlockDone(blockSize: nat, chain: seq<Addr>, b: Addr, o: nat, pos: nat)
    requires o == blockSize
    ensures Reading(blockSize, chain, b, o, pos)
  {
    hide Located;
  }

  lemma SliceMore(s: seq<byte>, at: nat, k: nat, n: nat)
    requires at + k + n <= |s|
    ensures s[at..at + k + n] == s[at..at + k] + s[at + k..at + k + n]
  {
  }

  lemma SliceIs(s: seq<byte>, at: nat, n: nat)
    ensures Slice(s, at, n) == if at >= |s| then [] else s[at..at + Min(n, |s| - at)]
    ensures at < |s| ==> |Slice(s, at, n)| == Min(n, |s| - at)
  {
  }

  // Copying the next byte of the old file changes nothing.
  lemma CopiesOne(front: seq<byte>, flushed: seq<byte>, pos: nat, data: seq<byte>)
    requires |front| == pos < |flushed| && data == flushed[pos..pos + 1]
    ensures var all := front + After(flushed, pos);
            |data| == 1 && |all| == |flushed| && Overwritten(all, pos, data) == Overwritten(all, pos, data[..0]) == all
  {
    var all := front + After(flushed, pos);
    NotPadded(all, pos);
    assert all[..pos] == front;
    assert all[pos..pos + 1] == data;
    assert all == all[..pos] + all[pos..pos + 1] + all[pos + 1..];
  }

  lemma NothingAfter(front: seq<byte>, flushed: seq<byte>, pos: nat)
    requires |flushed| <= pos
    ensures front + After(flushed, pos) == front
  {
  }
}
