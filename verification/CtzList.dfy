// The blocks of a file: a reversed skip list. Block n points to block n - 2^j for every
// j up to Ctz(n); the file is named by its last block and its size.
module CtzList {
  import opened Tags
  import opened Util
  import opened CtzIndex

  datatype Addr = Addr(word: bv32)

  // The device: the bytes of every block, by block number.
  type Device = map<Addr, seq<byte>>

  function Pointer(blk: seq<byte>, j: nat): Addr
    requires 4 * j + 4 <= |blk|
  {
    Addr(FromLe(blk[4 * j..4 * j + 4]))
  }

  predicate PointerOk(dev: Device, chain: seq<Addr>, k: nat, j: nat)
    requires k < |chain| && chain[k] in dev
  {
    4 * j + 4 <= |dev[chain[k]]| && Pow2(j) <= k && Pointer(dev[chain[k]], j) == chain[k - Pow2(j)]
  }

  ghost predicate BlockOk(dev: Device, blockSize: nat, chain: seq<Addr>, k: nat)
    requires k < |chain|
  {
    chain[k] in dev && |dev[chain[k]]| == blockSize && Pointers(k) <= blockSize &&
    (k > 0 ==> forall j: nat :: j <= Ctz(k) ==> PointerOk(dev, chain, k, j))
  }

  // The skip-list invariant.
  ghost predicate Linked(dev: Device, blockSize: nat, chain: seq<Addr>) {
    forall k :: 0 <= k < |chain| ==> BlockOk(dev, blockSize, chain, k)
  }

  // The bytes of the file: what follows the pointers, block after block.
  ghost function Data(dev: Device, chain: seq<Addr>): seq<byte> {
    if chain == [] then []
    else
      var n := |chain| - 1;
      Data(dev, chain[..n]) +
      (if chain[n] in dev && Pointers(n) <= |dev[chain[n]]| then dev[chain[n]][Pointers(n)..] else [])
  }

  // A file of the given size whose last block is head, in the blocks of chain.
  ghost predicate IsFile(dev: Device, blockSize: nat, chain: seq<Addr>, head: Addr, size: nat) {
    if size == 0 then chain == []
    else
      && blockSize > 8 && size <= FILE_MAX && Straight(blockSize, size - 1)
      && Linked(dev, blockSize, chain)
      && |chain| == Index(blockSize, size - 1).0 + 1 && head == chain[|chain| - 1]
  }

  ghost function Content(dev: Device, chain: seq<Addr>, size: nat): seq<byte>
    requires size <= |Data(dev, chain)|
  {
    Data(dev, chain)[..size]
  }

  // ---- sizes -----------------------------------------------------------------------------------

  lemma {:induction false} DataLength(dev: Device, blockSize: nat, chain: seq<Addr>)
    requires Linked(dev, blockSize, chain)
    ensures |Data(dev, chain)| == Start(blockSize, |chain|)
    decreases |chain|
  {
    hide BlockOk, Pointers;
    if chain != [] {
      var n := |chain| - 1;
      LinkedInit(dev, blockSize, chain);
      DataLength(dev, blockSize, chain[..n]);
      BlockBytes(dev, blockSize, chain, n);
    }
  }

  lemma BlockBytes(dev: Device, blockSize: nat, chain: seq<Addr>, k: nat)
    requires Linked(dev, blockSize, chain) && k < |chain|
    ensures chain[k] in dev && |dev[chain[k]]| == blockSize && Pointers(k) <= blockSize
  {
    hide Pointers;
    assert BlockOk(dev, blockSize, chain, k);
  }

  lemma LinkedInit(dev: Device, blockSize: nat, chain: seq<Addr>)
    requires Linked(dev, blockSize, chain) && chain != []
    ensures Linked(dev, blockSize, chain[..|chain| - 1])
  {
    var init := chain[..|chain| - 1];
    forall k | 0 <= k < |init|
      ensures BlockOk(dev, blockSize, init, k)
    {
      assert BlockOk(dev, blockSize, chain, k);
      BlockPrefix(dev, blockSize, chain, init, k);
    }
  }

  // A block's pointers only reach back.
  lemma BlockPrefix(dev: Device, blockSize: nat, a: seq<Addr>, b: seq<Addr>, k: nat)
    requires k < |a| && k < |b| && a[..k + 1] == b[..k + 1] && BlockOk(dev, blockSize, a, k)
    ensures BlockOk(dev, blockSize, b, k)
  {
    hide Pointers, Ctz, Pointer;
    assert a[k] == a[..k + 1][k] && b[k] == b[..k + 1][k];
    if k > 0 {
      forall j: nat | j <= Ctz(k)
        ensures PointerOk(dev, b, k, j)
      {
        assert PointerOk(dev, a, k, j);
        assert a[k - Pow2(j)] == a[..k + 1][k - Pow2(j)];
        assert b[k - Pow2(j)] == b[..k + 1][k - Pow2(j)];
      }
    }
  }

  lemma FileParts(dev: Device, blockSize: nat, chain: seq<Addr>, head: Addr, size: nat)
    requires Accepted(blockSize) && IsFile(dev, blockSize, chain, head, size) && size > 0
    ensures blockSize >= 104 && size <= FILE_MAX && Linked(dev, blockSize, chain) && |chain| > 0
    ensures var (i, off) := Index(blockSize, size - 1);
            |chain| == i + 1 && head == chain[i] && Located(blockSize, size - 1, i, off)
    ensures size <= Start(blockSize, |chain|) == |Data(dev, chain)|
  {
    hide Accepted, Straight, Index, Linked, Start, Data;
    AcceptedSize(blockSize);
    IndexRight(blockSize, size - 1);
    DataLength(dev, blockSize, chain);
  }

  // ---- finding a position --------------------------------------------------------------------------

  // At most this many jumps are left from current to target, with top the highest
  // bit of where the search began.
  function Jumps(current: nat, target: nat, top: int): int {
    if current <= target || current == 0 then 0
    else
      var high := BitLength(current - target) - 1;
      if Ctz(current) < high then top - Ctz(current) + high + 1 else high + 1
  }

  lemma JumpShrinks(current: nat, target: nat, top: int, skip: nat)
    requires current > target && BitLength(current - target) - 1 <= top
    requires skip == Min(BitLength(current - target) - 1, Ctz(current))
    ensures Pow2(skip) <= current - target && skip <= Ctz(current)
    ensures current - Pow2(skip) > target ==> BitLength(current - Pow2(skip) - target) - 1 <= top
    ensures 0 <= Jumps(current - Pow2(skip), target, top) < Jumps(current, target, top)
  {
    hide Ctz, BitLength, Pow2;
    var d := current - target;
    var high := BitLength(d) - 1;
    BitLengthBounds(d);
    Pow2Monotone(skip, high);
    var next := current - Pow2(skip);
    if next > target {
      PositivePower(skip);
      BitLengthMonotone(next - target, d);
      BitLengthBounds(next - target);
      CtzAfterJump(current, skip);
      if skip == high {
        TopBitFalls(d);
      }
    }
  }

  lemma PositivePower(k: nat)
    ensures Pow2(k) >= 1
  {
  }

  // Taking away the top bit.
  lemma SmallerIsShorter(r: nat, n: nat)
    requires n > 0 && r < Pow2(n - 1)
    ensures BitLength(r) < n
  {
    hide *;
    if r > 0 {
      BitLengthBounds(r);
      if BitLength(r) >= n {
        Pow2Monotone(n - 1, BitLength(r) - 1);
      }
    } else {
      NoBits();
    }
  }

  lemma NoBits()
    ensures BitLength(0) == 0
  {
  }

  lemma TwicePow2(n: nat)
    requires n > 0
    ensures Pow2(n) == 2 * Pow2(n - 1)
  {
  }

  lemma TopBitFalls(d: nat)
    requires d > 0
    ensures Pow2(BitLength(d) - 1) <= d && BitLength(d - Pow2(BitLength(d) - 1)) < BitLength(d)
  {
    hide *;
    BitLengthBounds(d);
    TwicePow2(BitLength(d));
    SmallerIsShorter(d - Pow2(BitLength(d) - 1), BitLength(d));
  }

  lemma JumpsBound(current: nat, target: nat)
    requires current > target
    ensures BitLength(current - target) - 1 <= BitLength(current) - 1
    ensures 0 <= Jumps(current, target, BitLength(current) - 1) <= 2 * BitLength(current) - 1
  {
    hide Ctz, BitLength;
    BitLengthMonotone(current - target, current);
    BitLengthBounds(current - target);
    CtzBound(current);
  }

  class Storage {
    const blockSize: nat
    var dev: Device

    ghost predicate Valid()
    {
      Accepted(blockSize)
    }

    constructor (blockSize: nat, dev: Device)
      requires Accepted(blockSize)
      ensures Valid() && this.blockSize == blockSize && this.dev == dev
    {
      this.blockSize, this.dev := blockSize, dev;
    }

    // lfs_ctz_find: the block and offset of a position. jumps counts the pointers followed.
    method Find(head: Addr, size: nat, pos: nat, ghost chain: seq<Addr>)
      returns (block: Addr, off: nat, ghost jumps: nat)
      requires Valid() && IsFile(dev, blockSize, chain, head, size)
      requires pos < size <= FILE_MAX && blockSize > 8 && Straight(blockSize, pos)
      ensures var i := Index(blockSize, pos).0;
              i < |chain| && block == chain[i] && Located(blockSize, pos, i, off)
      ensures jumps <= 2 * BitLength(Index(blockSize, size - 1).0)
      ensures block in dev && off < |dev[block]| && pos < |Data(dev, chain)| && dev[block][off] == Data(dev, chain)[pos]
    {
      hide *;
      ValidSize();
      FileParts(dev, blockSize, chain, head, size);
      FitsWord(pos);
      FitsWord(size);
      var current := Index(blockSize, size - 1).0;
      var target, off' := Index(blockSize, pos).0, Index(blockSize, pos).1;
      LocatedPos(blockSize, pos);
      LaterIndex(blockSize, pos, size - 1);
      block, off, jumps := head, off', 0;
      ghost var top := BitLength(current) - 1;
      ghost var most := Jumps(current, target, top);
      JumpsStart(current, target);
      while current > target
        invariant target <= current < |chain| && block == chain[current]
        invariant current > target ==> BitLength(current - target) - 1 <= top
        invariant 0 <= Jumps(current, target, top) && jumps + Jumps(current, target, top) <= most
        decreases current
      {
        SkipIs(current, target, blockSize, size);
        var skip := Min(Npw2(current - target + 1) - 1, Ctz(current));
        JumpShrinks(current, target, top, skip);
        PositivePower(skip);
        HasPointer(dev, blockSize, chain, current, skip);
        block := Pointer(dev[block], skip);
        current := current - Pow2(skip);
        jumps := jumps + 1;
      }
      ByteAt(dev, blockSize, chain, pos, target, off);
    }

    // lfs_ctz_traverse: every block, last first, each of them once. visited stands for the
    // calls of the callback.
    method Traverse(head: Addr, size: nat, ghost chain: seq<Addr>) returns (visited: seq<Addr>)
      requires Valid() && IsFile(dev, blockSize, chain, head, size)
      ensures visited == Reverse(chain)
    {
      hide *;
      visited := [];
      EmptyFile(dev, blockSize, chain, head, size);
      if size == 0 {
        return;
      }
      ValidSize();
      FileParts(dev, blockSize, chain, head, size);
      FitsWord(size);
      var index := Index(blockSize, size - 1).0;
      var block := head;
      ReverseTail(chain, |chain|);
      while true
        invariant 0 <= index < |chain| && block == chain[index]
        invariant visited == Reverse(chain[index + 1..])
        decreases index
      {
        visited := visited + [block];
        ReverseTail(chain, index);
        if index == 0 {
          assert chain[0..] == chain;
          return;
        }
        var count := 2 - index % 2;
        EvenHasTwo(index);
        HasPointer(dev, blockSize, chain, index, 0);
        var heads := [Pointer(dev[block], 0)];
        if count == 2 {
          HasPointer(dev, blockSize, chain, index, 1);
          heads := heads + [Pointer(dev[block], 1)];
          visited := visited + [heads[0]];
          ReverseTail(chain, index - 1);
        }
        block := heads[count - 1];
        index := index - count;
      }
    }

    // lfs_ctz_extend: room for one more byte, in a block that the allocator has just handed
    // out. The last block is copied unless it is full; then the list grows.
    method Extend(head: Addr, size: nat, nblock: Addr, erased: seq<byte>, ghost chain: seq<Addr>)
      returns (block: Addr, off: nat, ghost chain': seq<Addr>)
      requires Valid() && IsFile(dev, blockSize, chain, head, size)
      requires |erased| == blockSize && nblock !in chain
      requires size < FILE_MAX && blockSize > 8 && Straight(blockSize, size)
      modifies this`dev
      ensures OnlyWrites(old(dev), dev, nblock)
      ensures block == nblock && 0 < |chain'| <= |chain| + 1
      ensures chain' == chain[..|chain'| - 1] + [nblock]
      ensures Linked(dev, blockSize, chain')
      ensures Located(blockSize, size, |chain'| - 1, off) && off < blockSize
      ensures size <= |Data(dev, chain')| && size <= |Data(old(dev), chain)|
      ensures Content(dev, chain', size) == Content(old(dev), chain, size)
    {
      hide *;
      ValidSize();
      EmptyFile(dev, blockSize, chain, head, size);
      ghost var was := dev;
      dev := dev[nblock := erased];
      WritesOne(was, nblock, erased);
      if size == 0 {
        FirstBlockOk(was, dev, blockSize, chain, nblock);
        return nblock, 0, [nblock];
      }
      FileParts(was, blockSize, chain, head, size);
      NotAmong(chain, |chain| - 1, nblock);
      FitsWord(size);
      var (index, last) := Index(blockSize, size - 1);
      // a last block with room left is copied
      if last + 1 != blockSize {
        CopyFits(was, blockSize, chain, size, index, last);
        NothingCopied(was[head], erased);
        for i := 0 to last + 1
          invariant dev == was[nblock := Overlay(was[head], erased, i)]
        {
          CopyNext(was[head], erased, i);
          dev := dev[nblock := dev[nblock][i := dev[head][i]]];
        }
        chain' := chain[..index] + [nblock];
        WritesOne(was, nblock, dev[nblock]);
        CopiedLinked(was, dev, blockSize, chain, chain', nblock, size, index, last, erased);
        return nblock, last + 1, chain';
      }
      // a full one gets a successor, with its pointers
      index := index + 1;
      var skips := Ctz(index) + 1;
      var h := head;
      AppendFits(was, blockSize, chain, size, index);
      NoPointers(erased, chain, index);
      for i := 0 to skips
        invariant nblock in dev && |dev[nblock]| == blockSize && dev == was[nblock := dev[nblock]]
        invariant i < skips ==> Pow2(i) <= index && h == chain[index - Pow2(i)]
        invariant PointersWritten(dev[nblock], chain, index, i)
      {
        WritePointer(dev[nblock], chain, index, i, h);
        dev := dev[nblock := SetPointer(dev[nblock], i, h)];
        if i != skips - 1 {
          assert dev == was[nblock := dev[nblock]];
          WritesOne(was, nblock, dev[nblock]);
          NextSkip(was, dev, blockSize, chain, nblock, index, i);
          h := Pointer(dev[h], i);
        }
      }
      chain' := chain + [nblock];
      WritesOne(was, nblock, dev[nblock]);
      AppendedLinked(was, dev, blockSize, chain, nblock, size, index);
      return nblock, 4 * skips, chain';
    }

    lemma ValidSize()
      requires Valid()
      ensures blockSize > 8 && Accepted(blockSize) && blockSize >= 104
    {
      AcceptedSize(blockSize);
    }
  }

  // ---- what Find needs -----------------------------------------------------------------------------

  lemma FitsWord(x: nat)
    requires x <= FILE_MAX
    ensures x < WORD
  {
  }

  lemma LocatedPos(blockSize: nat, pos: nat)
    requires Accepted(blockSize) && pos <= FILE_MAX && Straight(blockSize, pos)
    ensures Located(blockSize, pos, Index(blockSize, pos).0, Index(blockSize, pos).1)
  {
    hide Accepted, Straight, Located, Index;
    IndexRight(blockSize, pos);
  }

  // Earlier positions are in earlier blocks.
  lemma LaterIndex(blockSize: nat, pos: nat, last: nat)
    requires Accepted(blockSize) && pos <= last <= FILE_MAX
    requires Located(blockSize, pos, Index(blockSize, pos).0, Index(blockSize, pos).1)
    requires Located(blockSize, last, Index(blockSize, last).0, Index(blockSize, last).1)
    ensures Index(blockSize, pos).0 <= Index(blockSize, last).0
  {
    hide Accepted, Index, Start, Pointers;
    AcceptedSize(blockSize);
    var i, j := Index(blockSize, pos).0, Index(blockSize, last).0;
    if j < i {
      NotBeyond(blockSize, pos, i);
      SmallIndices(blockSize, pos, i);
      StartGrows(blockSize, j + 1, i);
    }
  }

  lemma JumpsStart(current: nat, target: nat)
    requires target <= current
    ensures current > target ==> BitLength(current - target) - 1 <= BitLength(current) - 1
    ensures 0 <= Jumps(current, target, BitLength(current) - 1) <= 2 * BitLength(current)
  {
    hide BitLength, Ctz;
    if current > target {
      JumpsBound(current, target);
    }
  }

  lemma SkipIs(current: nat, target: nat, blockSize: nat, size: nat)
    requires blockSize >= 104 && 0 < size <= FILE_MAX
    requires target < current && current <= Index(blockSize, size - 1).0
    requires Located(blockSize, size - 1, Index(blockSize, size - 1).0, Index(blockSize, size - 1).1)
    ensures current - target + 1 < 0x1_0000_0000
    ensures Npw2(current - target + 1) == BitLength(current - target) && BitLength(current - target) >= 1
  {
    hide Index, Start, Npw2, BitLength, Pow2, Pointers;
    NotBeyond(blockSize, size - 1, Index(blockSize, size - 1).0);
    SmallIndices(blockSize, size - 1, Index(blockSize, size - 1).0);
    Npw2IsBitLength(current - target + 1);
  }

  lemma HasPointer(dev: Device, blockSize: nat, chain: seq<Addr>, k: nat, j: nat)
    requires Linked(dev, blockSize, chain) && 0 < k < |chain| && j <= Ctz(k)
    ensures chain[k] in dev && 4 * j + 4 <= |dev[chain[k]]| && Pow2(j) <= k
    ensures Pointer(dev[chain[k]], j) == chain[k - Pow2(j)]
  {
    hide Pointer, Ctz, Pow2;
    assert BlockOk(dev, blockSize, chain, k);
    assert PointerOk(dev, chain, k, j);
  }

  lemma {:induction false} ByteAt(dev: Device, blockSize: nat, chain: seq<Addr>, pos: nat, i: nat, off: nat)
    requires Linked(dev, blockSize, chain) && i < |chain| && Located(blockSize, pos, i, off)
    ensures chain[i] in dev && off < |dev[chain[i]]| && pos < |Data(dev, chain)|
            && dev[chain[i]][off] == Data(dev, chain)[pos]
    decreases |chain|
  {
    hide BlockOk, Pointers, Start;
    var n := |chain| - 1;
    LinkedInit(dev, blockSize, chain);
    DataLength(dev, blockSize, chain[..n]);
    BlockBytes(dev, blockSize, chain, n);
    if i < n {
      ByteAt(dev, blockSize, chain[..n], pos, i, off);
    } else {
      NextStart(blockSize, n);
    }
  }

  lemma NextStart(blockSize: nat, n: nat)
    ensures Start(blockSize, n + 1) == Start(blockSize, n) + blockSize - Pointers(n)
  {
  }

  // ---- what Traverse needs --------------------------------------------------------------------------

  lemma EmptyFile(dev: Device, blockSize: nat, chain: seq<Addr>, head: Addr, size: nat)
    requires IsFile(dev, blockSize, chain, head, size)
    ensures size == 0 ==> chain == [] && Reverse(chain) == [] && Data(dev, chain) == []
  {
    hide Linked;
  }

  lemma {:induction false} ReverseTail<T>(s: seq<T>, k: nat)
    requires k <= |s|
    ensures k == |s| ==> Reverse(s[k..]) == []
    ensures k < |s| ==> Reverse(s[k..]) == Reverse(s[k + 1..]) + [s[k]]
  {
    if k < |s| {
      ReverseConcat([s[k]], s[k + 1..]);
      assert s[k..] == [s[k]] + s[k + 1..];
      OneReversed(s[k]);
    }
  }

  lemma OneReversed<T>(x: T)
    ensures Reverse([x]) == [x]
  {
    assert [x][..0] == [];
  }

  lemma EvenHasTwo(n: nat)
    requires n > 0
    ensures n % 2 == 0 ==> n >= 2 && 1 <= Ctz(n)
    ensures Pow2(0) == 1 && Pow2(1) == 2
  {
  }

  // ---- what Extend needs -----------------------------------------------------------------------------

  predicate Same(was: Device, dev: Device, b: Addr) {
    b in was ==> b in dev && dev[b] == was[b]
  }

  // Blocks that are not written keep every older file as it is.
  ghost predicate Untouched(was: Device, dev: Device, chain: seq<Addr>) {
    forall k :: 0 <= k < |chain| ==> Same(was, dev, chain[k])
  }

  ghost predicate OnlyWrites(was: Device, dev: Device, nblock: Addr) {
    forall b :: b != nblock ==> Same(was, dev, b)
  }

  lemma StillHas(was: Device, dev: Device, nblock: Addr, b: Addr)
    requires OnlyWrites(was, dev, nblock) && b in was && b != nblock
    ensures b in dev && dev[b] == was[b]
  {
    assert Same(was, dev, b);
  }

  lemma NotAmong(chain: seq<Addr>, k: nat, b: Addr)
    requires k < |chain| && b !in chain
    ensures chain[k] != b
  {
    assert chain[k] in chain;
  }

  lemma WritesOne(was: Device, nblock: Addr, blk: seq<byte>)
    ensures OnlyWrites(was, was[nblock := blk], nblock)
  {
  }

  lemma FreshUntouched(was: Device, dev: Device, chain: seq<Addr>, nblock: Addr)
    requires nblock !in chain && OnlyWrites(was, dev, nblock)
    ensures Untouched(was, dev, chain)
  {
    hide Same;
    forall k | 0 <= k < |chain|
      ensures Same(was, dev, chain[k])
    {
      NotAmong(chain, k, nblock);
    }
  }

  lemma {:induction false} DataFrame(was: Device, dev: Device, blockSize: nat, chain: seq<Addr>)
    requires Linked(was, blockSize, chain) && Untouched(was, dev, chain)
    ensures Data(dev, chain) == Data(was, chain)
    decreases |chain|
  {
    hide Pointers, BlockOk;
    if chain != [] {
      var n := |chain| - 1;
      LinkedInit(was, blockSize, chain);
      BlockBytes(was, blockSize, chain, n);
      assert Same(was, dev, chain[n]);
      DataFrame(was, dev, blockSize, chain[..n]);
    }
  }

  lemma BlockFrame(was: Device, dev: Device, blockSize: nat, chain: seq<Addr>, k: nat)
    requires k < |chain| && BlockOk(was, blockSize, chain, k) && chain[k] in dev && dev[chain[k]] == was[chain[k]]
    ensures BlockOk(dev, blockSize, chain, k)
  {
    hide Pointers, Pointer, Ctz, Pow2;
    if k > 0 {
      forall j: nat | j <= Ctz(k)
        ensures PointerOk(dev, chain, k, j)
      {
        assert PointerOk(was, chain, k, j);
      }
    }
  }

  lemma LinkedFrame(was: Device, dev: Device, blockSize: nat, chain: seq<Addr>)
    requires Linked(was, blockSize, chain) && Untouched(was, dev, chain)
    ensures Linked(dev, blockSize, chain)
  {
    hide BlockOk;
    forall k | 0 <= k < |chain|
      ensures BlockOk(dev, blockSize, chain, k)
    {
      BlockBytes(was, blockSize, chain, k);
      assert BlockOk(was, blockSize, chain, k);
      assert Same(was, dev, chain[k]);
      BlockFrame(was, dev, blockSize, chain, k);
    }
  }

  // Writing a block that no older file uses changes no older file.
  lemma OlderFiles(was: Device, dev: Device, blockSize: nat, nblock: Addr, chain: seq<Addr>, head: Addr, size: nat)
    requires Accepted(blockSize) && IsFile(was, blockSize, chain, head, size) && nblock !in chain
    requires OnlyWrites(was, dev, nblock)
    ensures IsFile(dev, blockSize, chain, head, size)
    ensures size <= |Data(was, chain)| && size <= |Data(dev, chain)|
            && Content(dev, chain, size) == Content(was, chain, size)
  {
    hide Accepted, Linked, Straight, Index, Data;
    EmptyFile(was, blockSize, chain, head, size);
    FreshUntouched(was, dev, chain, nblock);
    if size > 0 {
      FileParts(was, blockSize, chain, head, size);
      LinkedFrame(was, dev, blockSize, chain);
      DataFrame(was, dev, blockSize, chain);
    }
  }

  lemma FirstBlockOk(was: Device, dev: Device, blockSize: nat, chain: seq<Addr>, nblock: Addr)
    requires blockSize >= 104 && nblock in dev && |dev[nblock]| == blockSize && chain == []
    ensures Linked(dev, blockSize, [nblock]) && Located(blockSize, 0, 0, 0)
    ensures [nblock][..0] == [] && 0 <= |Data(dev, [nblock])|
    ensures Content(dev, [nblock], 0) == Content(was, chain, 0)
  {
    hide Data;
    StartZero(blockSize);
    assert Start(blockSize, 1) == Start(blockSize, 0) + blockSize - Pointers(0);
    assert BlockOk(dev, blockSize, [nblock], 0);
    assert Located(blockSize, 0, 0, 0);
  }

  function Overlay<T>(src: seq<T>, dst: seq<T>, i: nat): seq<T>
    requires i <= |src| == |dst|
  {
    src[..i] + dst[i..]
  }

  lemma NothingCopied<T>(src: seq<T>, dst: seq<T>)
    requires |src| == |dst|
    ensures Overlay(src, dst, 0) == dst
  {
  }

  lemma CopyNext<T>(src: seq<T>, dst: seq<T>, i: nat)
    requires i < |src| == |dst|
    ensures |Overlay(src, dst, i)| == |src| && Overlay(src, dst, i)[i := src[i]] == Overlay(src, dst, i + 1)
  {
  }

  lemma CopyFits(dev: Device, blockSize: nat, chain: seq<Addr>, size: nat, index: nat, last: nat)
    requires blockSize >= 104 && 0 < size <= FILE_MAX && Linked(dev, blockSize, chain)
    requires |chain| == index + 1 && Located(blockSize, size - 1, index, last) && last + 1 != blockSize
    ensures chain[index] in dev && |dev[chain[index]]| == blockSize && Pointers(index) <= last && last + 1 < blockSize
    ensures Located(blockSize, size, index, last + 1)
  {
    hide Pointers, Start;
    BlockBytes(dev, blockSize, chain, index);
    NextStart(blockSize, index);
  }

  lemma OverlayKeeps<T>(src: seq<T>, dst: seq<T>, i: nat, p: nat)
    requires p <= i <= |src| == |dst|
    ensures |Overlay(src, dst, i)| == |src| && Overlay(src, dst, i)[..i] == src[..i]
    ensures Overlay(src, dst, i)[p..][..i - p] == src[p..][..i - p]
  {
  }

  lemma CopiedLinked(was: Device, dev: Device, blockSize: nat, chain: seq<Addr>, chain': seq<Addr>, nblock: Addr,
                     size: nat, index: nat, last: nat, erased: seq<byte>)
    requires blockSize >= 104 && 0 < size <= FILE_MAX && Linked(was, blockSize, chain) && nblock !in chain
    requires |chain| == index + 1 && Located(blockSize, size - 1, index, last) && last + 1 != blockSize
    requires chain[index] in was && |was[chain[index]]| == |erased| == blockSize && last + 1 <= blockSize
    requires chain' == chain[..index] + [nblock] && dev == was[nblock := Overlay(was[chain[index]], erased, last + 1)]
    ensures Linked(dev, blockSize, chain') && Located(blockSize, size, index, last + 1) && last + 1 < blockSize
    ensures size <= |Data(dev, chain')| && size <= |Data(was, chain)|
    ensures Content(dev, chain', size) == Content(was, chain, size)
  {
    hide *;
    CopyFits(was, blockSize, chain, size, index, last);
    var before, init := was[chain[index]], chain[..index];
    LinkedInit(was, blockSize, chain);
    assert nblock !in init;
    WritesOne(was, nblock, Overlay(before, erased, last + 1));
    FreshUntouched(was, dev, init, nblock);
    LinkedFrame(was, dev, blockSize, init);
    LinkedAt(was, blockSize, chain, index);
    OverlayKeeps(before, erased, last + 1, Pointers(index));
    CopiedBlock(was, dev, blockSize, chain, chain', index, last + 1);
    LinkedSnoc(dev, blockSize, init, nblock);
    DataLength(was, blockSize, chain);
    DataLength(dev, blockSize, chain');
    DataFrame(was, dev, blockSize, init);
    DataLength(was, blockSize, init);
    DataSnoc(dev, blockSize, init, nblock);
    assert chain == init + [chain[index]];
    DataSnoc(was, blockSize, init, chain[index]);
    NextStart(blockSize, index);
    LocatedParts(blockSize, size, index, last + 1);
    SameStart(Data(was, init), dev[nblock][Pointers(index)..], before[Pointers(index)..], size);
    ContentIs(dev, chain', size);
    ContentIs(was, chain, size);
  }

  lemma ContentIs(dev: Device, chain: seq<Addr>, size: nat)
    requires size <= |Data(dev, chain)|
    ensures Content(dev, chain, size) == Data(dev, chain)[..size]
  {
    hide Data;
  }

  lemma LinkedAt(dev: Device, blockSize: nat, chain: seq<Addr>, k: nat)
    requires Linked(dev, blockSize, chain) && k < |chain|
    ensures BlockOk(dev, blockSize, chain, k)
  {
    hide BlockOk;
  }

  lemma LocatedParts(blockSize: nat, pos: nat, i: nat, off: int)
    requires Located(blockSize, pos, i, off)
    ensures Start(blockSize, i) <= pos < Start(blockSize, i + 1) && off == Pointers(i) + pos - Start(blockSize, i)
  {
    hide Start, Pointers;
  }

  lemma SameStart<T>(a: seq<T>, b: seq<T>, c: seq<T>, n: nat)
    requires |a| <= n <= |a| + |b| && n <= |a| + |c| && b[..n - |a|] == c[..n - |a|]
    ensures (a + b)[..n] == (a + c)[..n]
  {
    assert (a + b)[..n] == a + b[..n - |a|];
    assert (a + c)[..n] == a + c[..n - |a|];
  }

  lemma DataSnoc(dev: Device, blockSize: nat, init: seq<Addr>, b: Addr)
    requires Linked(dev, blockSize, init + [b])
    ensures b in dev && |dev[b]| == blockSize && Pointers(|init|) <= blockSize
    ensures Data(dev, init + [b]) == Data(dev, init) + dev[b][Pointers(|init|)..]
  {
    hide BlockOk, Pointers;
    var chain := init + [b];
    assert chain[..|init|] == init;
    BlockBytes(dev, blockSize, chain, |init|);
  }

  lemma LinkedSnoc(dev: Device, blockSize: nat, init: seq<Addr>, b: Addr)
    requires Linked(dev, blockSize, init) && BlockOk(dev, blockSize, init + [b], |init|)
    ensures Linked(dev, blockSize, init + [b])
  {
    hide BlockOk;
    var chain := init + [b];
    forall k | 0 <= k < |chain|
      ensures BlockOk(dev, blockSize, chain, k)
    {
      if k < |init| {
        assert BlockOk(dev, blockSize, init, k);
        assert chain[..k + 1] == init[..k + 1];
        BlockPrefix(dev, blockSize, init, chain, k);
      }
    }
  }

  // The pointers are among the first upto bytes.
  lemma CopiedBlock(was: Device, dev: Device, blockSize: nat, chain: seq<Addr>, chain': seq<Addr>, k: nat, upto: nat)
    requires |chain| == |chain'| == k + 1 && chain[..k] == chain'[..k] && BlockOk(was, blockSize, chain, k)
    requires chain'[k] in dev && |dev[chain'[k]]| == blockSize && Pointers(k) <= upto <= blockSize
    requires dev[chain'[k]][..upto] == was[chain[k]][..upto]
    ensures BlockOk(dev, blockSize, chain', k)
  {
    hide Pointer, Ctz, Pow2;
    if k > 0 {
      forall j: nat | j <= Ctz(k)
        ensures PointerOk(dev, chain', k, j)
      {
        assert PointerOk(was, chain, k, j);
        PositivePower(j);
        assert chain[k - Pow2(j)] == chain[..k][k - Pow2(j)] == chain'[..k][k - Pow2(j)];
        SamePointer(dev[chain'[k]], was[chain[k]], j, upto);
      }
    }
  }

  lemma SamePointer(a: seq<byte>, b: seq<byte>, j: nat, n: nat)
    requires 4 * j + 4 <= n <= |a| && n <= |b| && a[..n] == b[..n]
    ensures Pointer(a, j) == Pointer(b, j)
  {
    hide FromLe;
    assert a[4 * j..4 * j + 4] == a[..n][4 * j..4 * j + 4];
    assert b[4 * j..4 * j + 4] == b[..n][4 * j..4 * j + 4];
  }

  function SetPointer(blk: seq<byte>, j: nat, p: Addr): (r: seq<byte>)
    requires 4 * j + 4 <= |blk|
    ensures |r| == |blk|
  {
    blk[..4 * j] + ToLe(p.word) + blk[4 * j + 4..]
  }

  lemma SetPointerReads(blk: seq<byte>, j: nat, p: Addr, i: nat)
    requires 4 * j + 4 <= |blk| && i <= j
    ensures Pointer(SetPointer(blk, j, p), i) == if i == j then p else Pointer(blk, i)
  {
    hide FromLe, ToLe;
    var r := SetPointer(blk, j, p);
    FromLeToLe(p.word);
    if i == j {
      assert r[4 * j..4 * j + 4] == ToLe(p.word);
    } else {
      assert r[..4 * j] == blk[..4 * j];
      SamePointer(r, blk, i, 4 * j);
    }
  }

  // The first i pointers of block |chain| are in place.
  ghost predicate PointersWritten(blk: seq<byte>, chain: seq<Addr>, m: nat, i: nat)
    requires m == |chain|
  {
    forall j: nat :: j < i ==> PointerIn(blk, chain, j)
  }

  predicate PointerIn(blk: seq<byte>, chain: seq<Addr>, j: nat) {
    4 * j + 4 <= |blk| && Pow2(j) <= |chain| && Pointer(blk, j) == chain[|chain| - Pow2(j)]
  }

  lemma NoPointers(blk: seq<byte>, chain: seq<Addr>, m: nat)
    requires m == |chain|
    ensures PointersWritten(blk, chain, m, 0)
  {
  }

  lemma AppendFits(dev: Device, blockSize: nat, chain: seq<Addr>, size: nat, m: nat)
    requires blockSize >= 104 && 0 < size <= FILE_MAX && m > 0
    requires Located(blockSize, size - 1, m - 1, blockSize - 1)
    ensures 4 * (Ctz(m) + 1) <= blockSize - 4 && Pow2(0) == 1
    ensures size == Start(blockSize, m) && Located(blockSize, size, m, 4 * (Ctz(m) + 1))
  {
    hide Ctz, Start;
    NextStart(blockSize, m - 1);
    NotBeyond(blockSize, size, m);
    SmallIndices(blockSize, size, m);
    CtzBound(m);
    NextStart(blockSize, m);
  }

  lemma WritePointer(blk: seq<byte>, chain: seq<Addr>, m: nat, i: nat, h: Addr)
    requires m == |chain| && PointersWritten(blk, chain, m, i) && 4 * i + 4 <= |blk|
    requires Pow2(i) <= m && h == chain[m - Pow2(i)]
    ensures PointersWritten(SetPointer(blk, i, h), chain, m, i + 1)
  {
    hide Pointer, SetPointer, Pow2;
    forall j: nat | j < i + 1
      ensures PointerIn(SetPointer(blk, i, h), chain, j)
    {
      SetPointerReads(blk, i, h, j);
      if j < i {
        assert PointerIn(blk, chain, j);
      }
    }
  }

  // The next pointer is in the block that the last one points to.
  lemma NextSkip(was: Device, dev: Device, blockSize: nat, chain: seq<Addr>, nblock: Addr, m: nat, i: nat)
    requires Linked(was, blockSize, chain) && m == |chain| > 0 && i + 1 <= Ctz(m) && Pow2(i) <= m
    requires nblock !in chain && OnlyWrites(was, dev, nblock)
    ensures Pow2(i) >= 1 && Pow2(i + 1) <= m
    ensures var h := chain[m - Pow2(i)];
            h in dev && 4 * i + 4 <= |dev[h]| && Pointer(dev[h], i) == chain[m - Pow2(i + 1)]
  {
    hide Linked, Ctz, Pointer;
    CtzPower(m);
    Pow2Monotone(i + 1, Ctz(m));
    assert Pow2(i + 1) == 2 * Pow2(i);
    CtzAfterJump(m, i);
    var k := m - Pow2(i);
    HasPointer(was, blockSize, chain, k, i);
    var h := chain[k];
    NotAmong(chain, k, nblock);
    StillHas(was, dev, nblock, h);
  }

  lemma AppendedLinked(was: Device, dev: Device, blockSize: nat, chain: seq<Addr>, nblock: Addr, size: nat, m: nat)
    requires blockSize >= 104 && Linked(was, blockSize, chain) && nblock !in chain && m == |chain| > 0
    requires nblock in dev && |dev[nblock]| == blockSize && dev == was[nblock := dev[nblock]]
    requires PointersWritten(dev[nblock], chain, m, Ctz(m) + 1) && 4 * (Ctz(m) + 1) <= blockSize
    requires size <= |Data(was, chain)|
    ensures Linked(dev, blockSize, chain + [nblock]) && (chain + [nblock])[..m] == chain
    ensures size <= |Data(dev, chain + [nblock])| && Content(dev, chain + [nblock], size) == Content(was, chain, size)
  {
    hide BlockOk, Pointers;
    WritesOne(was, nblock, dev[nblock]);
    FreshUntouched(was, dev, chain, nblock);
    LinkedFrame(was, dev, blockSize, chain);
    AppendedBlock(dev, blockSize, chain, nblock, m);
    LinkedSnoc(dev, blockSize, chain, nblock);
    DataFrame(was, dev, blockSize, chain);
    DataSnoc(dev, blockSize, chain, nblock);
  }

  lemma AppendedBlock(dev: Device, blockSize: nat, chain: seq<Addr>, nblock: Addr, m: nat)
    requires m == |chain| > 0 && nblock in dev && |dev[nblock]| == blockSize
    requires PointersWritten(dev[nblock], chain, m, Ctz(m) + 1) && 4 * (Ctz(m) + 1) <= blockSize
    ensures BlockOk(dev, blockSize, chain + [nblock], m)
  {
    hide Pointer, Ctz, Pow2;
    var all := chain + [nblock];
    forall j: nat | j <= Ctz(m)
      ensures PointerOk(dev, all, m, j)
    {
      assert PointerIn(dev[nblock], chain, j);
      PositivePower(j);
    }
  }
}
