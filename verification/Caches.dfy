// The read and program caches over the block device: lfs_bd_read, lfs_bd_cmp,
// lfs_bd_prog, lfs_bd_flush and lfs_bd_sync, on an honest device.
module Caches {
  import opened Wrappers
  import opened Tags
  import opened Util

  // Bytes that are not part of any program are written as ones.
  predicate Blank(s: seq<byte>) {
    forall k :: 0 <= k < |s| ==> s[k] == 0xff
  }

  function Ones(n: nat): (s: seq<byte>)
    ensures |s| == n && forall k :: 0 <= k < n ==> s[k] == 0xff
  {
    seq(n, _ => 0xff)
  }

  lemma BlankIsOnes(s: seq<byte>, i: nat, j: nat)
    requires i <= j <= |s| && Blank(s[i..])
    ensures s[i..j] == Ones(j - i)
  {
    forall k | 0 <= k < j - i
      ensures s[i..j][k] == 0xff
    {
      assert s[i..][k] == s[i + k];
    }
  }

  // What one round of programming adds; the first one also fills the gap.
  lemma NextOfAll(gap: nat, data: seq<byte>, done: nat, diff: nat)
    requires done + diff <= |data|
    ensures var all, filled := Ones(gap) + data, if done == 0 then 0 else gap + done;
            && |all| == gap + |data|
            && all[filled..gap + done + diff] == Ones(if done == 0 then gap else 0) + data[done..done + diff]
  {
    hide Ones;
    var all, more := Ones(gap) + data, data[done..done + diff];
    assert all[gap + done..gap + done + diff] == more;
    if done == 0 {
      assert all[..gap] == Ones(gap);
      assert all[0..gap + diff] == all[..gap] + all[gap..gap + diff];
    } else {
      NoOnes();
      assert [] + more == more;
    }
  }

  lemma NoOnes()
    ensures Ones(0) == []
  {
  }

  class Cache {
    var block: Option<nat>
    var off: nat
    var size: nat
    const buffer: array<byte>

    constructor (cacheSize: nat)
      ensures block == None && fresh(buffer) && buffer.Length == cacheSize
    {
      block, off, size := None, 0, 0;
      buffer := new byte[cacheSize](_ => 0xff);
    }
  }

  class Bd {
    const blockSize: nat
    const readSize: nat
    const progSize: nat
    const cacheSize: nat
    var disk: seq<seq<byte>>

    constructor (blockSize: nat, readSize: nat, progSize: nat, cacheSize: nat, disk: seq<seq<byte>>)
      requires readSize > 0 && progSize > 0 && cacheSize > 0
      requires cacheSize % readSize == 0 && cacheSize % progSize == 0 && blockSize % cacheSize == 0
      requires blockSize % progSize == 0 && forall b :: 0 <= b < |disk| ==> |disk[b]| == blockSize
      ensures Geometry() && this.disk == disk
    {
      this.blockSize, this.readSize, this.progSize, this.cacheSize := blockSize, readSize, progSize, cacheSize;
      this.disk := disk;
      new;
      AtLeast(cacheSize, readSize);
      AtLeast(cacheSize, progSize);
    }

    ghost predicate Geometry()
      reads this
    {
      && 0 < readSize <= cacheSize && 0 < progSize <= cacheSize
      && cacheSize % progSize == 0 && blockSize % progSize == 0
      && forall b :: 0 <= b < |disk| ==> |disk[b]| == blockSize
    }

    // A cache that holds bytes of the device as they are.
    ghost predicate Agrees(c: Cache)
      reads this, c, c.buffer
    {
      c.buffer.Length == cacheSize &&
      (c.block.Some? ==>
        && c.block.value < |disk| && c.size <= cacheSize && c.off + c.size <= |disk[c.block.value]|
        && c.buffer[..c.size] == disk[c.block.value][c.off..c.off + c.size])
    }

    // A cache that holds bytes still to be programmed, followed by ones.
    ghost predicate Pending(c: Cache)
      reads this, c, c.buffer
    {
      c.buffer.Length == cacheSize &&
      if c.block.None? then Blank(c.buffer[..])
      else
        && progSize > 0 && c.block.value < |disk| && c.off % progSize == 0
        && c.size < cacheSize && c.off + c.size <= |disk[c.block.value]|
        && Blank(c.buffer[c.size..])
    }

    // The device, seen through what is still to be programmed.
    ghost function View(c: Cache?, b: nat): seq<byte>
      requires b < |disk|
      reads this, c, if c == null then {} else {c.buffer}
    {
      if c != null && c.block == Some(b) && c.size <= c.buffer.Length && c.off + c.size <= |disk[b]|
      then Patch(disk[b], c.off, c.buffer[..c.size])
      else disk[b]
    }

    // lfs_bd_read.
    method Read(pcache: Cache?, rcache: Cache, hint: nat, block: nat, off: nat, size: nat)
      returns (r: Result<seq<byte>>)
      requires Geometry() && block < |disk| && hint >= 1 && Agrees(rcache)
      requires pcache != null ==> Pending(pcache) && pcache != rcache && pcache.buffer != rcache.buffer
      modifies rcache, rcache.buffer
      ensures Agrees(rcache)
      ensures off + size > blockSize ==> r == Err(Corrupt)
      ensures off + size <= blockSize ==> r == Ok(View(pcache, block)[off..off + size])
    {
      hide *;
      if off + size > blockSize {
        return Err(Corrupt);
      }
      var data: seq<byte> := [];
      ghost var view := View(pcache, block);
      ViewSize(pcache, block);
      while |data| < size
        invariant |data| <= size && data == view[off..off + |data|] && Agrees(rcache) && view == View(pcache, block)
        decreases size - |data|, if Holds(rcache, block, off + |data|) then 0 else 1
      {
        var bytes := Round(pcache, rcache, hint, block, off + |data|, size - |data|);
        Longer(view, off, |data|, |bytes|);
        data := data + bytes;
      }
      return Ok(data);
    }

    // One round of the loop of lfs_bd_read: bytes from one of the caches, or a reload.
    method Round(pcache: Cache?, rcache: Cache, hint: nat, block: nat, o: nat, most: nat) returns (bytes: seq<byte>)
      requires Geometry() && block < |disk| && hint >= 1 && Agrees(rcache) && 0 < most && o + most <= blockSize
      requires pcache != null ==> Pending(pcache) && pcache != rcache && pcache.buffer != rcache.buffer
      modifies rcache, rcache.buffer
      ensures Agrees(rcache) && |bytes| <= most && |View(pcache, block)| == blockSize
      ensures bytes == View(pcache, block)[o..o + |bytes|]
      ensures |bytes| == 0 ==> !old(Holds(rcache, block, o)) && Holds(rcache, block, o)
    {
      hide *;
      ViewSize(pcache, block);
      var diff := most;
      if pcache != null && pcache.block == Some(block) && o < pcache.off + pcache.size {
        if o >= pcache.off {
          // the byte may still be waiting to be programmed ...
          MinIs(diff, pcache.size - (o - pcache.off));
          bytes := FromProgram(pcache, block, o, Min(diff, pcache.size - (o - pcache.off)));
          return;
        }
        // ... or come soon after; then stop before those that are
        MinIs(diff, pcache.off - o);
        diff := Min(diff, pcache.off - o);
      }
      if Holds(rcache, block, o) {
        // or be cached as it is on the device
        HeldBounds(rcache, block, o);
        MinIs(diff, rcache.size - (o - rcache.off));
        diff := Min(diff, rcache.size - (o - rcache.off));
        AroundProgram(pcache, block, o, diff);
        bytes := FromCache(rcache, block, o, diff);
        return;
      }
      AgreesBounds(rcache);
      Load(rcache, hint, block, o);
      bytes := [];
    }

    lemma HeldBounds(c: Cache, block: nat, o: nat)
      requires Agrees(c) && Holds(c, block, o)
      ensures c.off <= o < c.off + c.size && c.size <= c.buffer.Length
    {
    }

    lemma AgreesBounds(c: Cache)
      requires Agrees(c)
      ensures c.buffer.Length == cacheSize
    {
    }

    predicate Holds(c: Cache, block: nat, o: nat)
      reads c
    {
      c.block == Some(block) && c.off <= o < c.off + c.size
    }

    // Loading the cache: an aligned stretch that starts at or before the byte wanted. It
    // takes that byte in, and so brings the read forward, exactly when the hint is not
    // zero or the byte is not at a read boundary.
    method Load(rcache: Cache, hint: nat, block: nat, o: nat)
      requires Geometry() && block < |disk| && o < blockSize && rcache.buffer.Length == cacheSize
      modifies rcache, rcache.buffer
      ensures Agrees(rcache) && rcache.off % readSize == 0
      ensures Holds(rcache, block, o) <==> hint >= 1 || o % readSize != 0
    {
      Stretch(o, hint, readSize);
      rcache.block := Some(block);
      rcache.off := AlignDown(o, readSize);
      rcache.size := Min(Min(AlignUp(o + hint, readSize), blockSize) - rcache.off, cacheSize);
      var from, n := rcache.off, rcache.size;
      forall k | 0 <= k < n {
        rcache.buffer[k] := disk[block][from + k];
      }
    }

    lemma ViewSize(c: Cache?, b: nat)
      requires Geometry() && b < |disk|
      ensures |View(c, b)| == |disk[b]| == blockSize
    {
    }

    method FromProgram(c: Cache, b: nat, o: nat, n: nat) returns (bytes: seq<byte>)
      requires Geometry() && b < |disk| && Pending(c) && c.block == Some(b)
      requires c.off <= o && o + n <= c.off + c.size
      ensures |View(c, b)| == blockSize && o + n <= blockSize && bytes == View(c, b)[o..o + n]
    {
      bytes := c.buffer[o - c.off..o - c.off + n];
      ghost var held := c.buffer[..c.size];
      assert bytes == held[o - c.off..o - c.off + n];
      assert View(c, b) == Patch(disk[b], c.off, held);
      PutSlice(disk[b], c.off, held, o, n);
      hide Patch, View;
    }

    // Where nothing is to be programmed the view is the device.
    lemma AroundProgram(c: Cache?, b: nat, o: nat, n: nat)
      requires Geometry() && b < |disk| && o + n <= blockSize
      requires c != null ==> Pending(c)
      requires c != null && c.block == Some(b) && o < c.off + c.size ==> o + n <= c.off
      ensures |View(c, b)| == blockSize && View(c, b)[o..o + n] == disk[b][o..o + n]
    {
    }

    // lfs_bd_cmp, through the read cache only.
    method Cmp(rcache: Cache, hint: nat, block: nat, off: nat, data: seq<byte>) returns (res: Cmp)
      requires Geometry() && block < |disk| && Agrees(rcache) && off + |data| <= blockSize && hint >= |data|
      modifies rcache, rcache.buffer
      ensures Agrees(rcache)
      ensures |disk[block]| == blockSize && res == Compare(disk[block][off..off + |data|], data)
    {
      hide *;
      ViewSize(null, block);
      for k := 0 to |data|
        invariant Agrees(rcache) && disk[block][off..off + k] == data[..k]
      {
        var got := Read(null, rcache, hint - k, block, off + k, 1);
        var one := OneByte(got, off + k, block);
        if one != data[k] {
          Differ(disk[block], off, data, k);
          return if one < data[k] then Lt else Gt;
        }
        OneMore(disk[block], off, data, k);
      }
      assert data[..|data|] == data;
      CompareSame(data);
      return Eq;
    }

    method OneByte(got: Result<seq<byte>>, at: nat, block: nat) returns (b: byte)
      requires block < |disk| && at + 1 <= |disk[block]| && got == Ok(View(null, block)[at..at + 1])
      ensures b == disk[block][at]
    {
      b := got.value[0];
    }

    // lfs_bd_flush: the pending bytes go to the device, padded with ones to a program unit.
    method Flush(pcache: Cache, rcache: Cache, validate: bool) returns (ok: bool)
      requires Geometry() && Filled(pcache) && rcache.buffer.Length == cacheSize && (validate ==> Agrees(rcache))
      requires pcache != rcache && pcache.buffer != rcache.buffer
      modifies this`disk, pcache, pcache.buffer, rcache, rcache.buffer
      ensures ok && Geometry() && pcache.block == None && Pending(pcache) && rcache.buffer.Length == cacheSize
      ensures disk == old(Programmed(pcache)) && |disk| == |old(disk)|
      ensures validate ==> Agrees(rcache)
      ensures !validate ==> rcache.block == old(rcache.block)
    {
      if pcache.block.Some? {
        var b, at := pcache.block.value, pcache.off;
        var diff := AlignUp(pcache.size, progSize);
        UnitFits(pcache);
        var data := pcache.buffer[..diff];
        hide Patch, AlignUp;
        disk := disk[b := Patch(disk[b], at, data)];
        if validate {
          // what the device has now must be what was sent
          rcache.block := None;
          PutReads(old(disk)[b], at, data);
          CompareSame(data);
          var res := Cmp(rcache, diff, b, at, data);
          if res != Eq {
            assert false;
            return false;
          }
        }
        pcache.block := None;
        forall k | 0 <= k < pcache.buffer.Length {
          pcache.buffer[k] := 0xff;
        }
      }
      return true;
    }

    // lfs_bd_sync: afterwards the device is up to date and no stale byte is cached.
    method Sync(pcache: Cache, rcache: Cache, validate: bool) returns (ok: bool)
      requires Geometry() && Filled(pcache) && rcache.buffer.Length == cacheSize
      requires pcache != rcache && pcache.buffer != rcache.buffer
      modifies this`disk, pcache, pcache.buffer, rcache, rcache.buffer
      ensures ok && Geometry() && Agrees(rcache) && pcache.block == None && Pending(pcache)
      ensures disk == old(Programmed(pcache))
    {
      ghost var was := Programmed(pcache);
      rcache.block := None;
      assert Programmed(pcache) == was;
      hide Programmed;
      ok := Flush(pcache, rcache, validate);
    }

    // Programming that goes on where the last one stopped, or starts at a program unit.
    ghost predicate Contiguous(c: Cache, block: nat, off: nat)
      reads this, c
    {
      if c.block.None? then progSize > 0 && off % progSize == 0
      else c.block == Some(block) && off == c.off + c.size
    }

    // Programming may also leave a gap, as long as it goes on in the same cache: the gap is
    // programmed as ones.
    ghost predicate Reachable(c: Cache, block: nat, off: nat)
      reads this, c
    {
      if c.block.None? then progSize > 0 && off % progSize == 0
      else c.block == Some(block) && c.off + c.size <= off && (off == c.off + c.size || off < c.off + cacheSize)
    }

    // Where the bytes pending in the cache end.
    ghost function Reached(c: Cache, off: nat): nat
      reads c
    {
      if c.block.None? then off else c.off + c.size
    }

    // lfs_bd_prog: the view gains exactly the bytes programmed, after ones in the gap before
    // them.
    method Prog(pcache: Cache, rcache: Cache, validate: bool, block: nat, off: nat, data: seq<byte>) returns (ok: bool)
      requires Geometry() && Pending(pcache) && Reachable(pcache, block, off) && Reached(pcache, off) <= off
      requires block < |disk| && off + |data| <= blockSize
      requires rcache.buffer.Length == cacheSize && (validate ==> Agrees(rcache))
      requires pcache != rcache && pcache.buffer != rcache.buffer
      modifies this`disk, pcache, pcache.buffer, rcache, rcache.buffer
      ensures ok && Geometry() && Pending(pcache) && Reachable(pcache, block, off + |data|)
      ensures data != [] ==> Contiguous(pcache, block, off + |data|)
      ensures |disk| == |old(disk)| && |old(View(pcache, block))| == blockSize
      ensures var at := old(Reached(pcache, off));
              at <= off && View(pcache, block)
                == Patch(old(View(pcache, block)), at, if data == [] then [] else Ones(off - at) + data)
      ensures forall b :: 0 <= b < |disk| && b != block ==> View(pcache, b) == old(View(pcache, b))
      ensures rcache.buffer.Length == cacheSize && (validate ==> Agrees(rcache))
    {
      hide *;
      ghost var view, others, at := View(pcache, block), disk, Reached(pcache, off);
      ghost var gap := off - at;
      ghost var all := Ones(gap) + data;
      ViewSize(pcache, block);
      PutNone(view, at);
      GapIs(pcache, block, off);
      var done := 0;
      ghost var filled := 0;
      assert all[..0] == [];
      while done < |data|
        invariant 0 <= done <= |data| && Geometry() && Pending(pcache) && Reachable(pcache, block, off + done)
        invariant filled == if done == 0 then 0 else gap + done
        invariant Reached(pcache, off + done) == at + filled && (done > 0 ==> Contiguous(pcache, block, off + done))
        invariant block < |disk| == |others| && View(pcache, block) == Patch(view, at, all[..filled])
        invariant forall b :: 0 <= b < |disk| && b != block ==> View(pcache, b) == old(View(pcache, b))
        invariant rcache.buffer.Length == cacheSize && (validate ==> Agrees(rcache))
        decreases |data| - done, if pcache.block == None then 1 else 0
      {
        ReachableParts(pcache, block, off + done);
        if pcache.block == Some(block) && pcache.off <= off + done < pcache.off + cacheSize {
          // as much as there is room for in the cache
          MinIs(|data| - done, cacheSize - (off + done - pcache.off));
          var diff := Min(|data| - done, cacheSize - (off + done - pcache.off));
          Take(pcache, rcache, validate, block, off + done, data[done..done + diff]);
          NextOfAll(gap, data, done, diff);
          PutMore(view, at, all, filled, gap + done + diff - filled);
          done := done + diff;
          filled := gap + done;
        } else {
          // start a new one
          Prepare(pcache, block, off + done);
          ContiguousIs(pcache, block, off + done);
        }
      }
      assert data != [] ==> all[..filled] == all;
      return true;
    }

    // Bytes that the cache has room for; a full cache is flushed at once.
    method Take(pcache: Cache, rcache: Cache, validate: bool, block: nat, o: nat, bytes: seq<byte>)
      requires Geometry() && Pending(pcache) && pcache.block == Some(block)
      requires pcache.off + pcache.size <= o < pcache.off + cacheSize
      requires 0 < |bytes| <= cacheSize - (o - pcache.off) && o + |bytes| <= blockSize
      requires rcache.buffer.Length == cacheSize && (validate ==> Agrees(rcache))
      requires pcache != rcache && pcache.buffer != rcache.buffer
      modifies this`disk, pcache, pcache.buffer, rcache, rcache.buffer
      ensures Geometry() && Pending(pcache) && Contiguous(pcache, block, o + |bytes|)
      ensures Reachable(pcache, block, o + |bytes|) && Reached(pcache, o + |bytes|) == o + |bytes|
      ensures block < |disk| == |old(disk)| && |old(View(pcache, block))| == blockSize
      ensures var at := old(pcache.off) + old(pcache.size);
              View(pcache, block) == Patch(old(View(pcache, block)), at, Ones(o - at) + bytes)
      ensures forall b :: 0 <= b < |disk| && b != block ==> View(pcache, b) == old(View(pcache, b))
      ensures rcache.buffer.Length == cacheSize && (validate ==> Agrees(rcache))
    {
      hide *;
      PendingBlock(pcache);
      Fill(pcache, block, o, bytes);
      FilledParts(pcache, block, o + |bytes|);
      if pcache.size == cacheSize {
        FlushFull(pcache, rcache, validate, block);
      }
      ContiguousIs(pcache, block, o + |bytes|);
    }

    lemma PendingBlock(c: Cache)
      requires Pending(c) && c.block.Some?
      ensures c.block.value < |disk|
    {
    }

    lemma GapIs(c: Cache, block: nat, off: nat)
      requires Reachable(c, block, off)
      ensures Reached(c, off) <= off && |Ones(off - Reached(c, off))| == off - Reached(c, off)
    {
      hide Ones;
    }

    lemma ReachableParts(c: Cache, block: nat, off: nat)
      requires Geometry() && Pending(c) && Reachable(c, block, off)
      ensures c.block.Some? ==>
                c.block == Some(block) && c.off + c.size <= off < c.off + cacheSize && Reached(c, off) == c.off + c.size
      ensures c.block.None? ==> Contiguous(c, block, off) && Reached(c, off) == off
    {
    }

    lemma FilledParts(c: Cache, block: nat, off: nat)
      requires Filled(c) && c.block == Some(block) && off == c.off + c.size
      ensures c.size <= cacheSize && (c.size < cacheSize ==> Contiguous(c, block, off))
    {
    }

    lemma ContiguousIs(c: Cache, block: nat, off: nat)
      requires Geometry() && Pending(c) && Contiguous(c, block, off)
      ensures Reachable(c, block, off) && Reached(c, off) == off
    {
    }

    method Fill(pcache: Cache, block: nat, o: nat, bytes: seq<byte>)
      requires Geometry() && Pending(pcache) && pcache.block == Some(block)
              && pcache.off + pcache.size <= o < pcache.off + cacheSize
      requires 0 < |bytes| <= cacheSize - (o - pcache.off) && o + |bytes| <= blockSize
      modifies pcache`size, pcache.buffer
      ensures Filled(pcache) && pcache.off + pcache.size == o + |bytes|
      ensures pcache.size < cacheSize ==> Pending(pcache) && Contiguous(pcache, block, o + |bytes|)
      ensures var at := pcache.off + old(pcache.size);
              && |old(View(pcache, block))| == blockSize
              && View(pcache, block) == Patch(old(View(pcache, block)), at, Ones(o - at) + bytes)
      ensures forall b :: 0 <= b < |disk| && b != block ==> View(pcache, b) == old(View(pcache, b))
    {
      ghost var held, gap := pcache.buffer[..pcache.size], o - pcache.off - pcache.size;
      var from := o - pcache.off;
      BlankIsOnes(pcache.buffer[..], pcache.size, from);
      forall k | 0 <= k < |bytes| {
        pcache.buffer[from + k] := bytes[k];
      }
      pcache.size := from + |bytes|;
      assert pcache.buffer[..pcache.size] == held + (Ones(gap) + bytes);
      PutTwice(disk[block], pcache.off, held, Ones(gap) + bytes);
    }

    method Prepare(pcache: Cache, block: nat, o: nat)
      requires Geometry() && Pending(pcache) && Contiguous(pcache, block, o) && pcache.block == None
      requires block < |disk| && o < blockSize
      modifies pcache
      ensures Pending(pcache) && Contiguous(pcache, block, o) && pcache.block == Some(block)
      ensures forall b :: 0 <= b < |disk| ==> View(pcache, b) == old(View(pcache, b))
    {
      Stretch(o, 0, progSize);
      pcache.block := Some(block);
      pcache.off := AlignDown(o, progSize);
      pcache.size := 0;
      assert pcache.buffer[..0] == [];
      PutNone(disk[block], pcache.off);
    }

    method FlushFull(pcache: Cache, rcache: Cache, validate: bool, block: nat)
      requires Geometry() && Filled(pcache) && pcache.block == Some(block) && pcache.size == cacheSize
      requires rcache.buffer.Length == cacheSize && (validate ==> Agrees(rcache))
      requires pcache != rcache && pcache.buffer != rcache.buffer
      modifies this`disk, pcache, pcache.buffer, rcache, rcache.buffer
      ensures Geometry() && Pending(pcache) && Contiguous(pcache, block, old(pcache.off) + cacheSize)
      ensures |disk| == |old(disk)| && forall b :: 0 <= b < |disk| ==> View(pcache, b) == old(View(pcache, b))
      ensures rcache.buffer.Length == cacheSize && (validate ==> Agrees(rcache))
    {
      hide Patch;
      FullView(pcache);
      ghost var was := Programmed(pcache);
      ghost var off := pcache.off;
      AlignedEnd(pcache);
      hide Programmed;
      var flushed := Flush(pcache, rcache, validate);
      assert disk == was;
    }

    lemma AlignedEnd(c: Cache)
      requires Geometry() && Filled(c) && c.block.Some?
      ensures (c.off + cacheSize) % progSize == 0
    {
      SumOfMultiples(c.off, cacheSize, progSize);
    }

    lemma FullView(c: Cache)
      requires Geometry() && Filled(c) && c.size == cacheSize
      ensures |Programmed(c)| == |disk| && forall b :: 0 <= b < |disk| ==> View(c, b) == Programmed(c)[b]
    {
      Stretch(cacheSize, 0, progSize);
    }

    // Once the pending bytes are programmed the device is what the view was, but for the
    // padding.
    lemma ProgrammedReads(c: Cache, b: nat, k: nat)
      requires Geometry() && Filled(c) && b < |disk| && k < blockSize
      ensures |Programmed(c)| == |disk| && |Programmed(c)[b]| == |View(c, b)| == blockSize
      ensures Programmed(c)[b][k]
           == if c.block == Some(b) && c.off + c.size <= k < c.off + AlignUp(c.size, progSize)
             then 0xff else View(c, b)[k]
    {
      if c.block == Some(b) {
        UnitFits(c);
        var n := AlignUp(c.size, progSize);
        if c.off + c.size <= k < c.off + n {
          assert c.buffer[c.size..][k - c.off - c.size] == 0xff;
        }
      }
    }

    // A cache with bytes to program; it may be full.
    ghost predicate Filled(c: Cache)
      reads this, c, c.buffer
    {
      c.buffer.Length == cacheSize &&
      if c.block.None? then Blank(c.buffer[..])
      else
        && progSize > 0 && c.block.value < |disk| && c.off % progSize == 0
        && c.size <= cacheSize && c.off + c.size <= |disk[c.block.value]|
        && Blank(c.buffer[c.size..])
    }

    // The device once the pending bytes have been programmed.
    ghost function Programmed(c: Cache): seq<seq<byte>>
      requires Geometry() && Filled(c)
      reads this, c, c.buffer
    {
      if c.block.None? then disk
      else
        UnitFits(c);
        var b := c.block.value;
        disk[b := Patch(disk[b], c.off, c.buffer[..AlignUp(c.size, progSize)])]
    }

    lemma UnitFits(c: Cache)
      requires Geometry() && Filled(c) && c.block.Some?
      ensures c.size <= AlignUp(c.size, progSize) <= cacheSize
      ensures c.off + AlignUp(c.size, progSize) <= blockSize
    {
      AlignUpWithin(c.size, progSize, cacheSize);
      EndFits(c.off, c.size, progSize, blockSize);
    }

    method FromCache(c: Cache, b: nat, o: nat, n: nat) returns (bytes: seq<byte>)
      requires b < |disk| && Agrees(c) && Holds(c, b, o) && o + n <= c.off + c.size
      ensures o + n <= |disk[b]| && bytes == disk[b][o..o + n]
    {
      bytes := c.buffer[o - c.off..o - c.off + n];
      ghost var held := c.buffer[..c.size];
      assert bytes == held[o - c.off..o - c.off + n];
      PartSlice(disk[b], c.off, held, o, n);
    }
  }

  lemma PutSlice(s: seq<byte>, at: nat, t: seq<byte>, o: nat, n: nat)
    requires at + |t| <= |s| && at <= o && o + n <= at + |t|
    ensures Patch(s, at, t)[o..o + n] == t[o - at..o - at + n]
  {
    var r := Patch(s, at, t);
    var a, b := r[o..o + n], t[o - at..o - at + n];
    forall k | 0 <= k < n
      ensures a[k] == b[k]
    {
      assert r[o + k] == t[o - at + k];
    }
  }

  lemma PartSlice(s: seq<byte>, at: nat, t: seq<byte>, o: nat, n: nat)
    requires at + |t| <= |s| && t == s[at..at + |t|] && at <= o && o + n <= at + |t|
    ensures t[o - at..o - at + n] == s[o..o + n]
  {
    var a, b := t[o - at..o - at + n], s[o..o + n];
    forall k | 0 <= k < n
      ensures a[k] == b[k]
    {
      assert t[o - at + k] == s[o + k];
    }
  }

  lemma Longer(s: seq<byte>, at: nat, k: nat, n: nat)
    requires at + k + n <= |s|
    ensures s[at..at + k + n] == s[at..at + k] + s[at + k..at + k + n]
  {
  }

  // The first byte that differs decides.
  lemma Differ(s: seq<byte>, off: nat, data: seq<byte>, k: nat)
    requires off + |data| <= |s| && k < |data| && s[off + k] != data[k] && s[off..off + k] == data[..k]
    ensures Compare(s[off..off + |data|], data) == if s[off + k] < data[k] then Lt else Gt
  {
    var a := s[off..off + |data|];
    assert a[k] == s[off + k] && a[..k] == s[off..off + k];
    CompareFrom(a, data, k);
    assert a[k..][0] == a[k] && data[k..][0] == data[k];
  }

  lemma OneMore(s: seq<byte>, off: nat, data: seq<byte>, k: nat)
    requires off + |data| <= |s| && k < |data| && s[off + k] == data[k] && s[off..off + k] == data[..k]
    ensures s[off..off + (k + 1)] == data[..k + 1]
  {
    assert s[off..off + (k + 1)] == s[off..off + k] + [s[off + k]];
    assert data[..k + 1] == data[..k] + [data[k]];
  }

  lemma PutNone(s: seq<byte>, at: nat)
    requires at <= |s|
    ensures Patch(s, at, []) == s
  {
  }

  lemma PutTwice(s: seq<byte>, at: nat, t: seq<byte>, u: seq<byte>)
    requires at + |t| + |u| <= |s|
    ensures Patch(Patch(s, at, t), at + |t|, u) == Patch(s, at, t + u)
  {
  }

  lemma PutMore(s: seq<byte>, off: nat, data: seq<byte>, k: nat, n: nat)
    requires off + |data| <= |s| && k + n <= |data|
    ensures Patch(Patch(s, off, data[..k]), off + k, data[k..k + n]) == Patch(s, off, data[..k + n])
  {
    PutTwice(s, off, data[..k], data[k..k + n]);
    assert data[..k] + data[k..k + n] == data[..k + n];
  }

  lemma PutReads(s: seq<byte>, at: nat, t: seq<byte>)
    requires at + |t| <= |s|
    ensures Patch(s, at, t)[at..at + |t|] == t
  {
  }

  // An aligned start and a size rounded up stay within an aligned block.
  lemma EndFits(off: nat, size: nat, n: nat, limit: nat)
    requires n > 0 && off % n == 0 && limit % n == 0 && off + size <= limit
    ensures off + AlignUp(size, n) <= limit
  {
    var r := AlignUp(size, n);
    SumOfMultiples(off, r, n);
    if off + r > limit {
      GapOfMultiples(off + r, limit, n);
    }
  }

  lemma Stretch(o: nat, hint: nat, n: nat)
    requires n > 0
    ensures AlignDown(o, n) <= o < AlignDown(o, n) + n && o + hint <= AlignUp(o + hint, n)
    ensures hint == 0 && o % n == 0 ==> AlignDown(o, n) == o == AlignUp(o + hint, n)
    ensures hint >= 1 || o % n != 0 ==> o < AlignUp(o + hint, n)
    ensures AlignDown(o, n) <= AlignUp(o + hint, n)
  {
    var r := AlignUp(o + hint, n);
    if hint == 0 && o % n == 0 {
      if r > o {
        GapOfMultiples(r, o, n);
      }
    }
  }

  lemma AtLeast(x: nat, n: nat)
    requires x > 0 && n > 0 && x % n == 0
    ensures n <= x
  {
    if x < n {
      Quotient(x, n, 0, x);
    }
  }
}
