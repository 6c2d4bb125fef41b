// lfs_ctz_index: which block of a file holds a position, and where in it.
//
// Block n of a file starts with Ctz(n) + 1 pointers, except block 0, which has none; what
// is left of the block holds data.
module CtzIndex {
  import opened Util

  // The largest file, LFS_FILE_MAX.
  const FILE_MAX := 0x7fff_ffff

  function Div(x: nat, n: nat): nat
    requires n > 0
  {
    x / n
  }

  // The offset that belongs to an index.
  function Offset(blockSize: nat, pos: nat, i: nat): int {
    pos - (blockSize - 8) * i - 4 * Popc(i)
  }

  // The code: a first guess, corrected by the pointers in the blocks before it.
  function Index(blockSize: nat, pos: nat): (nat, nat)
    requires blockSize > 8 && pos < WORD
  {
    var b := blockSize - 8;
    var guess := Div(pos, b);
    if guess == 0 then (0, pos)
    else
      var i := Div(Wrap(pos - 4 * (Popc(guess - 1) + 2)), b);
      (i, Wrap(Offset(blockSize, pos, i)))
  }

  // ---- the layout --------------------------------------------------------------------------

  // Where the data of block n begins in the block ...
  function Pointers(n: nat): nat {
    if n == 0 then 0 else 4 * (Ctz(n) + 1)
  }

  // ... and where it begins in the file.
  function Start(blockSize: nat, n: nat): int {
    if n == 0 then 0 else Start(blockSize, n - 1) + blockSize - Pointers(n - 1)
  }

  // Block i holds the position, at offset off.
  predicate Located(blockSize: nat, pos: nat, i: nat, off: int) {
    Start(blockSize, i) <= pos < Start(blockSize, i + 1) && off == Pointers(i) + pos - Start(blockSize, i)
  }

  lemma Distribute(b: nat, n: nat)
    ensures b * (n + 1) == b * n + b
  {
  }

  // The closed form rests on the sum over 0 < k < n of Ctz(k) + 1 being
  // 2 * (n - 1) - Popc(n - 1).
  lemma {:induction false} StartFormula(blockSize: nat, n: nat)
    requires blockSize > 8 && n > 0
    ensures Start(blockSize, n) == (blockSize - 8) * n + 8 + 4 * Popc(n - 1)
    decreases n
  {
    if n > 1 {
      StartFormula(blockSize, n - 1);
      PopcStep(n - 1);
      Distribute(blockSize - 8, n - 1);
      hide Popc, Ctz;
    }
  }

  // ---- which block sizes are accepted -------------------------------------------------------------

  // The assertion of lfs_init: a block has room for the pointers of every block.
  predicate Accepted(blockSize: nat) {
    blockSize > 8 && (WORD - 1) / (blockSize - 8) >= 2 && 4 * Npw2((WORD - 1) / (blockSize - 8)) <= blockSize
  }

  lemma AcceptedSize(blockSize: nat)
    requires Accepted(blockSize)
    ensures blockSize >= 104
  {
    hide Npw2;
    if blockSize <= 103 {
      var a := (WORD - 1) / (blockSize - 8);
      Fewer(blockSize - 8);
      Npw2IsBitLength(a);
      BitLengthMonotone(0x200_0000, a - 1);
      TwentySix();
    }
  }

  lemma Fewer(b: nat)
    requires 0 < b <= 95
    ensures (WORD - 1) / b > 0x200_0000
  {
    var q := (WORD - 1) / b;
    assert WORD - 1 == b * q + (WORD - 1) % b;
    if q <= 0x200_0000 {
      Smaller(b, q);
    }
  }

  lemma Smaller(b: nat, q: nat)
    requires b <= 95 && q <= 0x200_0000
    ensures b * q <= 95 * 0x200_0000
  {
    Distributes(q, 95, b);
    NotNegative(q, 95 - b);
  }

  lemma TwentySix()
    ensures BitLength(0x200_0000) == 26
  {
    hide BitLength;
    Shift16(0x200_0000);
    Shift8(0x200);
    SmallLength(2);
  }

  // Below the largest file size, indices have at most 25 bits.
  lemma SmallIndices(blockSize: nat, pos: nat, i: nat)
    requires blockSize >= 104 && pos <= FILE_MAX && i <= pos / (blockSize - 8)
    ensures i < 0x200_0000 && BitLength(i) <= 25
  {
    var b := blockSize - 8;
    var q := pos / b;
    assert pos == b * q + pos % b;
    if i >= 0x200_0000 {
      Larger(b, q);
    }
    BitLengthMonotone(i, 0x1ff_ffff);
    TwentyFive();
  }

  lemma Larger(b: nat, q: nat)
    requires b >= 96 && q >= 0x200_0000
    ensures b * q >= 96 * 0x200_0000
  {
    assert b * q >= 96 * q;
  }

  lemma TwentyFive()
    ensures BitLength(0x1ff_ffff) == 25
  {
    hide BitLength;
    Shift16(0x1ff_ffff);
    Shift8(0x1ff);
    SmallLength(1);
  }

  // ---- the position is in at most one block -----------------------------------------------------------

  lemma {:induction false} StartGrows(blockSize: nat, i: nat, j: nat)
    requires blockSize >= 104 && i <= j <= 0x200_0000
    ensures Start(blockSize, i) <= Start(blockSize, j)
    decreases j
  {
    if i < j {
      StartGrows(blockSize, i, j - 1);
      if j > 1 {
        CtzBound(j - 1);
        BitLengthMonotone(j - 1, 0x1ff_ffff);
        TwentyFive();
      }
      hide Ctz, BitLength;
    }
  }

  lemma NotBeyond(blockSize: nat, pos: nat, i: nat)
    requires blockSize > 8 && Start(blockSize, i) <= pos
    ensures i <= pos / (blockSize - 8)
  {
    var b := blockSize - 8;
    if i > 0 {
      StartFormula(blockSize, i);
      hide Start, Popc;
      Below(b, i, pos);
    }
  }

  lemma Below(b: nat, i: nat, pos: nat)
    requires b > 0 && b * i <= pos
    ensures i <= pos / b
  {
    var q, r := pos / b, pos % b;
    assert pos == b * q + r;
    if i > q {
      AtLeastOnce(b, i - q);
      Distributes(b, i, q);
    }
  }

  // The unique (i, off) with Start(i) <= pos < Start(i + 1).
  lemma LocatedOnce(blockSize: nat, pos: nat, i: nat, j: nat, off: int, off': int)
    requires blockSize >= 104 && pos <= FILE_MAX
    requires Located(blockSize, pos, i, off) && Located(blockSize, pos, j, off')
    ensures i == j && off == off'
  {
    hide Start, Pointers;
    NotBeyond(blockSize, pos, i);
    NotBeyond(blockSize, pos, j);
    SmallIndices(blockSize, pos, i);
    SmallIndices(blockSize, pos, j);
    if i < j {
      StartGrows(blockSize, i + 1, j);
    } else if j < i {
      StartGrows(blockSize, j + 1, i);
    }
  }

  // ---- when the code is right ------------------------------------------------------------------------

  // Bytes of pointers to make up for when the position is in the block of the first guess.
  function Behind(n: nat): nat
    requires n > 0
  {
    8 + 4 * Popc(n - 1)
  }

  // The first guess is at most one block too high, or too high by two for both the code
  // and the layout.
  predicate Straight(blockSize: nat, pos: nat)
    requires blockSize > 8
  {
    var b := blockSize - 8;
    var guess, r := pos / b, pos % b;
    guess <= 1 || Behind(guess) <= r || (Behind(guess) <= b + r <==> Behind(guess - 1) <= b + r)
  }

  // What the code computes, by how far the first guess is off.
  lemma CodeBySteps(blockSize: nat, pos: nat, guess: nat, r: nat)
    requires blockSize >= 104 && pos <= FILE_MAX && pos >= blockSize - 8
    requires guess == pos / (blockSize - 8) && r == pos % (blockSize - 8)
    ensures guess >= 1 && (guess == 1 ==> Behind(guess) <= blockSize - 8 + r)
    ensures Index(blockSize, pos).0
         == if Behind(guess) <= r then guess else if Behind(guess) <= blockSize - 8 + r then guess - 1 else guess - 2
  {
    hide Popc, Offset, Behind;
    var b := blockSize - 8;
    Below(b, 1, pos);
    BehindBound(blockSize, pos, guess);
    NoBits();
    BehindIs(guess);
    Divided(pos, b);
    Corrected(pos, b, guess, r, Behind(guess));
    IndexIs(blockSize, pos, guess);
  }

  lemma IndexIs(blockSize: nat, pos: nat, guess: nat)
    requires blockSize > 8 && pos <= FILE_MAX && guess == pos / (blockSize - 8) && guess > 0
    requires 4 * (Popc(guess - 1) + 2) <= pos
    ensures Index(blockSize, pos).0 == (pos - 4 * (Popc(guess - 1) + 2)) / (blockSize - 8)
  {
    hide Popc, Offset;
    assert Wrap(pos - 4 * (Popc(guess - 1) + 2)) == pos - 4 * (Popc(guess - 1) + 2);
  }

  lemma BehindIs(n: nat)
    requires n > 0
    ensures Behind(n) == 4 * (Popc(n - 1) + 2)
  {
    hide Popc;
  }

  lemma Divided(x: nat, n: nat)
    requires n > 0
    ensures x == n * (x / n) + x % n && 0 <= x % n < n
  {
  }

  lemma Corrected(pos: nat, b: nat, guess: nat, r: nat, a: nat)
    requires pos == b * guess + r && r < b && 96 <= b && guess >= 1 && a <= 108
    requires guess == 1 ==> a <= b
    ensures pos >= a
    ensures (pos - a) / b == if a <= r then guess else if a <= b + r then guess - 1 else guess - 2
  {
    Distribute(b, guess - 1);
    if guess >= 2 {
      Distribute(b, guess - 2);
      NotNegative(b, guess - 2);
    }
    if a <= r {
      Quotient(pos - a, b, guess, r - a);
    } else if a <= b + r {
      Quotient(pos - a, b, guess - 1, b + r - a);
    } else {
      Quotient(pos - a, b, guess - 2, 2 * b + r - a);
    }
  }

  lemma NotNegative(a: nat, b: nat)
    ensures a * b >= 0
  {
  }

  lemma NoBits()
    ensures Popc(0) == 0 && Behind(1) == 8
  {
  }

  lemma BehindBound(blockSize: nat, pos: nat, i: nat)
    requires blockSize >= 104 && pos <= FILE_MAX && 0 < i <= pos / (blockSize - 8)
    ensures Behind(i) <= 108 && Popc(i) <= 25
  {
    SmallIndices(blockSize, pos, i - 1);
    SmallIndices(blockSize, pos, i);
    PopcBound(i - 1);
    PopcBound(i);
    hide Popc, BitLength;
  }

  // Where the position really is, likewise.
  function Truth(b: nat, guess: nat, r: nat): nat
    requires guess >= 1
  {
    if Behind(guess) <= r then guess
    else if guess == 1 || Behind(guess - 1) <= b + r then guess - 1
    else guess - 2
  }

  lemma TruthBySteps(blockSize: nat, pos: nat, guess: nat, r: nat, i: nat)
    requires blockSize >= 104 && pos <= FILE_MAX && pos >= blockSize - 8
    requires guess == pos / (blockSize - 8) && r == pos % (blockSize - 8) && guess >= 1
    requires i == Truth(blockSize - 8, guess, r)
    ensures Located(blockSize, pos, i, Offset(blockSize, pos, i))
  {
    hide Popc, Start, Ctz, Behind;
    var b := blockSize - 8;
    Divided(pos, b);
    BehindBound(blockSize, pos, guess);
    Distribute(b, guess - 1);
    if guess >= 2 {
      BehindBound(blockSize, pos, guess - 1);
      Distribute(b, guess - 2);
    }
    if guess >= 3 {
      BehindBound(blockSize, pos, guess - 2);
    }
    NoBits();
    StartFormula(blockSize, i + 1);
    BehindIs(i + 1);
    if i > 0 {
      StartFormula(blockSize, i);
      BehindIs(i);
      PopcStep(i);
    } else {
      StartZero(blockSize);
    }
    Distribute(b, i);
  }

  lemma StartZero(blockSize: nat)
    ensures Start(blockSize, 0) == 0 && Pointers(0) == 0
  {
  }

  // On every accepted block size and every position in a file, the code gives the one
  // block and offset where the layout puts the position, exactly when Straight holds.
  lemma IndexRight(blockSize: nat, pos: nat)
    requires Accepted(blockSize) && pos <= FILE_MAX
    ensures Located(blockSize, pos, Index(blockSize, pos).0, Index(blockSize, pos).1) <==> Straight(blockSize, pos)
  {
    AcceptedSize(blockSize);
    IndexRightFrom104(blockSize, pos);
    hide Accepted, Located, Straight, Index;
  }

  lemma IndexRightFrom104(blockSize: nat, pos: nat)
    requires blockSize >= 104 && pos <= FILE_MAX
    ensures Located(blockSize, pos, Index(blockSize, pos).0, Index(blockSize, pos).1) <==> Straight(blockSize, pos)
  {
    hide Popc, Start, Located, Pointers, Index, Behind, Offset;
    var b := blockSize - 8;
    var guess, r := pos / b, pos % b;
    if pos < b {
      FirstBlock(blockSize, pos);
    } else {
      var i := Index(blockSize, pos).0;
      CodeBySteps(blockSize, pos, guess, r);
      BehindBound(blockSize, pos, guess);
      var truth := Truth(b, guess, r);
      TruthBySteps(blockSize, pos, guess, r, truth);
      if i == truth {
        OffsetIs(blockSize, pos);
      } else if Located(blockSize, pos, i, Index(blockSize, pos).1) {
        LocatedOnce(blockSize, pos, i, truth, Index(blockSize, pos).1, Offset(blockSize, pos, truth));
      }
    }
  }

  lemma IndexOffset(blockSize: nat, pos: nat)
    requires blockSize > 8 && pos < WORD
    ensures var r := Index(blockSize, pos); r == (0, pos) || r.1 == Wrap(Offset(blockSize, pos, r.0))
  {
    hide Offset, Wrap, Popc, Div;
  }

  lemma SmallWrap(x: nat)
    ensures FILE_MAX < WORD && (x <= FILE_MAX ==> Wrap(x) == x)
  {
  }

  lemma OffsetIs(blockSize: nat, pos: nat)
    requires blockSize > 8 && pos <= FILE_MAX
    requires var i := Index(blockSize, pos).0; Located(blockSize, pos, i, Offset(blockSize, pos, i))
    ensures var i := Index(blockSize, pos).0; Located(blockSize, pos, i, Index(blockSize, pos).1)
  {
    hide *;
    SmallWrap(pos);
    IndexOffset(blockSize, pos);
    OffsetRange(blockSize, pos, Index(blockSize, pos).0);
    ZeroOffset(blockSize, pos);
    SmallWrap(Offset(blockSize, pos, Index(blockSize, pos).0));
  }

  lemma ZeroOffset(blockSize: nat, pos: nat)
    ensures Offset(blockSize, pos, 0) == pos
  {
    NoBits();
    hide Popc;
  }

  lemma OffsetRange(blockSize: nat, pos: nat, i: nat)
    requires blockSize > 8 && pos <= FILE_MAX && Located(blockSize, pos, i, Offset(blockSize, pos, i))
    ensures 0 <= Offset(blockSize, pos, i) <= pos
  {
    hide Start, Pointers;
    NotNegative(blockSize - 8, i);
  }

  lemma FirstBlock(blockSize: nat, pos: nat)
    requires blockSize > 8 && pos < blockSize - 8 && pos <= FILE_MAX
    ensures pos / (blockSize - 8) == 0 && Index(blockSize, pos) == (0, pos) && Located(blockSize, pos, 0, pos)
  {
    Quotient(pos, blockSize - 8, 0, pos);
    StartZero(blockSize);
    assert Start(blockSize, 1) == Start(blockSize, 0) + blockSize - Pointers(0);
    assert Located(blockSize, pos, 0, pos);
    assert Div(pos, blockSize - 8) == 0;
    assert Index(blockSize, pos) == (0, pos);
  }

  // Blocks of 144 bytes and more always satisfy the condition.
  lemma BigBlocksAreStraight(blockSize: nat, pos: nat)
    requires blockSize >= 144 && pos <= FILE_MAX
    ensures Straight(blockSize, pos)
  {
    hide Popc;
    var guess := pos / (blockSize - 8);
    if guess > 1 {
      BehindBound(blockSize, pos, guess);
      BehindBound(blockSize, pos, guess - 1);
    }
  }

  lemma BigBlocksAreAccepted(blockSize: nat)
    requires 144 <= blockSize <= 0x7fff_ffff
    ensures Accepted(blockSize)
  {
    hide Npw2, BitLength, Pow2;
    var a := (WORD - 1) / (blockSize - 8);
    Below(blockSize - 8, 2, WORD - 1);
    Npw2IsBitLength(a);
    BitLengthMonotone(a - 1, 0xffff_ffff);
    ThirtyTwo();
  }

  lemma ThirtyTwo()
    ensures BitLength(0xffff_ffff) == 32
  {
    hide BitLength;
    Shift16(0xffff_ffff);
    Shift8(0xffff);
    Shift4(0xff);
    Shift2(0xf);
    SmallLength(3);
  }

  // Smaller accepted blocks need not: here the code goes back one block too many.
  lemma CrookedPosition()
    ensures Accepted(104) && 0x100_0000 * 96 + 4 <= FILE_MAX
    ensures !Straight(104, 0x100_0000 * 96 + 4)
  {
    Quotient(WORD - 1, 96, 44739242, 63);
    Npw2IsBitLength(44739242);
    Shift16(44739241);
    Shift8(682);
    assert BitLength(2) == 2;
    Quotient(0x100_0000 * 96 + 4, 96, 0x100_0000, 4);
    Ones(24);
    assert Pow2(24) == 0x100_0000 by { Powers(); }
    assert Popc(0xff_ffff) == 1 + Popc(0x7f_ffff);
    Ones(23);
    assert Popc(0xff_fffe) == Popc(0x7f_ffff);
  }

  lemma {:induction false} Ones(k: nat)
    ensures Popc(Pow2(k) - 1) == k
  {
    if k > 0 {
      Ones(k - 1);
      assert (Pow2(k) - 1) / 2 == Pow2(k - 1) - 1;
    }
  }

  lemma Powers()
    ensures Pow2(24) == 0x100_0000 && Pow2(23) == 0x80_0000
  {
    assert Pow2(8) == 0x100;
    assert Pow2(16) == 0x1_0000;
  }
}
