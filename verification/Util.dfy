// The arithmetic helpers of lfs_util.h.
module Util {

  // Thirty-two-bit words wrap around.
  const WORD := 0x1_0000_0000

  function Wrap(x: int): nat {
    x % WORD
  }

  function Min(a: nat, b: nat): nat {
    if a < b then a else b
  }

  lemma MinIs(a: nat, b: nat)
    ensures Min(a, b) <= a && Min(a, b) <= b && (Min(a, b) == a || Min(a, b) == b)
  {
  }

  // A sequence with another one written over it.
  function Patch<T>(s: seq<T>, at: nat, t: seq<T>): (r: seq<T>)
    requires at + |t| <= |s|
    ensures |r| == |s|
  {
    s[..at] + t + s[at + |t|..]
  }

  function AlignDown(a: nat, alignment: nat): (r: nat)
    requires alignment > 0
    ensures r <= a < r + alignment && r % alignment == 0
  {
    DownIsMultiple(a, alignment);
    a - a % alignment
  }

  function AlignUp(a: nat, alignment: nat): (r: nat)
    requires alignment > 0
    ensures a <= r < a + alignment && r % alignment == 0
  {
    AlignDown(a + alignment - 1, alignment)
  }

  // ---- division -----------------------------------------------------------------------

  lemma {:induction false} AtLeastOnce(n: nat, d: nat)
    requires d >= 1
    ensures n * d >= n
  {
    if d > 1 {
      AtLeastOnce(n, d - 1);
      assert n * d == n * (d - 1) + n;
    }
  }

  lemma Quotient(x: nat, n: nat, q: nat, r: nat)
    requires r < n && x == n * q + r
    ensures x / n == q && x % n == r
  {
    var d, m := x / n, x % n;
    assert x == n * d + m;
    if q > d {
      AtLeastOnce(n, q - d);
      Distributes(n, q, d);
    } else if q < d {
      AtLeastOnce(n, d - q);
      Distributes(n, d, q);
    }
  }

  lemma Distributes(n: nat, a: nat, b: nat)
    requires b <= a
    ensures n * (a - b) == n * a - n * b
  {
  }

  lemma DownIsMultiple(a: nat, alignment: nat)
    requires alignment > 0
    ensures (a - a % alignment) % alignment == 0
  {
    Quotient(a - a % alignment, alignment, a / alignment, 0);
  }

  // Rounding up stays within a limit that is itself aligned.
  lemma AlignUpWithin(a: nat, alignment: nat, limit: nat)
    requires alignment > 0 && a <= limit && limit % alignment == 0
    ensures AlignUp(a, alignment) <= limit
  {
    var r := AlignUp(a, alignment);
    if r > limit {
      GapOfMultiples(r, limit, alignment);
    }
  }

  lemma SumOfMultiples(a: nat, b: nat, n: nat)
    requires n > 0 && a % n == 0 && b % n == 0
    ensures (a + b) % n == 0
  {
    var q := a / n + b / n;
    assert n * q == n * (a / n) + n * (b / n);
    Quotient(a + b, n, q, 0);
  }

  lemma GapOfMultiples(r: nat, limit: nat, n: nat)
    requires n > 0 && r % n == 0 && limit % n == 0 && limit < r
    ensures limit + n <= r
  {
    var gap := r - limit;
    if gap < n {
      Quotient(r, n, limit / n, gap);
    }
  }

  // ---- bits -----------------------------------------------------------------------------

  function Pow2(k: nat): (r: nat)
    ensures r >= 1
  {
    if k == 0 then 1 else 2 * Pow2(k - 1)
  }

  // lfs_popc: how many bits are set.
  function Popc(n: nat): nat {
    if n == 0 then 0 else n % 2 + Popc(n / 2)
  }

  // lfs_ctz: how many zero bits come before the first one.
  function Ctz(n: nat): nat
    requires n > 0
  {
    if n % 2 == 1 then 0 else 1 + Ctz(n / 2)
  }

  function BitLength(n: nat): nat {
    if n == 0 then 0 else 1 + BitLength(n / 2)
  }

  // lfs_npw2, by the cascade of comparisons and shifts that stands in for the intrinsic.
  function Npw2(a: nat): nat
    requires a < 0x1_0000_0000
  {
    var a0 := OneBefore(a);
    var a1 := Narrow(a0, 0x10000);
    var a2 := Narrow(a1, 0x100);
    var a3 := Narrow(a2, 0x10);
    var a4 := Narrow(a3, 0x4);
    Gain(a0, 0x10000, 16) + Gain(a1, 0x100, 8) + Gain(a2, 0x10, 4) + Gain(a3, 0x4, 2) + a4 / 2 + 1
  }

  // Subtracting one wraps around below zero.
  function OneBefore(a: nat): nat {
    if a == 0 then 0xffff_ffff else a - 1
  }

  function Narrow(n: nat, p: nat): nat
    requires p > 0
  {
    if n > p - 1 then n / p else n
  }

  function Gain(n: nat, p: nat, bits: nat): nat {
    if n > p - 1 then bits else 0
  }

  // The defining property, both sides: 2^(k-1) < a <= 2^k. It fails for zero, as the
  // subtraction wraps around, and for one, of which the result should be zero.
  lemma Npw2IsBitLength(a: nat)
    requires a < 0x1_0000_0000
    ensures Npw2(a) == if a == 1 then 1 else BitLength(OneBefore(a))
    ensures Pow2(Npw2(a)) >= a && (a >= 2 <==> Npw2(a) >= 1 && Pow2(Npw2(a) - 1) < a)
    ensures a >= 2 ==> Npw2(a) == BitLength(a - 1)
  {
    if a == 1 {
      assert Pow2(0) == 1;
      return;
    }
    hide BitLength, Pow2, Narrow, Gain;
    var a0 := OneBefore(a);
    var a1 := Narrow(a0, 0x10000);
    var a2 := Narrow(a1, 0x100);
    var a3 := Narrow(a2, 0x10);
    Narrowed(a0, 0x10000, 16);
    Narrowed(a1, 0x100, 8);
    Narrowed(a2, 0x10, 4);
    Narrowed(a3, 0x4, 2);
    SmallLength(Narrow(a3, 0x4));
    BitLengthBounds(a0);
  }

  lemma Narrowed(n: nat, p: nat, bits: nat)
    requires 1 <= n < p * p && (p, bits) in {(0x4, 2), (0x10, 4), (0x100, 8), (0x10000, 16)}
    ensures 1 <= Narrow(n, p) < p && BitLength(n) == Gain(n, p, bits) + BitLength(Narrow(n, p))
  {
    hide BitLength;
    if n >= p {
      match bits {
        case 16 => Shift16(n);
        case 8 => Shift8(n);
        case 4 => Shift4(n);
        case _ => Shift2(n);
      }
    }
  }

  lemma Shift2(n: nat)
    requires n > 0x3
    ensures BitLength(n) == 2 + BitLength(n / 0x4)
  {
    assert n / 2 / 2 == n / 4;
  }

  lemma Shift4(n: nat)
    requires n > 0xf
    ensures BitLength(n) == 4 + BitLength(n / 0x10)
  {
    Shift2(n);
    Shift2(n / 4);
    assert n / 4 / 4 == n / 0x10;
  }

  lemma Shift8(n: nat)
    requires n > 0xff
    ensures BitLength(n) == 8 + BitLength(n / 0x100)
  {
    Shift4(n);
    Shift4(n / 0x10);
    assert n / 0x10 / 0x10 == n / 0x100;
  }

  lemma Shift16(n: nat)
    requires n > 0xffff
    ensures BitLength(n) == 16 + BitLength(n / 0x10000)
  {
    Shift8(n);
    Shift8(n / 0x100);
    assert n / 0x100 / 0x100 == n / 0x10000;
  }

  lemma SmallLength(n: nat)
    requires 1 <= n < 4
    ensures BitLength(n) == n / 2 + 1
  {
  }

  lemma {:induction false} BitLengthBounds(n: nat)
    requires n > 0
    ensures BitLength(n) >= 1 && Pow2(BitLength(n) - 1) <= n < Pow2(BitLength(n))
  {
    if n > 1 {
      BitLengthBounds(n / 2);
    }
  }

  lemma {:induction false} BitLengthMonotone(m: nat, n: nat)
    requires m <= n
    ensures BitLength(m) <= BitLength(n)
  {
    if m > 0 {
      BitLengthMonotone(m / 2, n / 2);
    }
  }

  lemma {:induction false} PopcBound(n: nat)
    ensures Popc(n) <= BitLength(n)
  {
    if n > 0 {
      PopcBound(n / 2);
    }
  }

  lemma {:induction false} CtzBound(n: nat)
    requires n > 0
    ensures Ctz(n) + 1 <= BitLength(n)
  {
    if n % 2 == 0 {
      CtzBound(n / 2);
    }
  }

  // Adding one clears the trailing ones and sets one bit.
  lemma {:induction false} PopcStep(n: nat)
    requires n > 0
    ensures Popc(n) + Ctz(n) == Popc(n - 1) + 1
  {
    if n % 2 == 1 {
      assert (n - 1) / 2 == n / 2;
    } else {
      PopcStep(n / 2);
      assert (n - 1) / 2 == n / 2 - 1;
    }
  }

  lemma {:induction false} Pow2Monotone(j: nat, k: nat)
    requires j <= k
    ensures Pow2(j) <= Pow2(k)
    decreases k
  {
    if j < k {
      Pow2Monotone(j, k - 1);
    }
  }

  lemma {:induction false} CtzPower(n: nat)
    requires n > 0
    ensures Pow2(Ctz(n)) <= n
  {
    if n % 2 == 0 {
      CtzPower(n / 2);
    }
  }

  // Taking away a power of two at or below the last set bit.
  lemma {:induction false} CtzAfterJump(n: nat, j: nat)
    requires n > 0 && j <= Ctz(n) && Pow2(j) < n
    ensures if j == Ctz(n) then Ctz(n - Pow2(j)) > j else Ctz(n - Pow2(j)) == j
    decreases j
  {
    if j > 0 {
      CtzAfterJump(n / 2, j - 1);
      assert (n - Pow2(j)) / 2 == n / 2 - Pow2(j - 1);
    }
  }

  // ---- sequences ------------------------------------------------------------------------

  function Reverse<T>(s: seq<T>): seq<T> {
    if s == [] then [] else [s[|s| - 1]] + Reverse(s[..|s| - 1])
  }

  lemma ReverseSnoc<T>(s: seq<T>, x: T)
    ensures Reverse(s + [x]) == [x] + Reverse(s)
  {
    assert (s + [x])[..|s + [x]| - 1] == s;
  }

  lemma {:induction false} ReverseConcat<T>(a: seq<T>, b: seq<T>)
    ensures Reverse(a + b) == Reverse(b) + Reverse(a)
    decreases |b|
  {
    if b == [] {
      assert a + b == a;
    } else {
      var init, x := b[..|b| - 1], b[|b| - 1];
      ReverseConcat(a, init);
      ReverseSnoc(a + init, x);
      assert a + init + [x] == a + b;
      assert [x] + (Reverse(init) + Reverse(a)) == [x] + Reverse(init) + Reverse(a);
    }
  }

  lemma NothingReversed<T>()
    ensures Reverse<T>([]) == []
  {
  }

  // Equal beginnings have equal slices, and so do equal ends.
  lemma SameSlice<T>(a: seq<T>, b: seq<T>, k: nat, i: nat, j: nat)
    requires i <= j <= k <= |a| && k <= |b| && a[..k] == b[..k]
    ensures a[i..j] == b[i..j]
  {
    var x, y := a[i..j], b[i..j];
    forall q | 0 <= q < j - i
      ensures x[q] == y[q]
    {
      assert a[..k][i + q] == b[..k][i + q];
    }
  }

  lemma LaterSlice<T>(a: seq<T>, b: seq<T>, k: nat, i: nat, j: nat)
    requires k <= i <= j <= |a| && |a| == |b| && a[k..] == b[k..]
    ensures a[i..j] == b[i..j]
  {
    var x, y := a[i..j], b[i..j];
    forall q | 0 <= q < j - i
      ensures x[q] == y[q]
    {
      assert a[k..][i - k + q] == b[k..][i - k + q];
    }
  }

  // ---- comparing ------------------------------------------------------------------------

  datatype Cmp = Eq | Lt | Gt

  // How a name on disk compares with the name searched for. Where one is a prefix of the
  // other, the end of a name counts as greater than any byte.
  function Compare(disk: seq<bv8>, name: seq<bv8>): Cmp
    decreases |disk|
  {
    if disk == [] then (if name == [] then Eq else Gt)
    else if name == [] then Lt
    else if disk[0] == name[0] then Compare(disk[1..], name[1..])
    else if disk[0] < name[0] then Lt else Gt
  }

  // Sequences that begin alike compare like what follows.
  lemma CompareFrom(a: seq<bv8>, b: seq<bv8>, k: nat)
    requires k < |a| && k < |b| && a[..k] == b[..k]
    ensures Compare(a, b) == Compare(a[k..], b[k..])
    decreases k
  {
    if k == 0 {
      assert a[0..] == a && b[0..] == b;
    } else {
      assert a[0] == a[..k][0] && b[0] == b[..k][0];
      assert a[1..][..k - 1] == a[..k][1..] && b[1..][..k - 1] == b[..k][1..];
      CompareFrom(a[1..], b[1..], k - 1);
      assert a[1..][k - 1..] == a[k..] && b[1..][k - 1..] == b[k..];
    }
  }

  lemma {:induction false} CompareSame(a: seq<bv8>)
    ensures Compare(a, a) == Eq
    decreases |a|
  {
    if a != [] {
      CompareSame(a[1..]);
    }
  }
}
