// lfs_crc: the CRC-32 that seals every commit.
module Crc {
  import opened Tags
  import opened Words

  const POLYNOMIAL: bv32 := 0x04c11db7
  const REFLECTED: bv32 := 0xedb88320

  // ---- the code: two table lookups per byte ------------------------------------------------

  function Table(n: bv32): bv32
    requires n < 16
  {
    if n == 0 then 0x00000000 else if n == 1 then 0x1db71064
    else if n == 2 then 0x3b6e20c8 else if n == 3 then 0x26d930ac
    else if n == 4 then 0x76dc4190 else if n == 5 then 0x6b6b51f4
    else if n == 6 then 0x4db26158 else if n == 7 then 0x5005713c
    else if n == 8 then 0xedb88320 else if n == 9 then 0xf00f9344
    else if n == 10 then 0xd6d6a3e8 else if n == 11 then 0xcb61b38c
    else if n == 12 then 0x9b64c2b0 else if n == 13 then 0x86d3d2d4
    else if n == 14 then 0xa00ae278 else 0xbdbdf21c
  }

  function TableStep(crc: bv32, bits: bv32): bv32 {
    Xor(High(crc), Lookup(Xor(crc, bits)))
  }

  function ByteStep(crc: bv32, b: byte): bv32 {
    TableStep(TableStep(crc, b as bv32), High(b as bv32))
  }

  // The word operations that the proofs below treat as black boxes.

  function High(c: bv32): bv32 { c >> 4 }

  function Half(c: bv32): bv32 { c >> 1 }

  function Double(c: bv32): bv32 { c << 1 }

  predicate Odd(c: bv32) { c & 1 != 0 }

  predicate Top(c: bv32) { c & 0x8000_0000 != 0 }

  function Lookup(c: bv32): bv32 { Table(c & 0xf) }

  function Crc(crc: bv32, data: seq<byte>): bv32 {
    if data == [] then crc
    else ByteStep(Crc(crc, data[..|data| - 1]), data[|data| - 1])
  }

  method Compute(crc: bv32, data: seq<byte>) returns (r: bv32)
    ensures r == Crc(crc, data)
    ensures r == SerialBytes(crc, data)
  {
    r := crc;
    for i := 0 to |data|
      invariant r == Crc(crc, data[..i])
    {
      assert data[..i + 1][..i] == data[..i];
      r := TableStep(r, data[i] as bv32);
      r := TableStep(r, High(data[i] as bv32));
    }
    assert data[..|data|] == data;
    CrcIsSerial(crc, data);
  }

  // ---- the definition: one shift per message bit ----------------------------------------------

  // The shift register of the standard takes the most significant bit first ...
  function MsbStep(r: bv32, bit: bool): bv32 {
    if Top(r) != bit then Xor(Double(r), POLYNOMIAL) else Double(r)
  }

  // ... and the reflected form is its mirror image.
  function LsbStep(c: bv32, bit: bool): bv32 {
    if Odd(c) != bit then Xor(Half(c), REFLECTED) else Half(c)
  }

  function Mirror(x: bv32): bv32 {
    var a := ((x >> 1) & 0x5555_5555) | ((x & 0x5555_5555) << 1);
    var b := ((a >> 2) & 0x3333_3333) | ((a & 0x3333_3333) << 2);
    var c := ((b >> 4) & 0x0f0f_0f0f) | ((b & 0x0f0f_0f0f) << 4);
    var d := ((c >> 8) & 0x00ff_00ff) | ((c & 0x00ff_00ff) << 8);
    (d >> 16) | (d << 16)
  }

  lemma MirrorTwice(c: bv32)
    ensures Mirror(Mirror(c)) == c
  {
  }

  lemma MirrorShift(c: bv32)
    ensures Mirror(c >> 1) == Mirror(c) << 1
  {
  }

  lemma MirrorLow(c: bv32)
    ensures c & 1 != 0 <==> Mirror(c) & 0x8000_0000 != 0
  {
  }

  lemma MirrorXor(a: bv32)
    ensures Mirror(a ^ 0xedb88320) == Mirror(a) ^ 0x04c11db7
  {
  }

  lemma MirrorHalf(c: bv32)
    ensures Mirror(Half(c)) == Double(Mirror(c))
  {
    MirrorShift(c);
    hide Mirror;
  }

  lemma MirrorOdd(c: bv32)
    ensures Odd(c) <==> Top(Mirror(c))
  {
    MirrorLow(c);
    hide Mirror;
  }

  lemma MirrorPolynomial(a: bv32)
    ensures Mirror(Xor(a, REFLECTED)) == Xor(Mirror(a), POLYNOMIAL)
  {
    MirrorXor(a);
    hide Mirror;
  }

  lemma MirrorImage(c: bv32, bit: bool)
    ensures Mirror(LsbStep(c, bit)) == MsbStep(Mirror(c), bit)
  {
    hide Mirror, Half, Double, Odd, Top, Xor;
    MirrorHalf(c);
    MirrorOdd(c);
    MirrorPolynomial(Half(c));
  }

  // Exclusive or.
  lemma XorHalf(a: bv32, b: bv32)
    ensures Half(Xor(a, b)) == Xor(Half(a), Half(b))
  {
  }

  lemma XorHigh(a: bv32, b: bv32)
    ensures High(Xor(a, b)) == Xor(High(a), High(b))
  {
  }

  lemma XorOdd(a: bv32, b: bv32)
    ensures Odd(Xor(a, b)) <==> Odd(a) != Odd(b)
  {
  }

  // A byte, least significant bit first.
  function Bits(b: byte): (r: seq<bool>)
    ensures |r| == 8
  {
    [b & 0x01 != 0, b & 0x02 != 0, b & 0x04 != 0, b & 0x08 != 0,
     b & 0x10 != 0, b & 0x20 != 0, b & 0x40 != 0, b & 0x80 != 0]
  }

  function Message(data: seq<byte>): seq<bool> {
    if data == [] then [] else Message(data[..|data| - 1]) + Bits(data[|data| - 1])
  }

  function Serial(c: bv32, bits: seq<bool>): bv32 {
    if bits == [] then c else LsbStep(Serial(c, bits[..|bits| - 1]), bits[|bits| - 1])
  }

  function Standard(r: bv32, bits: seq<bool>): bv32 {
    if bits == [] then r else MsbStep(Standard(r, bits[..|bits| - 1]), bits[|bits| - 1])
  }

  function SerialBytes(crc: bv32, data: seq<byte>): bv32 {
    Mirror(Standard(Mirror(crc), Message(data)))
  }

  // Shifting with no message bits.
  function Shift(c: bv32): bv32 {
    LsbStep(c, false)
  }

  function Shift4(c: bv32): bv32 {
    Shift(Shift(Shift(Shift(c))))
  }

  function Shift8(c: bv32): bv32 {
    Shift4(Shift4(c))
  }

  // ---- the table is right ------------------------------------------------------------------------

  // Shifting is linear, so message bits can be added before it, and several at once.
  lemma ShiftLinear(a: bv32, b: bv32)
    ensures Shift(Xor(a, b)) == Xor(Shift(a), Shift(b))
  {
    var p, q := Half(a), Half(b);
    XorHalf(a, b);
    XorOdd(a, b);
    XorSwap(p, REFLECTED, q);
    XorAssoc(p, q, REFLECTED);
    XorCancel(p, q, REFLECTED);
    hide Xor, Half, Odd;
  }

  lemma Shift4Linear(a: bv32, b: bv32)
    ensures Shift4(Xor(a, b)) == Xor(Shift4(a), Shift4(b))
  {
    hide Shift, Xor;
    ShiftLinear(a, b);
    ShiftLinear(Shift(a), Shift(b));
    ShiftLinear(Shift(Shift(a)), Shift(Shift(b)));
    ShiftLinear(Shift(Shift(Shift(a))), Shift(Shift(Shift(b))));
  }

  // The table holds the shifted nibbles ...
  lemma TableEntries(n: bv32)
    requires n < 16
    ensures Table(n) == Shift4(n)
  {
    if n == 0 {} else if n == 1 {} else if n == 2 {} else if n == 3 {}
    else if n == 4 {} else if n == 5 {} else if n == 6 {} else if n == 7 {}
    else if n == 8 {} else if n == 9 {} else if n == 10 {} else if n == 11 {}
    else if n == 12 {} else if n == 13 {} else if n == 14 {} else { assert n == 15 by { Fifteen(n); } }
  }

  lemma Fifteen(n: bv32)
    requires n < 16 && n != 0 && n != 1 && n != 2 && n != 3 && n != 4 && n != 5 && n != 6 && n != 7
    requires n != 8 && n != 9 && n != 10 && n != 11 && n != 12 && n != 13 && n != 14
    ensures n == 15
  {
  }

  // ... and a word without its low nibble just moves down.
  lemma NibbleOut(c: bv32)
    requires c & 0xf == 0
    ensures Shift4(c) == High(c)
  {
  }

  lemma SplitNibble(c: bv32)
    ensures Xor(c & 0xffff_fff0, c & 0xf) == c
    ensures (c & 0xffff_fff0) & 0xf == 0 && High(c & 0xffff_fff0) == High(c) && c & 0xf < 16
  {
  }

  lemma TableIsShift(c: bv32)
    ensures Xor(High(c), Lookup(c)) == Shift4(c)
  {
    SplitNibble(c);
    NibbleOut(c & 0xffff_fff0);
    TableEntries(c & 0xf);
    Shift4Linear(c & 0xffff_fff0, c & 0xf);
    hide Shift4, Table, Xor, High;
  }

  lemma Shift8Linear(a: bv32, b: bv32)
    ensures Shift8(Xor(a, b)) == Xor(Shift8(a), Shift8(b))
  {
    hide Shift4, Xor;
    Shift4Linear(a, b);
    Shift4Linear(Shift4(a), Shift4(b));
  }

  lemma ByteStepIsShift(c: bv32, b: byte)
    ensures ByteStep(c, b) == Shift8(Xor(c, b as bv32))
  {
    var n := b as bv32;
    NoHighBits(b);
    hide Shift4, Lookup, Xor, High;
    var x, m := Xor(c, n), High(n);
    // the first lookup, up to the four bits that have not been added yet
    TableIsShift(x);
    XorHigh(c, n);
    XorSwap(High(c), m, Lookup(x));
    XorTwice(TableStep(c, n), m);
    assert Xor(TableStep(c, n), m) == Shift4(x);
    // the second lookup
    TableIsShift(Shift4(x));
    XorHigh(TableStep(c, n), m);
    XorZero(High(TableStep(c, n)));
  }

  lemma NoHighBits(b: byte)
    ensures High(High(b as bv32)) == 0
  {
  }

  lemma SerialByte(c: bv32, b: byte)
    ensures Serial(c, Bits(b)) == Shift8(Xor(c, b as bv32))
  {
    var s := Bits(b);
    EightSteps(c, b);
    hide LsbStep, Shift8, Bits;
    assert s[..0] == [];
    SerialSnoc(c, s, 0); SerialSnoc(c, s, 1); SerialSnoc(c, s, 2); SerialSnoc(c, s, 3);
    SerialSnoc(c, s, 4); SerialSnoc(c, s, 5); SerialSnoc(c, s, 6); SerialSnoc(c, s, 7);
    assert s[..8] == s;
  }

  lemma SerialSnoc(c: bv32, s: seq<bool>, k: nat)
    requires k < |s|
    ensures Serial(c, s[..k + 1]) == LsbStep(Serial(c, s[..k]), s[k])
  {
    assert s[..k + 1][..k] == s[..k];
  }

  // Taking one message bit out of a word that has been added to the register.
  lemma PeelBit(c: bv32, n: bv32)
    ensures Shift(Xor(c, n)) == Xor(LsbStep(c, Odd(n)), Half(n))
  {
    var p, q := Half(c), Half(n);
    XorHalf(c, n);
    XorOdd(c, n);
    XorSwap(p, REFLECTED, q);
    hide Xor, Half, Odd;
  }

  lemma EightSteps(c: bv32, b: byte)
    ensures var s := Bits(b);
            LsbStep(LsbStep(LsbStep(LsbStep(LsbStep(LsbStep(LsbStep(LsbStep(c, s[0]), s[1]), s[2]), s[3]), s[4]),
              s[5]), s[6]), s[7])
            == Shift8(Xor(c, b as bv32))
  {
    var s, n0 := Bits(b), b as bv32;
    BitsOfByte(b);
    hide LsbStep, Shift, Bits, Half, Odd, Xor;
    var n1 := Half(n0);
    var n2 := Half(n1);
    var n3 := Half(n2);
    var n4 := Half(n3);
    var n5 := Half(n4);
    var n6 := Half(n5);
    var n7 := Half(n6);
    var c1 := LsbStep(c, s[0]);
    var c2 := LsbStep(c1, s[1]);
    var c3 := LsbStep(c2, s[2]);
    var c4 := LsbStep(c3, s[3]);
    var c5 := LsbStep(c4, s[4]);
    var c6 := LsbStep(c5, s[5]);
    var c7 := LsbStep(c6, s[6]);
    PeelBit(c, n0); PeelBit(c1, n1); PeelBit(c2, n2); PeelBit(c3, n3);
    PeelBit(c4, n4); PeelBit(c5, n5); PeelBit(c6, n6); PeelBit(c7, n7);
    XorZero(LsbStep(c7, s[7]));
  }

  lemma BitsOfByte(b: byte)
    ensures var s, n0 := Bits(b), b as bv32;
            var n1 := Half(n0);
            var n2 := Half(n1);
            var n3 := Half(n2);
            var n4 := Half(n3);
            var n5 := Half(n4);
            var n6 := Half(n5);
            var n7 := Half(n6);
            && s[0] == Odd(n0) && s[1] == Odd(n1) && s[2] == Odd(n2) && s[3] == Odd(n3)
            && s[4] == Odd(n4) && s[5] == Odd(n5) && s[6] == Odd(n6) && s[7] == Odd(n7)
            && Half(n7) == 0
  {
  }

  lemma {:induction false} SerialConcat(c: bv32, a: seq<bool>, b: seq<bool>)
    ensures Serial(c, a + b) == Serial(Serial(c, a), b)
    decreases |b|
  {
    hide LsbStep;
    if b == [] {
      assert a + b == a;
    } else {
      assert (a + b)[..|a + b| - 1] == a + b[..|b| - 1];
      SerialConcat(c, a, b[..|b| - 1]);
    }
  }

  lemma {:induction false} StandardIsMirrored(c: bv32, bits: seq<bool>)
    ensures Standard(Mirror(c), bits) == Mirror(Serial(c, bits))
    decreases |bits|
  {
    hide LsbStep, MsbStep, Mirror;
    if bits != [] {
      StandardIsMirrored(c, bits[..|bits| - 1]);
      MirrorImage(Serial(c, bits[..|bits| - 1]), bits[|bits| - 1]);
    }
  }

  lemma {:induction false} CrcIsLsbSerial(crc: bv32, data: seq<byte>)
    ensures Crc(crc, data) == Serial(crc, Message(data))
    decreases |data|
  {
    hide ByteStep, LsbStep, Shift8;
    if data != [] {
      var init, b := data[..|data| - 1], data[|data| - 1];
      CrcIsLsbSerial(crc, init);
      ByteStepIsShift(Crc(crc, init), b);
      SerialConcat(crc, Message(init), Bits(b));
      SerialByte(Crc(crc, init), b);
    }
  }

  // The table-driven code computes the CRC-32 of section 3.2.9 of IEEE Std 802.3, in its
  // reflected form and without the final inversion.
  lemma CrcIsSerial(crc: bv32, data: seq<byte>)
    ensures Crc(crc, data) == SerialBytes(crc, data)
  {
    CrcIsLsbSerial(crc, data);
    StandardIsMirrored(crc, Message(data));
    MirrorTwice(Serial(crc, Message(data)));
    hide Mirror;
  }

  // ---- composition, residue, error detection ----------------------------------------------------------

  lemma {:induction false} CrcConcat(crc: bv32, a: seq<byte>, b: seq<byte>)
    ensures Crc(crc, a + b) == Crc(Crc(crc, a), b)
    decreases |b|
  {
    hide ByteStep;
    if b == [] {
      assert a + b == a;
    } else {
      assert (a + b)[..|a + b| - 1] == a + b[..|b| - 1];
      CrcConcat(crc, a, b[..|b| - 1]);
    }
  }

  function LowByte(c: bv32): bv32 { c & 0xff }

  function ByteOut(c: bv32): bv32 { c >> 8 }

  function ByteIn(c: bv32): bv32 { c << 8 }

  lemma ShiftOutByte(c: bv32)
    ensures Shift8(Xor(c, LowByte(c))) == ByteOut(c)
  {
    LowByteOut(c);
    hide Shift8;
    ShiftZeros(Xor(c, LowByte(c)));
  }

  lemma LowByteOut(c: bv32)
    ensures LowByte(Xor(c, LowByte(c))) == 0 && ByteOut(Xor(c, LowByte(c))) == ByteOut(c)
  {
  }

  lemma ShiftZeros(x: bv32)
    requires LowByte(x) == 0
    ensures Shift8(x) == ByteOut(x)
  {
  }

  lemma FourBytes(crc: bv32, w: seq<byte>)
    requires |w| == 4
    ensures Crc(crc, w) == ByteStep(ByteStep(ByteStep(ByteStep(crc, w[0]), w[1]), w[2]), w[3])
  {
    hide ByteStep;
    assert w[..3][..2] == w[..2] && w[..2][..1] == w[..1] && w[..1][..0] == [];
    assert Crc(crc, w[..1]) == ByteStep(Crc(crc, []), w[0]);
    assert Crc(crc, w[..2]) == ByteStep(Crc(crc, w[..1]), w[1]);
    assert Crc(crc, w[..3]) == ByteStep(Crc(crc, w[..2]), w[2]);
  }

  lemma LeBytes(c: bv32)
    ensures var w, c1, c2, c3 := ToLe(c), ByteOut(c), ByteOut(ByteOut(c)), ByteOut(ByteOut(ByteOut(c)));
            && Wide(w[0]) == LowByte(c) && Wide(w[1]) == LowByte(c1)
            && Wide(w[2]) == LowByte(c2) && Wide(w[3]) == LowByte(c3)
            && ByteOut(c3) == 0
  {
    LeByte0(c);
    LeByte1(c);
    LeByte2(c);
    LeByte3(c);
    hide LowByte, ByteOut, Wide;
  }

  lemma LeByte0(c: bv32)
    ensures Wide((c & 0xff) as byte) == LowByte(c)
  {
  }

  lemma LeByte1(c: bv32)
    ensures Wide(((c >> 8) & 0xff) as byte) == LowByte(ByteOut(c))
  {
  }

  lemma LeByte2(c: bv32)
    ensures Wide(((c >> 16) & 0xff) as byte) == LowByte(ByteOut(ByteOut(c)))
  {
  }

  lemma LeByte3(c: bv32)
    ensures Wide((c >> 24) as byte) == LowByte(ByteOut(ByteOut(ByteOut(c))))
    ensures ByteOut(ByteOut(ByteOut(ByteOut(c)))) == 0
  {
  }

  // Data followed by its own checksum, least significant byte first, checks to zero.
  lemma Residue(crc: bv32, data: seq<byte>)
    ensures Crc(crc, data + ToLe(Crc(crc, data))) == 0
  {
    hide ByteStep, Shift8, ToLe, Xor, LowByte, ByteOut, Wide;
    var c := Crc(crc, data);
    var w := ToLe(c);
    CrcConcat(crc, data, w);
    FourBytes(c, w);
    LeBytes(c);
    var c1 := ByteOut(c);
    var c2 := ByteOut(c1);
    var c3 := ByteOut(c2);
    StepWide(c, w[0]);
    ShiftOutByte(c);
    StepWide(c1, w[1]);
    ShiftOutByte(c1);
    StepWide(c2, w[2]);
    ShiftOutByte(c2);
    StepWide(c3, w[3]);
    ShiftOutByte(c3);
  }

  // The register before a shift can be recovered from the register after it.
  function Unshift(c: bv32): bv32 {
    if c & 0x8000_0000 != 0 then ((c ^ REFLECTED) << 1) | 1 else c << 1
  }

  lemma UnshiftShift(c: bv32)
    ensures Unshift(Shift(c)) == c
  {
  }

  lemma Shift8Injective(a: bv32, b: bv32)
    requires Shift8(a) == Shift8(b)
    ensures a == b
  {
    hide Shift, Unshift;
    UnshiftTwice(a);
    UnshiftTwice(b);
  }

  function Unshift8(c: bv32): bv32 {
    Unshift(Unshift(Unshift(Unshift(Unshift(Unshift(Unshift(Unshift(c))))))))
  }

  lemma UnshiftTwice(c: bv32)
    ensures Unshift8(Shift8(c)) == c
  {
    hide Shift, Unshift;
    var c1 := Shift(c);
    var c2 := Shift(c1);
    var c3 := Shift(c2);
    var c4 := Shift(c3);
    var c5 := Shift(c4);
    var c6 := Shift(c5);
    var c7 := Shift(c6);
    UnshiftShift(c); UnshiftShift(c1); UnshiftShift(c2); UnshiftShift(c3);
    UnshiftShift(c4); UnshiftShift(c5); UnshiftShift(c6); UnshiftShift(c7);
  }

  // Different registers stay different whatever bytes follow.
  lemma {:induction false} CrcInjective(a: bv32, b: bv32, data: seq<byte>)
    requires a != b
    ensures Crc(a, data) != Crc(b, data)
    decreases |data|
  {
    hide ByteStep, Shift8;
    if data != [] {
      var init, x := data[..|data| - 1], data[|data| - 1];
      CrcInjective(a, b, init);
      StepInjective(Crc(a, init), Crc(b, init), x);
    }
  }

  lemma StepInjective(a: bv32, b: bv32, x: byte)
    requires a != b
    ensures ByteStep(a, x) != ByteStep(b, x)
  {
    hide ByteStep, Shift8, Xor;
    var n := x as bv32;
    ByteStepIsShift(a, x);
    ByteStepIsShift(b, x);
    XorTwice(a, n);
    XorTwice(b, n);
    if Shift8(Xor(a, n)) == Shift8(Xor(b, n)) {
      Shift8Injective(Xor(a, n), Xor(b, n));
    }
  }

  // Four message bytes act like one word exclusive-ored into the register.
  lemma WindowIsWord(crc: bv32, w: seq<byte>)
    requires |w| == 4
    ensures Crc(crc, w) == Shift8(Shift8(Shift8(Shift8(Xor(crc, FromLe(w))))))
  {
    hide ByteStep, Shift8, Xor, FromLe, ByteIn, Wide;
    FourBytes(crc, w);
    LeXor(w);
    LeFits(w[1], w[2], w[3]);
    WindowWords(crc, w[0], w[1], w[2], w[3]);
  }

  predicate Small(x: bv32) { x & 0xff00_0000 == 0 }

  // A message byte that is a byte ahead comes through a byte's worth of shifts unchanged.
  lemma Through(a: bv32, x: bv32)
    requires Small(x)
    ensures Shift8(Xor(a, ByteIn(x))) == Xor(Shift8(a), x)
  {
    InAndOut(x);
    ShiftZeros(ByteIn(x));
    Shift8Linear(a, ByteIn(x));
    hide Shift8, Xor, ByteIn, ByteOut;
  }

  lemma InAndOut(x: bv32)
    requires Small(x)
    ensures LowByte(ByteIn(x)) == 0 && ByteOut(ByteIn(x)) == x
  {
  }

  function Wide(b: byte): bv32 { b as bv32 }

  lemma StepWide(c: bv32, b: byte)
    ensures ByteStep(c, b) == Shift8(Xor(c, Wide(b)))
  {
    ByteStepIsShift(c, b);
    hide Shift8, Xor, ByteStep;
  }

  lemma WindowWords(crc: bv32, b0: byte, b1: byte, b2: byte, b3: byte)
    requires Small(Wide(b1)) && Small(Wide(b2)) && Small(ByteIn(Wide(b2)))
    requires Small(Wide(b3)) && Small(ByteIn(Wide(b3))) && Small(ByteIn(ByteIn(Wide(b3))))
    ensures ByteStep(ByteStep(ByteStep(ByteStep(crc, b0), b1), b2), b3)
         == Shift8(Shift8(Shift8(Shift8(Xor(crc,
              Xor(Xor(Xor(Wide(b0), ByteIn(Wide(b1))), ByteIn(ByteIn(Wide(b2)))), ByteIn(ByteIn(ByteIn(Wide(b3))))))))))
  {
    hide ByteStep, Shift8, Xor, ByteIn, Small, Wide;
    var w0, w1, w2, w3 := Wide(b0), Wide(b1), Wide(b2), Wide(b3);
    var u1, u2, u3 := ByteIn(w1), ByteIn(ByteIn(w2)), ByteIn(ByteIn(ByteIn(w3)));
    var a := Xor(crc, w0);
    var r1 := Xor(Shift8(a), w1);
    var r2 := Xor(Shift8(r1), w2);
    Xor5(crc, w0, u1, u2, u3);
    StepWide(crc, b0);
    Through(Xor(Xor(a, u1), u2), ByteIn(ByteIn(w3)));
    Through(Xor(a, u1), ByteIn(w2));
    Through(a, w1);
    StepWide(Shift8(a), b1);
    Through(Xor(r1, ByteIn(w2)), ByteIn(w3));
    Through(r1, w2);
    StepWide(Shift8(r1), b2);
    Through(r2, w3);
    StepWide(Shift8(r2), b3);
  }

  lemma Xor5(a: bv32, b: bv32, c: bv32, d: bv32, e: bv32)
    ensures Xor(a, Xor(Xor(Xor(b, c), d), e)) == Xor(Xor(Xor(Xor(a, b), c), d), e)
  {
    XorAssoc(a, Xor(Xor(b, c), d), e);
    XorAssoc(a, Xor(b, c), d);
    XorAssoc(a, b, c);
    hide Xor;
  }

  lemma LeXor(w: seq<byte>)
    requires |w| == 4
    ensures FromLe(w) == Xor(Xor(Xor(Wide(w[0]), ByteIn(Wide(w[1]))), ByteIn(ByteIn(Wide(w[2])))),
            ByteIn(ByteIn(ByteIn(Wide(w[3])))))
  {
    LeXorBytes(w[0], w[1], w[2], w[3]);
  }

  lemma LeXorBytes(b0: byte, b1: byte, b2: byte, b3: byte)
    ensures (b0 as bv32) | (b1 as bv32 << 8) | (b2 as bv32 << 16) | (b3 as bv32 << 24)
         == Xor(Xor(Xor(Wide(b0), ByteIn(Wide(b1))), ByteIn(ByteIn(Wide(b2)))), ByteIn(ByteIn(ByteIn(Wide(b3)))))
  {
  }

  lemma LeFits(b1: byte, b2: byte, b3: byte)
    ensures Small(Wide(b1)) && Small(Wide(b2)) && Small(ByteIn(Wide(b2)))
    ensures Small(Wide(b3)) && Small(ByteIn(Wide(b3))) && Small(ByteIn(ByteIn(Wide(b3))))
  {
  }

  // Any change confined to four consecutive bytes changes the checksum.
  lemma WindowDetected(crc: bv32, before: seq<byte>, w: seq<byte>, w': seq<byte>, after: seq<byte>)
    requires |w| == |w'| == 4 && w != w'
    ensures Crc(crc, before + w + after) != Crc(crc, before + w' + after)
  {
    hide ByteStep, Shift8, FromLe, ToLe, Xor;
    var c := Crc(crc, before);
    ToLeFromLe(w);
    ToLeFromLe(w');
    WindowIsWord(c, w);
    WindowIsWord(c, w');
    var a, b := Xor(c, FromLe(w)), Xor(c, FromLe(w'));
    if Crc(c, w) == Crc(c, w') {
      Shift8Injective(Shift8(Shift8(Shift8(a))), Shift8(Shift8(Shift8(b))));
      Shift8Injective(Shift8(Shift8(a)), Shift8(Shift8(b)));
      Shift8Injective(Shift8(a), Shift8(b));
      Shift8Injective(a, b);
      XorSame(c, FromLe(w), FromLe(w'));
      assert false;
    }
    CrcConcat(crc, before, w);
    CrcConcat(crc, before, w');
    CrcConcat(crc, before + w, after);
    CrcConcat(crc, before + w', after);
    CrcInjective(Crc(c, w), Crc(c, w'), after);
  }

  lemma XorSame(c: bv32, a: bv32, b: bv32)
    requires Xor(c, a) == Xor(c, b)
    ensures a == b
  {
    assert c ^ (c ^ a) == a;
    assert c ^ (c ^ b) == b;
  }
}
