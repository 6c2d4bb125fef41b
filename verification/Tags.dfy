// The 32-bit entry tags of the metadata log: one validity bit, an 11-bit type
// (3 bits of type proper, 8 bits of chunk), a 10-bit id and a 10-bit size.
// Bytes and words are bit vectors; the three fields are natural numbers.
module Tags {

  type byte = bv8

  // ---- types and constants (lfs.h) -------------------------------------------------

  const TYPE_NAME := 0x000
  const TYPE_FROM := 0x100
  const TYPE_STRUCT := 0x200
  const TYPE_USERATTR := 0x300
  const TYPE_SPLICE := 0x400
  const TYPE_CRC := 0x500
  const TYPE_TAIL := 0x600
  const TYPE_GLOBALS := 0x700

  const TYPE_REG := 0x001
  const TYPE_DIR := 0x002
  const FROM_MOVE := 0x101
  const FROM_USERATTRS := 0x102
  const TYPE_DIRSTRUCT := 0x200
  const TYPE_CTZSTRUCT := 0x202
  const TYPE_CREATE := 0x401
  const TYPE_DELETE := 0x4ff
  const TYPE_MOVESTATE := 0x7ff

  const NO_ID := 0x3ff
  const DELETED_SIZE := 0x3ff

  // The all-ones word: the tag before the first tag of a block, and the CRC seed.
  const NULL_WORD: bv32 := 0xffffffff

  // The three bits of kind come first, then the chunk: a splice says by its chunk, as a signed
  // byte, how many entries come or go; a tail by the last bit of its chunk whether the directory
  // goes on.
  lemma TypeValues()
    ensures TYPE_REG == 0x001 && TYPE_DIR == 0x002
    ensures TYPE_DIRSTRUCT == TYPE_STRUCT + 0x00 && TYPE_CTZSTRUCT == TYPE_STRUCT + 0x02
    ensures TYPE_CREATE == TYPE_SPLICE + 0x01 && TYPE_DELETE == TYPE_SPLICE + 0xff
    ensures FROM_MOVE == TYPE_FROM + 0x01 && FROM_USERATTRS == TYPE_FROM + 0x02
    ensures TYPE_MOVESTATE == TYPE_GLOBALS + 0xff
    ensures TYPE_NAME == 0x000 && TYPE_FROM == 0x100 && TYPE_STRUCT == 0x200 && TYPE_USERATTR == 0x300
    ensures TYPE_SPLICE == 0x400 && TYPE_CRC == 0x500 && TYPE_TAIL == 0x600 && TYPE_GLOBALS == 0x700
  {
  }

  // ---- a valid tag, field by field ---------------------------------------------------

  datatype RawTag = Tag(type3: nat, id: nat, size: nat) {
    predicate InRange() {
      type3 < 0x800 && id < 0x400 && size < 0x400
    }

    predicate IsDelete() {
      size == DELETED_SIZE
    }

    // Payload bytes that follow the tag: none for a delete marker.
    function PayloadSize(): nat {
      if IsDelete() then 0 else size
    }

    function Dsize(): nat {
      4 + PayloadSize()
    }
  }

  // The 3-bit type (mask 0x700) and the 8-bit chunk (mask 0x0ff) of an 11-bit type.
  function Kind(type3: nat): nat {
    if type3 < TYPE_FROM then TYPE_NAME
    else if type3 < TYPE_STRUCT then TYPE_FROM
    else if type3 < TYPE_USERATTR then TYPE_STRUCT
    else if type3 < TYPE_SPLICE then TYPE_USERATTR
    else if type3 < TYPE_CRC then TYPE_SPLICE
    else if type3 < TYPE_TAIL then TYPE_CRC
    else if type3 < TYPE_GLOBALS then TYPE_TAIL
    else TYPE_GLOBALS
  }

  function Chunk(type3: nat): nat {
    type3 - Kind(type3)
  }

  type Tag = t: RawTag | t.InRange() witness RawTag.Tag(0, 0, 0)

  // ---- tags as words -----------------------------------------------------------------

  // The ten-bit and eleven-bit fields that hold a given number.
  function Field10(n: nat): (b: bv10)
    requires n < 0x400
    ensures b as nat == n
  {
    if n == 0 then 0 else Next10(Field10(n - 1)); Field10(n - 1) + 1
  }

  function Field11(n: nat): (b: bv11)
    requires n < 0x800
    ensures b as nat == n
  {
    if n == 0 then 0 else Next11(Field11(n - 1)); Field11(n - 1) + 1
  }

  lemma Next10(b: bv10)
    ensures b != 0x3ff ==> (b + 1) as int == b as int + 1
    ensures b as int <= 0x3ff && (b as int == 0x3ff ==> b == 0x3ff)
  {
  }

  lemma Next11(b: bv11)
    ensures b != 0x7ff ==> (b + 1) as int == b as int + 1
    ensures b as int <= 0x7ff && (b as int == 0x7ff ==> b == 0x7ff)
  {
  }

  lemma Less10(a: bv10, b: bv10)
    requires a < b
    ensures a as int < b as int
  {
  }

  lemma Less11(a: bv11, b: bv11)
    requires a < b
    ensures a as int < b as int
  {
  }

  lemma SameField10(a: bv10, b: bv10)
    requires a as int == b as int
    ensures a == b
  {
    if a < b { Less10(a, b); } else if b < a { Less10(b, a); }
  }

  lemma SameField11(a: bv11, b: bv11)
    requires a as int == b as int
    ensures a == b
  {
    if a < b { Less11(a, b); } else if b < a { Less11(b, a); }
  }

  function Join(a: bv11, b: bv10, c: bv10): bv32 {
    (a as bv32 << 20) | (b as bv32 << 10) | (c as bv32)
  }

  function TypeBits(w: bv32): bv11 { ((w >> 20) & 0x7ff) as bv11 }

  function IdBits(w: bv32): bv10 { ((w >> 10) & 0x3ff) as bv10 }

  function SizeBits(w: bv32): bv10 { (w & 0x3ff) as bv10 }

  function Pack(t: Tag): bv32 {
    Join(Field11(t.type3), Field10(t.id), Field10(t.size))
  }

  predicate IsValid(w: bv32) {
    w & 0x8000_0000 == 0
  }

  function Unpack(w: bv32): Tag {
    Next11(TypeBits(w));
    Next10(IdBits(w));
    Next10(SizeBits(w));
    RawTag.Tag(TypeBits(w) as nat, IdBits(w) as nat, SizeBits(w) as nat)
  }

  lemma SplitJoin(a: bv11, b: bv10, c: bv10)
    ensures TypeBits(Join(a, b, c)) == a
    ensures IdBits(Join(a, b, c)) == b
    ensures SizeBits(Join(a, b, c)) == c
    ensures IsValid(Join(a, b, c))
  {
  }

  lemma JoinSplit(w: bv32)
    ensures Join(TypeBits(w), IdBits(w), SizeBits(w)) == w & 0x7fff_ffff
  {
  }

  // Packing a tag gives a valid word, and unpacking that word gives the tag back,
  // whatever happens to the validity bit in between.
  lemma UnpackPack(t: Tag)
    ensures IsValid(Pack(t))
    ensures Unpack(Pack(t)) == t
    ensures Unpack(Pack(t) ^ 0x8000_0000) == t
  {
    SplitJoin(Field11(t.type3), Field10(t.id), Field10(t.size));
    IgnoresTopBit(Pack(t));
  }

  lemma IgnoresTopBit(w: bv32)
    ensures Unpack(w ^ 0x8000_0000) == Unpack(w) == Unpack(w & 0x7fff_ffff)
  {
    assert TypeBits(w ^ 0x8000_0000) == TypeBits(w) == TypeBits(w & 0x7fff_ffff);
    assert IdBits(w ^ 0x8000_0000) == IdBits(w) == IdBits(w & 0x7fff_ffff);
    assert SizeBits(w ^ 0x8000_0000) == SizeBits(w) == SizeBits(w & 0x7fff_ffff);
  }

  // Conversely, a word is the packing of its fields, up to the validity bit.
  lemma PackUnpack(w: bv32)
    ensures Pack(Unpack(w)) == w & 0x7fff_ffff
  {
    var t := Unpack(w);
    SameField11(Field11(t.type3), TypeBits(w));
    SameField10(Field10(t.id), IdBits(w));
    SameField10(Field10(t.size), SizeBits(w));
    JoinSplit(w);
  }

  // The word before the first tag has size 0x3ff, so it takes up just its own four
  // bytes: the revision count of the block.
  lemma NullWordFields()
    ensures Unpack(NULL_WORD) == RawTag.Tag(0x7ff, NO_ID, DELETED_SIZE)
    ensures Unpack(NULL_WORD & 0x7fff_ffff) == RawTag.Tag(0x7ff, NO_ID, DELETED_SIZE)
  {
    IgnoresTopBit(NULL_WORD);
    assert TypeBits(NULL_WORD) == 0x7ff && IdBits(NULL_WORD) == 0x3ff && SizeBits(NULL_WORD) == 0x3ff;
    AllOnes();
  }

  lemma AllOnes()
    ensures (0x7ff as bv11) as nat == 0x7ff && (0x3ff as bv10) as nat == 0x3ff
  {
  }

  // ---- words as bytes -----------------------------------------------------------------

  function ToBe(w: bv32): (s: seq<byte>)
    ensures |s| == 4
  {
    [(w >> 24) as byte, ((w >> 16) & 0xff) as byte, ((w >> 8) & 0xff) as byte, (w & 0xff) as byte]
  }

  function FromBe(s: seq<byte>): bv32
    requires |s| == 4
  {
    (s[0] as bv32 << 24) | (s[1] as bv32 << 16) | (s[2] as bv32 << 8) | (s[3] as bv32)
  }

  function ToLe(w: bv32): (s: seq<byte>)
    ensures |s| == 4
  {
    [(w & 0xff) as byte, ((w >> 8) & 0xff) as byte, ((w >> 16) & 0xff) as byte, (w >> 24) as byte]
  }

  function FromLe(s: seq<byte>): bv32
    requires |s| == 4
  {
    (s[0] as bv32) | (s[1] as bv32 << 8) | (s[2] as bv32 << 16) | (s[3] as bv32 << 24)
  }

  lemma FromBeToBe(w: bv32)
    ensures FromBe(ToBe(w)) == w
  {
  }

  lemma FromLeToLe(w: bv32)
    ensures FromLe(ToLe(w)) == w
  {
  }

  lemma ToBeFromBe(s: seq<byte>)
    requires |s| == 4
    ensures ToBe(FromBe(s)) == s
  {
    BytesOfWord(s[3], s[2], s[1], s[0]);
  }

  lemma ToLeFromLe(s: seq<byte>)
    requires |s| == 4
    ensures ToLe(FromLe(s)) == s
  {
    BytesOfWord(s[0], s[1], s[2], s[3]);
    assert FromLe(s) == (s[3] as bv32 << 24) | (s[2] as bv32 << 16) | (s[1] as bv32 << 8) | (s[0] as bv32);
  }

  lemma BytesOfWord(a: byte, b: byte, c: byte, d: byte)
    ensures var w := (d as bv32 << 24) | (c as bv32 << 16) | (b as bv32 << 8) | (a as bv32);
            && (w & 0xff) as byte == a
            && ((w >> 8) & 0xff) as byte == b
            && ((w >> 16) & 0xff) as byte == c
            && (w >> 24) as byte == d
  {
  }
}
