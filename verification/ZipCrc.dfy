/**
 The cyclic redundancy check of zip archives: table-driven and unrolled, against
 the register that takes one bit at a time (section 8 of RFC 1952).
 */
module ZipCrc {
  import opened Basics
  import opened CrcTable

  const POLY: bv32 := 0xedb88320

  const ROW0: seq<bv32> := [
    0x00000000, 0x77073096, 0xee0e612c, 0x990951ba, 0x076dc419, 0x706af48f, 0xe963a535, 0x9e6495a3,
    0x0edb8832, 0x79dcb8a4, 0xe0d5e91e, 0x97d2d988, 0x09b64c2b, 0x7eb17cbd, 0xe7b82d07, 0x90bf1d91]
  const ROW1: seq<bv32> := [
    0x1db71064, 0x6ab020f2, 0xf3b97148, 0x84be41de, 0x1adad47d, 0x6ddde4eb, 0xf4d4b551, 0x83d385c7,
    0x136c9856, 0x646ba8c0, 0xfd62f97a, 0x8a65c9ec, 0x14015c4f, 0x63066cd9, 0xfa0f3d63, 0x8d080df5]
  const ROW2: seq<bv32> := [
    0x3b6e20c8, 0x4c69105e, 0xd56041e4, 0xa2677172, 0x3c03e4d1, 0x4b04d447, 0xd20d85fd, 0xa50ab56b,
    0x35b5a8fa, 0x42b2986c, 0xdbbbc9d6, 0xacbcf940, 0x32d86ce3, 0x45df5c75, 0xdcd60dcf, 0xabd13d59]
  const ROW3: seq<bv32> := [
    0x26d930ac, 0x51de003a, 0xc8d75180, 0xbfd06116, 0x21b4f4b5, 0x56b3c423, 0xcfba9599, 0xb8bda50f,
    0x2802b89e, 0x5f058808, 0xc60cd9b2, 0xb10be924, 0x2f6f7c87, 0x58684c11, 0xc1611dab, 0xb6662d3d]
  const ROW4: seq<bv32> := [
    0x76dc4190, 0x01db7106, 0x98d220bc, 0xefd5102a, 0x71b18589, 0x06b6b51f, 0x9fbfe4a5, 0xe8b8d433,
    0x7807c9a2, 0x0f00f934, 0x9609a88e, 0xe10e9818, 0x7f6a0dbb, 0x086d3d2d, 0x91646c97, 0xe6635c01]
  const ROW5: seq<bv32> := [
    0x6b6b51f4, 0x1c6c6162, 0x856530d8, 0xf262004e, 0x6c0695ed, 0x1b01a57b, 0x8208f4c1, 0xf50fc457,
    0x65b0d9c6, 0x12b7e950, 0x8bbeb8ea, 0xfcb9887c, 0x62dd1ddf, 0x15da2d49, 0x8cd37cf3, 0xfbd44c65]
  const ROW6: seq<bv32> := [
    0x4db26158, 0x3ab551ce, 0xa3bc0074, 0xd4bb30e2, 0x4adfa541, 0x3dd895d7, 0xa4d1c46d, 0xd3d6f4fb,
    0x4369e96a, 0x346ed9fc, 0xad678846, 0xda60b8d0, 0x44042d73, 0x33031de5, 0xaa0a4c5f, 0xdd0d7cc9]
  const ROW7: seq<bv32> := [
    0x5005713c, 0x270241aa, 0xbe0b1010, 0xc90c2086, 0x5768b525, 0x206f85b3, 0xb966d409, 0xce61e49f,
    0x5edef90e, 0x29d9c998, 0xb0d09822, 0xc7d7a8b4, 0x59b33d17, 0x2eb40d81, 0xb7bd5c3b, 0xc0ba6cad]
  const ROW8: seq<bv32> := [
    0xedb88320, 0x9abfb3b6, 0x03b6e20c, 0x74b1d29a, 0xead54739, 0x9dd277af, 0x04db2615, 0x73dc1683,
    0xe3630b12, 0x94643b84, 0x0d6d6a3e, 0x7a6a5aa8, 0xe40ecf0b, 0x9309ff9d, 0x0a00ae27, 0x7d079eb1]
  const ROW9: seq<bv32> := [
    0xf00f9344, 0x8708a3d2, 0x1e01f268, 0x6906c2fe, 0xf762575d, 0x806567cb, 0x196c3671, 0x6e6b06e7,
    0xfed41b76, 0x89d32be0, 0x10da7a5a, 0x67dd4acc, 0xf9b9df6f, 0x8ebeeff9, 0x17b7be43, 0x60b08ed5]
  const ROW10: seq<bv32> := [
    0xd6d6a3e8, 0xa1d1937e, 0x38d8c2c4, 0x4fdff252, 0xd1bb67f1, 0xa6bc5767, 0x3fb506dd, 0x48b2364b,
    0xd80d2bda, 0xaf0a1b4c, 0x36034af6, 0x41047a60, 0xdf60efc3, 0xa867df55, 0x316e8eef, 0x4669be79]
  const ROW11: seq<bv32> := [
    0xcb61b38c, 0xbc66831a, 0x256fd2a0, 0x5268e236, 0xcc0c7795, 0xbb0b4703, 0x220216b9, 0x5505262f,
    0xc5ba3bbe, 0xb2bd0b28, 0x2bb45a92, 0x5cb36a04, 0xc2d7ffa7, 0xb5d0cf31, 0x2cd99e8b, 0x5bdeae1d]
  const ROW12: seq<bv32> := [
    0x9b64c2b0, 0xec63f226, 0x756aa39c, 0x026d930a, 0x9c0906a9, 0xeb0e363f, 0x72076785, 0x05005713,
    0x95bf4a82, 0xe2b87a14, 0x7bb12bae, 0x0cb61b38, 0x92d28e9b, 0xe5d5be0d, 0x7cdcefb7, 0x0bdbdf21]
  const ROW13: seq<bv32> := [
    0x86d3d2d4, 0xf1d4e242, 0x68ddb3f8, 0x1fda836e, 0x81be16cd, 0xf6b9265b, 0x6fb077e1, 0x18b74777,
    0x88085ae6, 0xff0f6a70, 0x66063bca, 0x11010b5c, 0x8f659eff, 0xf862ae69, 0x616bffd3, 0x166ccf45]
  const ROW14: seq<bv32> := [
    0xa00ae278, 0xd70dd2ee, 0x4e048354, 0x3903b3c2, 0xa7672661, 0xd06016f7, 0x4969474d, 0x3e6e77db,
    0xaed16a4a, 0xd9d65adc, 0x40df0b66, 0x37d83bf0, 0xa9bcae53, 0xdebb9ec5, 0x47b2cf7f, 0x30b5ffe9]
  const ROW15: seq<bv32> := [
    0xbdbdf21c, 0xcabac28a, 0x53b39330, 0x24b4a3a6, 0xbad03605, 0xcdd70693, 0x54de5729, 0x23d967bf,
    0xb3667a2e, 0xc4614ab8, 0x5d681b02, 0x2a6f2b94, 0xb40bbe37, 0xc30c8ea1, 0x5a05df1b, 0x2d02ef8d]

  const CRC_TABLE: Table := [
    ROW0, ROW1, ROW2, ROW3, ROW4, ROW5, ROW6, ROW7,
    ROW8, ROW9, ROW10, ROW11, ROW12, ROW13, ROW14, ROW15]

  /** One bit of the message, least significant first. */
  function Feed(reg: bv32, bit: bool): bv32 {
    if ((reg & 1) == 1) != bit then Sum(reg >> 1, POLY) else reg >> 1
  }

  function FeedByte(reg: bv32, b: bv8): bv32 {
    var r0 := Feed(reg, b & 1 != 0);
    var r1 := Feed(r0, b & 2 != 0);
    var r2 := Feed(r1, b & 4 != 0);
    var r3 := Feed(r2, b & 8 != 0);
    var r4 := Feed(r3, b & 16 != 0);
    var r5 := Feed(r4, b & 32 != 0);
    var r6 := Feed(r5, b & 64 != 0);
    Feed(r6, b & 128 != 0)
  }

  /** The register after a message, bit by bit. */
  function Serial(reg: bv32, buf: seq<bv8>): bv32 {
    if buf == [] then reg else FeedByte(Serial(reg, buf[..|buf| - 1]), buf[|buf| - 1])
  }

  // ---- the table ----

  function Step(x: bv32): bv32 {
    if x & 1 == 1 then Sum(x >> 1, POLY) else x >> 1
  }

  // Two, four and eight zero bits.
  function Step2(x: bv32): bv32 { Step(Step(x)) }
  function Step4(x: bv32): bv32 { Step2(Step2(x)) }
  function Step8(x: bv32): bv32 { Step4(Step4(x)) }

  lemma StepSum(x: bv32, y: bv32)
    ensures Step(Sum(x, y)) == Sum(Step(x), Step(y))
  {
    hide Sum;
    ShiftSum(x, y);
    LowSum(x, y);
    BothSum(x >> 1, y >> 1, POLY);
    LeftSum(x >> 1, y >> 1, POLY);
    RightSum(x >> 1, y >> 1, POLY);
  }

  lemma ShiftXor(x: bv32, y: bv32, s: bv32, t: bv32)
    requires s == x ^ y && t == (x >> 1) ^ (y >> 1)
    ensures s >> 1 == t
  {
  }

  lemma ShiftSum(x: bv32, y: bv32)
    ensures Sum(x, y) >> 1 == Sum(x >> 1, y >> 1)
  {
    ShiftXor(x, y, Sum(x, y), Sum(x >> 1, y >> 1));
  }

  lemma LowXor(x: bv32, y: bv32)
    ensures (x ^ y) & 1 == (x & 1) ^ (y & 1)
  {
  }

  lemma LowSum(x: bv32, y: bv32)
    ensures Sum(x, y) & 1 == 1 <==> (x & 1 == 1) != (y & 1 == 1)
  {
    LowXor(x, y);
    Bit(x);
    Bit(y);
  }

  lemma Bit(x: bv32)
    ensures x & 1 == 0 || x & 1 == 1
  {
  }

  lemma Step8Sum(x: bv32, y: bv32)
    ensures Step8(Sum(x, y)) == Sum(Step8(x), Step8(y))
  {
    hide Step4, Sum;
    Step4Sum(x, y);
    Step4Sum(Step4(x), Step4(y));
  }

  lemma Step4Sum(x: bv32, y: bv32)
    ensures Step4(Sum(x, y)) == Sum(Step4(x), Step4(y))
  {
    hide Step2, Sum;
    Step2Sum(x, y);
    Step2Sum(Step2(x), Step2(y));
  }

  lemma Step2Sum(x: bv32, y: bv32)
    ensures Step2(Sum(x, y)) == Sum(Step2(x), Step2(y))
  {
    hide Step, Sum;
    StepSum(x, y);
    StepSum(Step(x), Step(y));
  }

  lemma Step8Shift(x: bv32)
    requires x & 0xff == 0
    ensures Step8(x) == x >> 8
  {
    hide Step4;
    Low8(x);
    Step4Shift(x);
    Step4Shift(x >> 4);
  }

  lemma Low8(x: bv32)
    requires x & 0xff == 0
    ensures x & 15 == 0 && (x >> 4) & 15 == 0 && (x >> 4) >> 4 == x >> 8
  {
  }

  lemma Step4Shift(x: bv32)
    requires x & 15 == 0
    ensures Step4(x) == x >> 4
  {
    hide Step2;
    Low4(x);
    Step2Shift(x);
    Step2Shift(x >> 2);
  }

  lemma Low4(x: bv32)
    requires x & 15 == 0
    ensures x & 3 == 0 && (x >> 2) & 3 == 0 && (x >> 2) >> 2 == x >> 4
  {
  }

  lemma Step2Shift(x: bv32)
    requires x & 3 == 0
    ensures Step2(x) == x >> 2
  {
  }

  lemma FirstRow(lo: bv8)
    requires lo < 16
    ensures ROW0[lo as int] == Step8(lo as bv32)
  {
    if lo < 8 {
      FirstHalf(lo);
    } else {
      SecondHalf(lo);
    }
  }

  lemma FirstHalf(lo: bv8)
    requires lo < 8
    ensures ROW0[lo as int] == Step8(lo as bv32)
  {
    if lo < 4 {
      FirstQuarter(lo);
    } else if lo == 4 {
    } else if lo == 5 {
    } else if lo == 6 {
    } else {
    }
  }

  lemma FirstQuarter(lo: bv8)
    requires lo < 4
    ensures ROW0[lo as int] == Step8(lo as bv32)
  {
    if lo == 0 {
    } else if lo == 1 {
    } else if lo == 2 {
    } else {
    }
  }

  lemma SecondHalf(lo: bv8)
    requires 8 <= lo < 16
    ensures ROW0[lo as int] == Step8(lo as bv32)
  {
    if lo == 8 {
    } else if lo == 9 {
    } else if lo == 10 {
    } else if lo == 11 {
    } else if lo == 12 {
    } else if lo == 13 {
    } else if lo == 14 {
    } else {
    }
  }

  lemma FirstColumn(hi: bv8)
    requires hi < 16
    ensures CRC_TABLE[hi as int][0] == Step8((hi as bv32) << 4)
  {
    if hi == 0 {
    } else if hi == 1 {
    } else if hi == 2 {
    } else if hi == 3 {
    } else if hi == 4 {
    } else if hi == 5 {
    } else if hi == 6 {
    } else if hi == 7 {
    } else if hi == 8 {
    } else if hi == 9 {
    } else if hi == 10 {
    } else if hi == 11 {
    } else if hi == 12 {
    } else if hi == 13 {
    } else if hi == 14 {
    } else {
    }
  }

  /** Every table entry is what eight zero bits make of its index. */
  lemma TableRight(i: bv8)
    ensures Linear(CRC_TABLE) && Rows(CRC_TABLE) && Entry(CRC_TABLE, i) == Step8(i as bv32)
  {
    hide Step8, Linear, LinearRow, Sum, Entry;
    RowsLinear();
    Nibbles(i);
    EntrySum(CRC_TABLE, i);
    FirstRow(i & 15);
    assert CRC_TABLE[0] == ROW0;
    FirstColumn(i >> 4);
    Step8Sum(((i >> 4) as bv32) << 4, (i & 15) as bv32);
  }

  lemma Nibbles(i: bv8)
    ensures i >> 4 < 16 && i & 15 < 16 && i as bv32 == Sum(((i >> 4) as bv32) << 4, (i & 15) as bv32)
  {
  }

  lemma RowsLinear()
    ensures Linear(CRC_TABLE)
  {
    Row0();
    Row1();
    Row2();
    Row3();
    Row4();
    Row5();
    Row6();
    Row7();
    Row8();
    Row9();
    Row10();
    Row11();
    Row12();
    Row13();
    Row14();
    Row15();
    hide LinearRow;
  }

  lemma Row0()
    ensures LinearRow(ROW0, ROW0)
  {
  }

  lemma Row1()
    ensures LinearRow(ROW1, ROW0)
  {
  }

  lemma Row2()
    ensures LinearRow(ROW2, ROW0)
  {
  }

  lemma Row3()
    ensures LinearRow(ROW3, ROW0)
  {
  }

  lemma Row4()
    ensures LinearRow(ROW4, ROW0)
  {
  }

  lemma Row5()
    ensures LinearRow(ROW5, ROW0)
  {
  }

  lemma Row6()
    ensures LinearRow(ROW6, ROW0)
  {
  }

  lemma Row7()
    ensures LinearRow(ROW7, ROW0)
  {
  }

  lemma Row8()
    ensures LinearRow(ROW8, ROW0)
  {
  }

  lemma Row9()
    ensures LinearRow(ROW9, ROW0)
  {
  }

  lemma Row10()
    ensures LinearRow(ROW10, ROW0)
  {
  }

  lemma Row11()
    ensures LinearRow(ROW11, ROW0)
  {
  }

  lemma Row12()
    ensures LinearRow(ROW12, ROW0)
  {
  }

  lemma Row13()
    ensures LinearRow(ROW13, ROW0)
  {
  }

  lemma Row14()
    ensures LinearRow(ROW14, ROW0)
  {
  }

  lemma Row15()
    ensures LinearRow(ROW15, ROW0)
  {
  }

  // ---- a byte at a time ----

  /** Feeding a bit adds it to the end of the register first. */
  lemma FeedStep(r: bv32, y: bv32)
    ensures Sum(Feed(r, y & 1 == 1), y >> 1) == Step(Sum(r, y))
  {
    hide Sum;
    ShiftSum(r, y);
    LowSum(r, y);
    BothSum(r >> 1, y >> 1, POLY);
    LeftSum(r >> 1, y >> 1, POLY);
    RightSum(r >> 1, y >> 1, POLY);
  }

  lemma ByteBits(b: bv8)
    ensures var m := b as bv32;
      && (m & 1 == 1 <==> b & 1 != 0) && ((m >> 1) & 1 == 1 <==> b & 2 != 0)
      && ((m >> 2) & 1 == 1 <==> b & 4 != 0) && ((m >> 3) & 1 == 1 <==> b & 8 != 0)
      && ((m >> 4) & 1 == 1 <==> b & 16 != 0) && ((m >> 5) & 1 == 1 <==> b & 32 != 0)
      && ((m >> 6) & 1 == 1 <==> b & 64 != 0) && ((m >> 7) & 1 == 1 <==> b & 128 != 0)
      && (m >> 1) >> 1 == m >> 2 && (m >> 2) >> 1 == m >> 3 && (m >> 3) >> 1 == m >> 4 && (m >> 4) >> 1 == m >> 5
      && (m >> 5) >> 1 == m >> 6 && (m >> 6) >> 1 == m >> 7 && (m >> 7) >> 1 == 0
  {
  }

  /** Eight bits are eight zero bits on the register with the byte added. */
  lemma ByteFed(reg: bv32, b: bv8)
    ensures FeedByte(reg, b) == Step8(Sum(reg, b as bv32))
  {
    var m := b as bv32;
    ByteBits(b);
    hide Feed, Step, Sum;
    FeedStep(reg, m);
    var r0 := Feed(reg, b & 1 != 0);
    FeedStep(r0, m >> 1);
    var r1 := Feed(r0, b & 2 != 0);
    FeedStep(r1, m >> 2);
    var r2 := Feed(r1, b & 4 != 0);
    FeedStep(r2, m >> 3);
    var r3 := Feed(r2, b & 8 != 0);
    FeedStep(r3, m >> 4);
    var r4 := Feed(r3, b & 16 != 0);
    FeedStep(r4, m >> 5);
    var r5 := Feed(r4, b & 32 != 0);
    FeedStep(r5, m >> 6);
    var r6 := Feed(r5, b & 64 != 0);
    FeedStep(r6, m >> 7);
    NoSum(Feed(r6, b & 128 != 0));
  }

  /** DO1: one table look-up for one byte. */
  function Do1(crc: bv32, b: bv8): bv32 {
    TableRight(0);
    Sum(Entry(CRC_TABLE, (Sum(crc, b as bv32) & 0xff) as bv8), crc >> 8)
  }

  lemma Do1Right(crc: bv32, b: bv8)
    ensures Do1(crc, b) == FeedByte(crc, b)
  {
    var x := Sum(crc, b as bv32);
    ByteFed(crc, b);
    LowByte(x);
    HighByte(x);
    Recombine(x);
    HighShift(crc, b);
    Combine(x, x & 0xff, x & 0xffffff00, (x & 0xff) as bv8, crc >> 8);
    hide *;
    Do1Is(crc, b);
  }

  lemma Do1Is(crc: bv32, b: bv8)
    ensures Rows(CRC_TABLE)
    ensures Do1(crc, b) == Sum(Entry(CRC_TABLE, (Sum(crc, b as bv32) & 0xff) as bv8), crc >> 8)
  {
    TableRight(0);
  }

  /** The table takes care of the low byte, the shift of the others. */
  lemma Combine(x: bv32, lo: bv32, hi: bv32, i: bv8, shifted: bv32)
    requires Sum(lo, hi) == x && i as bv32 == lo && hi & 0xff == 0 && hi >> 8 == shifted
    ensures Rows(CRC_TABLE) && Sum(Entry(CRC_TABLE, i), shifted) == Step8(x)
  {
    hide Sum, Step8, Entry, Rows, Linear;
    TableRight(i);
    Step8Sum(lo, hi);
    Step8Shift(hi);
  }

  lemma LowByte(x: bv32)
    ensures ((x & 0xff) as bv8) as bv32 == x & 0xff
  {
  }

  lemma HighByte(x: bv32)
    ensures (x & 0xffffff00) & 0xff == 0
  {
  }

  lemma Recombine(x: bv32)
    ensures Sum(x & 0xff, x & 0xffffff00) == x
  {
  }

  lemma HighShift(crc: bv32, b: bv8)
    ensures (Sum(crc, b as bv32) & 0xffffff00) >> 8 == crc >> 8
  {
  }

  // ---- whole messages ----

  /** The checksum: the register starts and ends complemented. */
  function Crc(crc: bv32, buf: seq<bv8>): bv32 {
    Flip(Serial(Flip(crc), buf))
  }

  lemma SerialOne(reg: bv32, buf: seq<bv8>, i: nat)
    requires i < |buf|
    ensures Serial(reg, buf[..i + 1]) == Do1(Serial(reg, buf[..i]), buf[i])
  {
    hide Do1, FeedByte;
    assert buf[..i + 1][..i] == buf[..i];
    Do1Right(Serial(reg, buf[..i]), buf[i]);
  }

  /** zipcrc: eight bytes at a time and then the rest. */
  method ZipCrc(crc0: bv32, buf: Option<seq<bv8>>) returns (crc: bv32)
    ensures crc == if buf.None? then 0 else Crc(crc0, buf.value)
  {
    hide Serial, Do1, Flip;
    if buf.None? {
      return 0;
    }
    var s, p: nat := buf.value, 0;
    SerialNone(Flip(crc0));
    crc := Flip(crc0);
    var len: nat := |s|;
    while len >= 8
      invariant p + len == |s| && crc == Serial(Flip(crc0), s[..p])
    {
      crc, p := Do2(Flip(crc0), crc, s, p);
      crc, p := Do2(Flip(crc0), crc, s, p);
      crc, p := Do2(Flip(crc0), crc, s, p);
      crc, p := Do2(Flip(crc0), crc, s, p);
      len := len - 8;
    }
    while len > 0
      invariant p + len == |s| && crc == Serial(Flip(crc0), s[..p])
    {
      SerialOne(Flip(crc0), s, p);
      crc, p := Do1(crc, s[p]), p + 1;
      len := len - 1;
    }
    assert s[..p] == s;
    crc := Flip(crc);
  }

  /** DO2. */
  method Do2(ghost start: bv32, crc0: bv32, s: seq<bv8>, p0: nat) returns (crc: bv32, p: nat)
    requires p0 + 2 <= |s| && crc0 == Serial(start, s[..p0])
    ensures p == p0 + 2 && crc == Serial(start, s[..p])
  {
    hide Serial, Do1;
    SerialOne(start, s, p0);
    crc, p := Do1(crc0, s[p0]), p0 + 1;
    SerialOne(start, s, p);
    crc, p := Do1(crc, s[p]), p + 1;
  }

  lemma SerialNone(reg: bv32)
    ensures Serial(reg, []) == reg
  {
  }

  lemma {:induction false} SerialConcat(reg: bv32, a: seq<bv8>, b: seq<bv8>)
    ensures Serial(reg, a + b) == Serial(Serial(reg, a), b)
  {
    hide FeedByte;
    if b == [] {
      assert a + b == a;
    } else {
      assert (a + b)[..|a + b| - 1] == a + b[..|b| - 1];
      SerialConcat(reg, a, b[..|b| - 1]);
    }
  }

  /** A checksum can be continued: the parts give that of the whole. */
  lemma CrcConcat(crc: bv32, a: seq<bv8>, b: seq<bv8>)
    ensures Crc(Crc(crc, a), b) == Crc(crc, a + b)
  {
    hide Serial, Flip;
    SerialConcat(Flip(crc), a, b);
    FlipTwice(Serial(Flip(crc), a));
  }
}
