/**
 The cyclic redundancy check of the cksum utility (IEEE Std 1003.1-2001, Shell
 and Utilities, chapter 4): the table-driven loop against the remainder of a
 long division of polynomials.
 */
module Cksum {
  import opened CrcTable

  const POLY: bv32 := 0x04c11db7

  const ROW0: seq<bv32> := [
    0x00000000, 0x04c11db7, 0x09823b6e, 0x0d4326d9, 0x130476dc, 0x17c56b6b, 0x1a864db2, 0x1e475005,
    0x2608edb8, 0x22c9f00f, 0x2f8ad6d6, 0x2b4bcb61, 0x350c9b64, 0x31cd86d3, 0x3c8ea00a, 0x384fbdbd]
  const ROW1: seq<bv32> := [
    0x4c11db70, 0x48d0c6c7, 0x4593e01e, 0x4152fda9, 0x5f15adac, 0x5bd4b01b, 0x569796c2, 0x52568b75,
    0x6a1936c8, 0x6ed82b7f, 0x639b0da6, 0x675a1011, 0x791d4014, 0x7ddc5da3, 0x709f7b7a, 0x745e66cd]
  const ROW2: seq<bv32> := [
    0x9823b6e0, 0x9ce2ab57, 0x91a18d8e, 0x95609039, 0x8b27c03c, 0x8fe6dd8b, 0x82a5fb52, 0x8664e6e5,
    0xbe2b5b58, 0xbaea46ef, 0xb7a96036, 0xb3687d81, 0xad2f2d84, 0xa9ee3033, 0xa4ad16ea, 0xa06c0b5d]
  const ROW3: seq<bv32> := [
    0xd4326d90, 0xd0f37027, 0xddb056fe, 0xd9714b49, 0xc7361b4c, 0xc3f706fb, 0xceb42022, 0xca753d95,
    0xf23a8028, 0xf6fb9d9f, 0xfbb8bb46, 0xff79a6f1, 0xe13ef6f4, 0xe5ffeb43, 0xe8bccd9a, 0xec7dd02d]
  const ROW4: seq<bv32> := [
    0x34867077, 0x30476dc0, 0x3d044b19, 0x39c556ae, 0x278206ab, 0x23431b1c, 0x2e003dc5, 0x2ac12072,
    0x128e9dcf, 0x164f8078, 0x1b0ca6a1, 0x1fcdbb16, 0x018aeb13, 0x054bf6a4, 0x0808d07d, 0x0cc9cdca]
  const ROW5: seq<bv32> := [
    0x7897ab07, 0x7c56b6b0, 0x71159069, 0x75d48dde, 0x6b93dddb, 0x6f52c06c, 0x6211e6b5, 0x66d0fb02,
    0x5e9f46bf, 0x5a5e5b08, 0x571d7dd1, 0x53dc6066, 0x4d9b3063, 0x495a2dd4, 0x44190b0d, 0x40d816ba]
  const ROW6: seq<bv32> := [
    0xaca5c697, 0xa864db20, 0xa527fdf9, 0xa1e6e04e, 0xbfa1b04b, 0xbb60adfc, 0xb6238b25, 0xb2e29692,
    0x8aad2b2f, 0x8e6c3698, 0x832f1041, 0x87ee0df6, 0x99a95df3, 0x9d684044, 0x902b669d, 0x94ea7b2a]
  const ROW7: seq<bv32> := [
    0xe0b41de7, 0xe4750050, 0xe9362689, 0xedf73b3e, 0xf3b06b3b, 0xf771768c, 0xfa325055, 0xfef34de2,
    0xc6bcf05f, 0xc27dede8, 0xcf3ecb31, 0xcbffd686, 0xd5b88683, 0xd1799b34, 0xdc3abded, 0xd8fba05a]
  const ROW8: seq<bv32> := [
    0x690ce0ee, 0x6dcdfd59, 0x608edb80, 0x644fc637, 0x7a089632, 0x7ec98b85, 0x738aad5c, 0x774bb0eb,
    0x4f040d56, 0x4bc510e1, 0x46863638, 0x42472b8f, 0x5c007b8a, 0x58c1663d, 0x558240e4, 0x51435d53]
  const ROW9: seq<bv32> := [
    0x251d3b9e, 0x21dc2629, 0x2c9f00f0, 0x285e1d47, 0x36194d42, 0x32d850f5, 0x3f9b762c, 0x3b5a6b9b,
    0x0315d626, 0x07d4cb91, 0x0a97ed48, 0x0e56f0ff, 0x1011a0fa, 0x14d0bd4d, 0x19939b94, 0x1d528623]
  const ROW10: seq<bv32> := [
    0xf12f560e, 0xf5ee4bb9, 0xf8ad6d60, 0xfc6c70d7, 0xe22b20d2, 0xe6ea3d65, 0xeba91bbc, 0xef68060b,
    0xd727bbb6, 0xd3e6a601, 0xdea580d8, 0xda649d6f, 0xc423cd6a, 0xc0e2d0dd, 0xcda1f604, 0xc960ebb3]
  const ROW11: seq<bv32> := [
    0xbd3e8d7e, 0xb9ff90c9, 0xb4bcb610, 0xb07daba7, 0xae3afba2, 0xaafbe615, 0xa7b8c0cc, 0xa379dd7b,
    0x9b3660c6, 0x9ff77d71, 0x92b45ba8, 0x9675461f, 0x8832161a, 0x8cf30bad, 0x81b02d74, 0x857130c3]
  const ROW12: seq<bv32> := [
    0x5d8a9099, 0x594b8d2e, 0x5408abf7, 0x50c9b640, 0x4e8ee645, 0x4a4ffbf2, 0x470cdd2b, 0x43cdc09c,
    0x7b827d21, 0x7f436096, 0x7200464f, 0x76c15bf8, 0x68860bfd, 0x6c47164a, 0x61043093, 0x65c52d24]
  const ROW13: seq<bv32> := [
    0x119b4be9, 0x155a565e, 0x18197087, 0x1cd86d30, 0x029f3d35, 0x065e2082, 0x0b1d065b, 0x0fdc1bec,
    0x3793a651, 0x3352bbe6, 0x3e119d3f, 0x3ad08088, 0x2497d08d, 0x2056cd3a, 0x2d15ebe3, 0x29d4f654]
  const ROW14: seq<bv32> := [
    0xc5a92679, 0xc1683bce, 0xcc2b1d17, 0xc8ea00a0, 0xd6ad50a5, 0xd26c4d12, 0xdf2f6bcb, 0xdbee767c,
    0xe3a1cbc1, 0xe760d676, 0xea23f0af, 0xeee2ed18, 0xf0a5bd1d, 0xf464a0aa, 0xf9278673, 0xfde69bc4]
  const ROW15: seq<bv32> := [
    0x89b8fd09, 0x8d79e0be, 0x803ac667, 0x84fbdbd0, 0x9abc8bd5, 0x9e7d9662, 0x933eb0bb, 0x97ffad0c,
    0xafb010b1, 0xab710d06, 0xa6322bdf, 0xa2f33668, 0xbcb4666d, 0xb8757bda, 0xb5365d03, 0xb1f740b4]

  const CRCTAB: Table := [
    ROW0, ROW1, ROW2, ROW3, ROW4, ROW5, ROW6, ROW7,
    ROW8, ROW9, ROW10, ROW11, ROW12, ROW13, ROW14, ROW15]

  predicate Top(x: bv32) {
    x & 0x80000000 != 0
  }

  /** One zero bit: shift, and take the divisor off when it fits. */
  function Step(x: bv32): bv32 {
    if Top(x) then Sum(x << 1, POLY) else x << 1
  }

  // Two, four and eight zero bits.
  function Step2(x: bv32): bv32 { Step(Step(x)) }
  function Step4(x: bv32): bv32 { Step2(Step2(x)) }
  function Step8(x: bv32): bv32 { Step4(Step4(x)) }

  /** Long division: the remainder of the polynomial with these coefficients,
      highest first. */
  function Remainder(bits: seq<bool>): bv32 {
    if bits == [] then 0
    else Sum(Step(Remainder(bits[..|bits| - 1])), if bits[|bits| - 1] then 1 else 0)
  }

  /** A message bit added at the upper end of the register. */
  function Feed(reg: bv32, bit: bool): bv32 {
    if Top(reg) != bit then Sum(reg << 1, POLY) else reg << 1
  }

  function FeedAll(bits: seq<bool>): bv32 {
    if bits == [] then 0 else Feed(FeedAll(bits[..|bits| - 1]), bits[|bits| - 1])
  }

  function BitsOf(b: bv8): seq<bool> {
    [b & 128 != 0, b & 64 != 0, b & 32 != 0, b & 16 != 0, b & 8 != 0, b & 4 != 0, b & 2 != 0, b & 1 != 0]
  }

  /** The coefficients of a message. */
  function Bits(buf: seq<bv8>): seq<bool> {
    if buf == [] then [] else Bits(buf[..|buf| - 1]) + BitsOf(buf[|buf| - 1])
  }

  function ZeroBits(n: nat): seq<bool> {
    seq(n, _ => false)
  }

  // ---- sums ----

  lemma StepSum(x: bv32, y: bv32)
    ensures Step(Sum(x, y)) == Sum(Step(x), Step(y))
  {
    hide Sum, Top;
    ShiftSum(x, y);
    TopSum(x, y);
    BothSum(x << 1, y << 1, POLY);
    LeftSum(x << 1, y << 1, POLY);
    RightSum(x << 1, y << 1, POLY);
  }

  lemma ShiftXor(x: bv32, y: bv32, s: bv32, t: bv32)
    requires s == x ^ y && t == (x << 1) ^ (y << 1)
    ensures s << 1 == t
  {
  }

  lemma ShiftSum(x: bv32, y: bv32)
    ensures Sum(x, y) << 1 == Sum(x << 1, y << 1)
  {
    ShiftXor(x, y, Sum(x, y), Sum(x << 1, y << 1));
  }

  lemma TopXor(x: bv32, y: bv32)
    ensures (x ^ y) & 0x80000000 == (x & 0x80000000) ^ (y & 0x80000000)
  {
  }

  lemma TopBit(x: bv32)
    ensures x & 0x80000000 == 0 || x & 0x80000000 == 0x80000000
  {
  }

  lemma TopSum(x: bv32, y: bv32)
    ensures Top(Sum(x, y)) <==> Top(x) != Top(y)
  {
    TopXor(x, y);
    TopBit(x);
    TopBit(y);
  }

  lemma Step2Sum(x: bv32, y: bv32)
    ensures Step2(Sum(x, y)) == Sum(Step2(x), Step2(y))
  {
    hide Step, Sum;
    StepSum(x, y);
    StepSum(Step(x), Step(y));
  }

  lemma Step4Sum(x: bv32, y: bv32)
    ensures Step4(Sum(x, y)) == Sum(Step4(x), Step4(y))
  {
    hide Step2, Sum;
    Step2Sum(x, y);
    Step2Sum(Step2(x), Step2(y));
  }

  lemma Step8Sum(x: bv32, y: bv32)
    ensures Step8(Sum(x, y)) == Sum(Step8(x), Step8(y))
  {
    hide Step4, Sum;
    Step4Sum(x, y);
    Step4Sum(Step4(x), Step4(y));
  }

  // ---- the table ----

  lemma Step8Shift(x: bv32)
    requires x & 0xff000000 == 0
    ensures Step8(x) == x << 8
  {
    hide Step4;
    High8(x);
    Step4Shift(x);
    Step4Shift(x << 4);
  }

  lemma High8(x: bv32)
    requires x & 0xff000000 == 0
    ensures x & 0xf0000000 == 0 && (x << 4) & 0xf0000000 == 0 && (x << 4) << 4 == x << 8
  {
  }

  lemma Step4Shift(x: bv32)
    requires x & 0xf0000000 == 0
    ensures Step4(x) == x << 4
  {
    hide Step2;
    High4(x);
    Step2Shift(x);
    Step2Shift(x << 2);
  }

  lemma High4(x: bv32)
    requires x & 0xf0000000 == 0
    ensures x & 0xc0000000 == 0 && (x << 2) & 0xc0000000 == 0 && (x << 2) << 2 == x << 4
  {
  }

  lemma Step2Shift(x: bv32)
    requires x & 0xc0000000 == 0
    ensures Step2(x) == x << 2
  {
  }

  lemma FirstRow(lo: bv8)
    requires lo < 16
    ensures ROW0[lo as int] == Step8((lo as bv32) << 24)
  {
    if lo < 8 {
      FirstHalf(lo);
    } else {
      SecondHalf(lo);
    }
  }

  lemma FirstHalf(lo: bv8)
    requires lo < 8
    ensures ROW0[lo as int] == Step8((lo as bv32) << 24)
  {
    if lo == 0 {
    } else if lo == 1 {
    } else if lo == 2 {
    } else if lo == 3 {
    } else if lo == 4 {
    } else if lo == 5 {
    } else if lo == 6 {
    } else {
    }
  }

  lemma SecondHalf(lo: bv8)
    requires 8 <= lo < 16
    ensures ROW0[lo as int] == Step8((lo as bv32) << 24)
  {
    if lo == 8 {
    } else if lo == 9 {
    } else if lo == 10 {
    } else if lo == 11 {
    } else if lo == 12 {
    } else if lo == 13 {
    } else if lo == 14 {
    } else {
    }
  }

  lemma FirstColumn(hi: bv8)
    requires hi < 16
    ensures CRCTAB[hi as int][0] == Step8((hi as bv32) << 28)
  {
    if hi == 0 {
    } else if hi == 1 {
    } else if hi == 2 {
    } else if hi == 3 {
    } else if hi == 4 {
    } else if hi == 5 {
    } else if hi == 6 {
    } else if hi == 7 {
    } else if hi == 8 {
    } else if hi == 9 {
    } else if hi == 10 {
    } else if hi == 11 {
    } else if hi == 12 {
    } else if hi == 13 {
    } else if hi == 14 {
    } else {
    }
  }

  /** Every table entry is what eight zero bits make of its index at the upper
      end of the register. */
  lemma TableRight(i: bv8)
    ensures Linear(CRCTAB) && Rows(CRCTAB) && Entry(CRCTAB, i) == Step8((i as bv32) << 24)
  {
    hide Step8, Linear, LinearRow, Sum, Entry;
    RowsLinear();
    Nibbles(i);
    EntrySum(CRCTAB, i);
    FirstRow(i & 15);
    assert CRCTAB[0] == ROW0;
    FirstColumn(i >> 4);
    Step8Sum(((i >> 4) as bv32) << 28, ((i & 15) as bv32) << 24);
  }

  lemma Nibbles(i: bv8)
    ensures i >> 4 < 16 && i & 15 < 16
    ensures (i as bv32) << 24 == Sum(((i >> 4) as bv32) << 28, ((i & 15) as bv32) << 24)
  {
  }

  lemma RowsLinear()
    ensures Linear(CRCTAB)
  {
    Row0();
    Row1();
    Row2();
    Row3();
    Row4();
    Row5();
    Row6();
    Row7();
    Row8();
    Row9();
    Row10();
    Row11();
    Row12();
    Row13();
    Row14();
    Row15();
    hide LinearRow;
  }

  lemma Row0()
    ensures LinearRow(ROW0, ROW0)
  {
  }

  lemma Row1()
    ensures LinearRow(ROW1, ROW0)
  {
  }

  lemma Row2()
    ensures LinearRow(ROW2, ROW0)
  {
  }

  lemma Row3()
    ensures LinearRow(ROW3, ROW0)
  {
  }

  lemma Row4()
    ensures LinearRow(ROW4, ROW0)
  {
  }

  lemma Row5()
    ensures LinearRow(ROW5, ROW0)
  {
  }

  lemma Row6()
    ensures LinearRow(ROW6, ROW0)
  {
  }

  lemma Row7()
    ensures LinearRow(ROW7, ROW0)
  {
  }

  lemma Row8()
    ensures LinearRow(ROW8, ROW0)
  {
  }

  lemma Row9()
    ensures LinearRow(ROW9, ROW0)
  {
  }

  lemma Row10()
    ensures LinearRow(ROW10, ROW0)
  {
  }

  lemma Row11()
    ensures LinearRow(ROW11, ROW0)
  {
  }

  lemma Row12()
    ensures LinearRow(ROW12, ROW0)
  {
  }

  lemma Row13()
    ensures LinearRow(ROW13, ROW0)
  {
  }

  lemma Row14()
    ensures LinearRow(ROW14, ROW0)
  {
  }

  lemma Row15()
    ensures LinearRow(ROW15, ROW0)
  {
  }

  // ---- a byte at a time ----

  lemma FeedStep(r: bv32, y: bv32)
    ensures Sum(Feed(r, Top(y)), y << 1) == Step(Sum(r, y))
  {
    hide Sum, Top;
    ShiftSum(r, y);
    TopSum(r, y);
    BothSum(r << 1, y << 1, POLY);
    LeftSum(r << 1, y << 1, POLY);
    RightSum(r << 1, y << 1, POLY);
  }

  function FeedByte(reg: bv32, b: bv8): bv32 {
    var r0 := Feed(reg, b & 128 != 0);
    var r1 := Feed(r0, b & 64 != 0);
    var r2 := Feed(r1, b & 32 != 0);
    var r3 := Feed(r2, b & 16 != 0);
    var r4 := Feed(r3, b & 8 != 0);
    var r5 := Feed(r4, b & 4 != 0);
    var r6 := Feed(r5, b & 2 != 0);
    Feed(r6, b & 1 != 0)
  }

  lemma ByteBits(b: bv8)
    ensures var m := (b as bv32) << 24;
      && (Top(m) <==> b & 128 != 0) && (Top(m << 1) <==> b & 64 != 0)
      && (Top(m << 2) <==> b & 32 != 0) && (Top(m << 3) <==> b & 16 != 0)
      && (Top(m << 4) <==> b & 8 != 0) && (Top(m << 5) <==> b & 4 != 0)
      && (Top(m << 6) <==> b & 2 != 0) && (Top(m << 7) <==> b & 1 != 0)
      && (m << 1) << 1 == m << 2 && (m << 2) << 1 == m << 3 && (m << 3) << 1 == m << 4 && (m << 4) << 1 == m << 5
      && (m << 5) << 1 == m << 6 && (m << 6) << 1 == m << 7 && (m << 7) << 1 == 0
  {
  }

  /** One bit, its place in the mask given. */
  lemma FeedMasked(r: bv32, y: bv32, z: bv32, bit: bool)
    requires (Top(y) <==> bit) && z == y << 1
    ensures Sum(Feed(r, bit), z) == Step(Sum(r, y))
  {
    hide *;
    FeedStep(r, y);
  }

  lemma FeedFour(r: bv32, y0: bv32, y1: bv32, y2: bv32, y3: bv32, y4: bv32, a: bool, b: bool, c: bool, d: bool)
    requires (Top(y0) <==> a) && (Top(y1) <==> b) && (Top(y2) <==> c) && (Top(y3) <==> d)
    requires y1 == y0 << 1 && y2 == y1 << 1 && y3 == y2 << 1 && y4 == y3 << 1
    ensures Sum(Feed(Feed(Feed(Feed(r, a), b), c), d), y4) == Step(Step(Step(Step(Sum(r, y0)))))
  {
    hide *;
    FeedMasked(r, y0, y1, a);
    FeedMasked(Feed(r, a), y1, y2, b);
    FeedMasked(Feed(Feed(r, a), b), y2, y3, c);
    FeedMasked(Feed(Feed(Feed(r, a), b), c), y3, y4, d);
  }

  lemma EightSteps(x: bv32)
    ensures Step8(x) == Step(Step(Step(Step(Step(Step(Step(Step(x))))))))
  {
    hide Step;
  }

  lemma EightFed(reg: bv32, b: bv8)
    ensures FeedByte(reg, b) ==
            Feed(Feed(Feed(Feed(Feed(Feed(Feed(Feed(reg, b & 128 != 0), b & 64 != 0), b & 32 != 0), b & 16 != 0),
                                b & 8 != 0), b & 4 != 0), b & 2 != 0), b & 1 != 0)
  {
    hide Feed;
  }

  lemma EightMasked(reg: bv32, m: bv32, m1: bv32, m2: bv32, m3: bv32, m4: bv32, m5: bv32, m6: bv32, m7: bv32,
                    b0: bool, b1: bool, b2: bool, b3: bool, b4: bool, b5: bool, b6: bool, b7: bool)
    requires (Top(m) <==> b0) && (Top(m1) <==> b1) && (Top(m2) <==> b2) && (Top(m3) <==> b3)
    requires (Top(m4) <==> b4) && (Top(m5) <==> b5) && (Top(m6) <==> b6) && (Top(m7) <==> b7)
    requires m1 == m << 1 && m2 == m1 << 1 && m3 == m2 << 1 && m4 == m3 << 1
    requires m5 == m4 << 1 && m6 == m5 << 1 && m7 == m6 << 1 && 0 == m7 << 1
    ensures Feed(Feed(Feed(Feed(Feed(Feed(Feed(Feed(reg, b0), b1), b2), b3), b4), b5), b6), b7) == Step8(Sum(reg, m))
  {
    hide *;
    FeedFour(reg, m, m1, m2, m3, m4, b0, b1, b2, b3);
    var r := Feed(Feed(Feed(Feed(reg, b0), b1), b2), b3);
    FeedFour(r, m4, m5, m6, m7, 0, b4, b5, b6, b7);
    EightSteps(Sum(reg, m));
    NoSum(Feed(Feed(Feed(Feed(r, b4), b5), b6), b7));
  }

  lemma ByteFed(reg: bv32, b: bv8)
    ensures FeedByte(reg, b) == Step8(Sum(reg, (b as bv32) << 24))
  {
    hide *;
    var m := (b as bv32) << 24;
    ByteBits(b);
    EightMasked(reg, m, m << 1, m << 2, m << 3, m << 4, m << 5, m << 6, m << 7,
                b & 128 != 0, b & 64 != 0, b & 32 != 0, b & 16 != 0, b & 8 != 0, b & 4 != 0, b & 2 != 0, b & 1 != 0);
    EightFed(reg, b);
  }

  lemma {:induction false} FeedBits(bits: seq<bool>, b: bv8)
    ensures FeedAll(bits + BitsOf(b)) == FeedByte(FeedAll(bits), b)
  {
    hide *;
    var a := BitsOf(b);
    FeedEight(FeedAll(bits), b, a);
    WholeByte(bits, a);
    FeedOne(bits, a, 0);
    FeedOne(bits, a, 1);
    FeedOne(bits, a, 2);
    FeedOne(bits, a, 3);
    FeedOne(bits, a, 4);
    FeedOne(bits, a, 5);
    FeedOne(bits, a, 6);
    FeedOne(bits, a, 7);
  }

  lemma WholeByte(bits: seq<bool>, a: seq<bool>)
    requires |a| == 8
    ensures bits + a[..0] == bits && a[..8] == a
  {
  }

  lemma FeedEight(reg: bv32, b: bv8, a: seq<bool>)
    requires a == BitsOf(b)
    ensures |a| == 8
    ensures FeedByte(reg, b) == Feed(Feed(Feed(Feed(Feed(Feed(Feed(Feed(reg, a[0]), a[1]), a[2]), a[3]), a[4]), a[5]), a[6]), a[7])
  {
    hide Feed;
  }

  lemma FeedOne(bits: seq<bool>, a: seq<bool>, i: nat)
    requires i < |a|
    ensures FeedAll(bits + a[..i + 1]) == Feed(FeedAll(bits + a[..i]), a[i])
  {
    var c := bits + a[..i + 1];
    assert c[..|c| - 1] == bits + a[..i];
  }

  function Index(s: bv32, b: bv8): bv8 {
    UpperByte(s, b);
    ((s >> 24) ^ (b as bv32)) as bv8
  }

  /** One table look-up for one byte. */
  function Do1(s: bv32, b: bv8): bv32 {
    TableRight(0);
    Sum(s << 8, Entry(CRCTAB, Index(s, b)))
  }

  lemma Do1Right(s: bv32, b: bv8)
    ensures Do1(s, b) == FeedByte(s, b)
  {
    hide Index, Sum, Step8, FeedByte, Entry;
    ByteFed(s, b);
    LowerBytes(s);
    Recombine(s, b);
    LowerShift(s);
    Combine(Sum(s, (b as bv32) << 24), s & 0xffffff, (Index(s, b) as bv32) << 24, Index(s, b), s << 8);
  }

  lemma Combine(x: bv32, lo: bv32, hi: bv32, i: bv8, shifted: bv32)
    requires Sum(lo, hi) == x && (i as bv32) << 24 == hi && lo & 0xff000000 == 0 && lo << 8 == shifted
    ensures Rows(CRCTAB) && Sum(shifted, Entry(CRCTAB, i)) == Step8(x)
  {
    hide Sum, Step8, Entry, Rows, Linear;
    TableRight(i);
    Step8Sum(lo, hi);
    Step8Shift(lo);
  }

  lemma UpperByte(s: bv32, b: bv8)
    ensures (s >> 24) ^ (b as bv32) < 256
  {
  }

  lemma LowerBytes(x: bv32)
    ensures (x & 0xffffff) & 0xff000000 == 0
  {
  }

  lemma Recombine(s: bv32, b: bv8)
    ensures Sum(s & 0xffffff, (Index(s, b) as bv32) << 24) == Sum(s, (b as bv32) << 24)
  {
    Rejoin(s, b, Index(s, b));
  }

  lemma Rejoin(s: bv32, b: bv8, i: bv8)
    requires i as bv32 == (s >> 24) ^ (b as bv32)
    ensures Sum(s & 0xffffff, (i as bv32) << 24) == Sum(s, (b as bv32) << 24)
  {
  }

  lemma LowerShift(s: bv32)
    ensures (s & 0xffffff) << 8 == s << 8
  {
  }

  // ---- the register is the remainder ----

  // Thirty-two zero bits.
  function Step16(x: bv32): bv32 { Step8(Step8(x)) }
  function Step32(x: bv32): bv32 { Step16(Step16(x)) }

  lemma Step16Sum(x: bv32, y: bv32)
    ensures Step16(Sum(x, y)) == Sum(Step16(x), Step16(y))
  {
    hide Step8, Sum;
    Step8Sum(x, y);
    Step8Sum(Step8(x), Step8(y));
  }

  lemma Step32Sum(x: bv32, y: bv32)
    ensures Step32(Sum(x, y)) == Sum(Step32(x), Step32(y))
  {
    hide Step16, Sum;
    Step16Sum(x, y);
    Step16Sum(Step16(x), Step16(y));
  }

  lemma StepAround(x: bv32)
    ensures Step(Step8(x)) == Step8(Step(x))
  {
    hide Step;
  }

  lemma Step32Around(x: bv32)
    ensures Step(Step32(x)) == Step32(Step(x))
  {
    hide Step8, Step;
    StepAround(x);
    StepAround(Step8(x));
    StepAround(Step8(Step8(x)));
    StepAround(Step8(Step8(Step8(x))));
  }

  /** The top coefficient of the message, moved up by 32 places, leaves the
      divisor as remainder. */
  lemma OneShifted()
    ensures Step32(1) == POLY
  {
    var a, b, c := Step8(1), Step8(0x100), Step8(0x10000);
    assert a == 0x100;
    assert b == 0x10000;
    assert c == 0x1000000;
    assert Step8(0x1000000) == POLY;
  }

  lemma NoShifted()
    ensures Step32(0) == 0
  {
    assert Step8(0) == 0;
    hide Step8;
  }

  lemma FeedIs(reg: bv32, bit: bool)
    ensures Feed(reg, bit) == Sum(Step(reg), if bit then POLY else 0)
  {
    hide Top, Sum;
    NoSum(reg << 1);
    NoSum(Sum(reg << 1, POLY));
    PolyOff(reg << 1);
  }

  lemma PolyOff(x: bv32)
    ensures Sum(Sum(x, POLY), POLY) == x
  {
  }

  /** Feeding bits at the upper end is dividing the message with 32 zero bits
      behind it. */
  lemma {:induction false} FedAhead(bits: seq<bool>)
    ensures FeedAll(bits) == Step32(Remainder(bits))
  {
    if bits == [] {
      NoShifted();
    } else {
      hide Feed, Step, Step32, Sum;
      var n := |bits| - 1;
      var r, bit := Remainder(bits[..n]), bits[n];
      FedAhead(bits[..n]);
      FeedIs(Step32(r), bit);
      Step32Around(r);
      Step32Sum(Step(r), if bit then 1 else 0);
      OneShifted();
      NoShifted();
    }
  }

  lemma {:induction false} ZerosAppended(bits: seq<bool>, n: nat)
    ensures Remainder(bits + ZeroBits(n + 1)) == Step(Remainder(bits + ZeroBits(n)))
  {
    var c := bits + ZeroBits(n + 1);
    assert c[..|c| - 1] == bits + ZeroBits(n);
    NoSum(Step(Remainder(bits + ZeroBits(n))));
    hide Step, Sum;
  }

  lemma EightZeros(bits: seq<bool>, n: nat)
    ensures Remainder(bits + ZeroBits(n + 8)) == Step8(Remainder(bits + ZeroBits(n)))
  {
    ZerosAppended(bits, n);
    ZerosAppended(bits, n + 1);
    ZerosAppended(bits, n + 2);
    ZerosAppended(bits, n + 3);
    ZerosAppended(bits, n + 4);
    ZerosAppended(bits, n + 5);
    ZerosAppended(bits, n + 6);
    ZerosAppended(bits, n + 7);
    hide Step, Remainder;
  }

  lemma FedIsRemainder(bits: seq<bool>)
    ensures FeedAll(bits) == Remainder(bits + ZeroBits(32))
  {
    FedAhead(bits);
    EightZeros(bits, 0);
    EightZeros(bits, 8);
    EightZeros(bits, 16);
    EightZeros(bits, 24);
    assert bits + ZeroBits(0) == bits;
    hide Step8, Remainder;
  }

  // ---- the utility ----

  /** The length, lowest byte first, without leading zeros. */
  function LengthBytes(n: nat): seq<bv8> {
    if n == 0 then [] else [(n % 256) as bv8] + LengthBytes(n / 256)
  }

  /** What the standard asks for: the complement of the remainder of the
      message, its length and 32 zero bits. */
  function Checksum(data: seq<bv8>): bv32 {
    Flip(Remainder(Bits(data + LengthBytes(|data|)) + ZeroBits(32)))
  }

  lemma {:induction false} OneMoreByte(buf: seq<bv8>, b: bv8)
    ensures FeedAll(Bits(buf + [b])) == Do1(FeedAll(Bits(buf)), b)
  {
    hide Do1, FeedByte, FeedAll, BitsOf;
    assert (buf + [b])[..|buf|] == buf;
    FeedBits(Bits(buf), b);
    Do1Right(FeedAll(Bits(buf)), b);
  }

  lemma Unfed()
    ensures FeedAll(Bits([])) == 0
  {
  }

  /** cksum, whatever the reads return. */
  method Cksum(file: seq<bv8>) returns (s: bv32, nbytes: nat)
    ensures s == Checksum(file) && nbytes == |file|
  {
    hide FeedAll, Bits, Do1, Remainder;
    s, nbytes := 0, 0;
    Unfed();
    while true
      invariant nbytes <= |file| && s == FeedAll(Bits(file[..nbytes]))
      decreases |file| - nbytes
    {
      var sz: nat :| sz <= 4096 && nbytes + sz <= |file| && (sz == 0 ==> nbytes == |file|);
      if sz == 0 {
        break;
      }
      for i := 0 to sz
        invariant s == FeedAll(Bits(file[..nbytes + i]))
      {
        assert file[..nbytes + i + 1] == file[..nbytes + i] + [file[nbytes + i]];
        OneMoreByte(file[..nbytes + i], file[nbytes + i]);
        s := Do1(s, file[nbytes + i]);
      }
      nbytes := nbytes + sz;
    }
    assert file[..nbytes] == file;
    s := FeedLength(file, s, nbytes);
    FedIsRemainder(Bits(file + LengthBytes(|file|)));
    s := Flip(s);
  }

  /** The length, its lowest byte first, as long as there is something left. */
  method FeedLength(ghost file: seq<bv8>, s0: bv32, nbytes: nat) returns (s: bv32)
    requires s0 == FeedAll(Bits(file))
    ensures s == FeedAll(Bits(file + LengthBytes(nbytes)))
  {
    hide FeedAll, Bits, Do1, Remainder, LengthBytes;
    ghost var sent: seq<bv8> := [];
    s := s0;
    assert file + sent == file && sent + LengthBytes(nbytes) == LengthBytes(nbytes);
    var n := nbytes;
    while n != 0
      invariant sent + LengthBytes(n) == LengthBytes(nbytes) && s == FeedAll(Bits(file + sent))
    {
      LengthMore(n);
      var c := (n % 256) as bv8;
      assert file + sent + [c] == file + (sent + [c]);
      assert sent + [c] + LengthBytes(n / 256) == sent + ([c] + LengthBytes(n / 256));
      OneMoreByte(file + sent, c);
      s := Do1(s, c);
      sent, n := sent + [c], n / 256;
    }
    LengthMore(0);
    assert sent + [] == sent;
  }

  lemma LengthMore(n: nat)
    ensures LengthBytes(n) == if n == 0 then [] else [(n % 256) as bv8] + LengthBytes(n / 256)
  {
  }

  /** The number that digits of base 256 stand for, the lowest first. */
  function NumberOf(ds: seq<nat>): nat {
    if ds == [] then 0 else ds[0] + 256 * NumberOf(ds[1..])
  }

  ghost predicate Alike(s: seq<bv8>, ds: seq<nat>) {
    |s| == |ds| && forall i :: 0 <= i < |ds| ==> ds[i] < 256 && s[i] == ds[i] as bv8
  }

  lemma OneAlike(s: seq<bv8>, ds: seq<nat>, d: nat)
    requires d < 256 && Alike(s, ds)
    ensures Alike([d as bv8] + s, [d] + ds)
  {
  }

  /** The length bytes are the digits of the length, the highest not zero. */
  lemma {:induction false} LengthNumber(n: nat) returns (ds: seq<nat>)
    ensures Alike(LengthBytes(n), ds)
    ensures NumberOf(ds) == n && (ds == [] <==> n == 0) && (ds != [] ==> ds[|ds| - 1] != 0)
  {
    hide LengthBytes, Alike;
    LengthMore(n);
    if n == 0 {
      ds := [];
      NoneAlike();
    } else {
      var more := LengthNumber(n / 256);
      ds := [n % 256] + more;
      OneAlike(LengthBytes(n / 256), more, n % 256);
      assert ds[1..] == more;
    }
  }

  lemma NoneAlike()
    ensures Alike([], [])
  {
  }

  /** The checksum of no data is 4294967295. */
  lemma EmptyChecksum()
    ensures Checksum([]) == 0xffff_ffff
  {
    hide Remainder;
    assert Bits([] + LengthBytes(0)) + ZeroBits(32) == ZeroBits(32);
    ZeroRemainder(32);
  }

  lemma {:induction false} ZeroRemainder(n: nat)
    ensures Remainder(ZeroBits(n)) == 0
  {
    if n > 0 {
      ZeroRemainder(n - 1);
      assert ZeroBits(n)[..n - 1] == ZeroBits(n - 1);
      NoStep();
    }
  }

  lemma NoStep()
    ensures Sum(Step(0), 0) == 0
  {
  }
}
