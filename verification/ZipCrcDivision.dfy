/**
 The checksum of zip archives as a long division of polynomials: the divisor of
 cksum, coefficients mirrored in the register, and the first 32 coefficients of
 the dividend complemented.
 */
module ZipCrcDivision {
  import opened CrcTable
  import C = Cksum
  import Z = ZipCrc

  /** The 32 bits in reverse order: neighbouring bits, pairs, digits, bytes and
      halves change places. */
  function Mirror(x: bv32): bv32 {
    var a := ((x & 0x55555555) << 1) | ((x >> 1) & 0x55555555);
    var b := ((a & 0x33333333) << 2) | ((a >> 2) & 0x33333333);
    var c := ((b & 0x0f0f0f0f) << 4) | ((b >> 4) & 0x0f0f0f0f);
    var d := ((c & 0x00ff00ff) << 8) | ((c >> 8) & 0x00ff00ff);
    (d << 16) | (d >> 16)
  }

  lemma MirrorShift(x: bv32)
    ensures Mirror(x << 1) == Mirror(x) >> 1
  {
  }

  lemma MirrorTop(x: bv32)
    ensures C.Top(x) <==> Mirror(x) & 1 == 1
  {
  }

  lemma MirrorXor(x: bv32, y: bv32, s: bv32)
    requires s == x ^ y
    ensures Mirror(s) == Mirror(x) ^ Mirror(y)
  {
  }

  /** The two divisors are mirror images. */
  lemma MirrorPoly()
    ensures Mirror(C.POLY) == Z.POLY
  {
  }

  lemma MirrorSum(x: bv32)
    ensures Mirror(Sum(x, C.POLY)) == Sum(Mirror(x), Z.POLY)
  {
    MirrorPoly();
    hide Mirror, Sum;
    IsSum(x, C.POLY);
    IsSum(Mirror(x), Z.POLY);
    MirrorXor(x, C.POLY, Sum(x, C.POLY));
  }

  /** Both registers take a bit in the same way. */
  lemma MirrorFeed(reg: bv32, bit: bool)
    ensures Mirror(C.Feed(reg, bit)) == Z.Feed(Mirror(reg), bit)
  {
    hide Mirror, Sum, C.Top;
    MirrorShift(reg);
    MirrorTop(reg);
    MirrorSum(reg << 1);
  }

  // ---- registers that do not start at zero ----

  function FeedFrom(reg: bv32, bits: seq<bool>): bv32 {
    if bits == [] then reg else C.Feed(FeedFrom(reg, bits[..|bits| - 1]), bits[|bits| - 1])
  }

  /** n zero bits. */
  function Steps(x: bv32, n: nat): bv32 {
    if n == 0 then x else C.Step(Steps(x, n - 1))
  }

  /** The start value is carried along beside the message. */
  lemma {:induction false} FedFrom(reg: bv32, bits: seq<bool>)
    ensures FeedFrom(reg, bits) == Sum(Steps(reg, |bits|), C.FeedAll(bits))
  {
    if bits == [] {
      NoSum(reg);
    } else {
      hide C.Feed, C.Step, Sum;
      var n := |bits| - 1;
      var s, f, p := Steps(reg, n), C.FeedAll(bits[..n]), if bits[n] then C.POLY else 0;
      FedFrom(reg, bits[..n]);
      C.FeedIs(FeedFrom(reg, bits[..n]), bits[n]);
      C.FeedIs(f, bits[n]);
      C.StepSum(s, f);
      RightSum(C.Step(s), C.Step(f), p);
    }
  }

  lemma {:induction false} RemainderConcat(a: seq<bool>, b: seq<bool>)
    ensures C.Remainder(a + b) == Sum(Steps(C.Remainder(a), |b|), C.Remainder(b))
  {
    if b == [] {
      assert a + b == a;
      NoSum(C.Remainder(a));
    } else {
      hide C.Step, Sum;
      var n := |b| - 1;
      var s, r, p: bv32 := Steps(C.Remainder(a), n), C.Remainder(b[..n]), if b[n] then 1 else 0;
      assert (a + b)[..|a| + n] == a + b[..n];
      RemainderConcat(a, b[..n]);
      C.StepSum(s, r);
      RightSum(C.Step(s), C.Step(r), p);
    }
  }

  /** The sum of two polynomials of one length. */
  function Plus(a: seq<bool>, b: seq<bool>): (c: seq<bool>)
    requires |a| == |b|
  {
    seq(|a|, i requires 0 <= i < |a| => a[i] != b[i])
  }

  /** Remainders add up. */
  lemma {:induction false} RemainderSum(a: seq<bool>, b: seq<bool>)
    requires |a| == |b|
    ensures C.Remainder(Plus(a, b)) == Sum(C.Remainder(a), C.Remainder(b))
  {
    if a == [] {
      NoSum(0);
    } else {
      hide C.Step, Sum;
      var n := |a| - 1;
      assert Plus(a, b)[..n] == Plus(a[..n], b[..n]);
      RemainderSum(a[..n], b[..n]);
      C.StepSum(C.Remainder(a[..n]), C.Remainder(b[..n]));
      Crosswise(C.Step(C.Remainder(a[..n])), C.Step(C.Remainder(b[..n])), a[n], b[n]);
    }
  }

  lemma Crosswise(x: bv32, y: bv32, a: bool, b: bool)
    ensures Sum(Sum(x, y), if a != b then 1 else 0) == Sum(Sum(x, if a then 1 else 0), Sum(y, if b then 1 else 0))
  {
    hide Sum;
    BothSum(x, y, 1);
    LeftSum(x, y, 1);
    RightSum(x, y, 1);
    NoSum(x);
    NoSum(y);
    NoSum(Sum(x, y));
  }

  // ---- the complemented coefficients ----

  function Ones(n: nat): seq<bool> {
    seq(n, _ => true)
  }

  /** The dividend with its first 32 coefficients complemented. */
  function Complemented(c: seq<bool>): seq<bool> {
    seq(|c|, i requires 0 <= i < |c| => if i < 32 then !c[i] else c[i])
  }

  lemma OneMore(n: nat, r: bv32)
    requires C.Remainder(Ones(n)) == r && r < 0x80
    ensures C.Remainder(Ones(n + 1)) == Sum(r << 1, 1)
  {
    assert Ones(n + 1)[..n] == Ones(n);
    LowStep(r);
    hide C.Step;
  }

  lemma LowStep(r: bv32)
    requires r < 0x80
    ensures C.Step(r) == r << 1
  {
  }

  lemma EightOnes()
    ensures C.Remainder(Ones(8)) == 0xff
  {
    assert C.Remainder(Ones(0)) == 0;
    hide C.Remainder, Ones;
    OneMore(0, 0);
    OneMore(1, 1);
    OneMore(2, 3);
    OneMore(3, 7);
    OneMore(4, 15);
    OneMore(5, 31);
    OneMore(6, 63);
    OneMore(7, 127);
  }

  lemma StepsEight(x: bv32)
    ensures Steps(x, 8) == C.Step8(x)
  {
    hide C.Step;
    assert Steps(x, 0) == x && Steps(x, 1) == C.Step(Steps(x, 0)) && Steps(x, 2) == C.Step(Steps(x, 1));
    assert Steps(x, 3) == C.Step(Steps(x, 2)) && Steps(x, 4) == C.Step(Steps(x, 3));
    assert Steps(x, 5) == C.Step(Steps(x, 4)) && Steps(x, 6) == C.Step(Steps(x, 5));
    assert Steps(x, 7) == C.Step(Steps(x, 6)) && Steps(x, 8) == C.Step(Steps(x, 7));
  }

  lemma NextOnes(n: nat, r: bv32)
    requires C.Remainder(Ones(n)) == r && r & 0xff000000 == 0
    ensures C.Remainder(Ones(n + 8)) == Sum(r << 8, 0xff)
  {
    assert Ones(n) + Ones(8) == Ones(n + 8);
    hide C.Remainder, Ones, Steps, C.Step8;
    RemainderConcat(Ones(n), Ones(8));
    OnesLength(8);
    StepsEight(r);
    C.Step8Shift(r);
    EightOnes();
  }

  lemma OnesLength(n: nat)
    ensures |Ones(n)| == n
  {
  }

  /** 32 ones are below the divisor, and so their own remainder. */
  lemma AllOnes()
    ensures C.Remainder(Ones(32)) == 0xffffffff
  {
    hide C.Remainder, Ones;
    EightOnes();
    NextOnes(8, 0xff);
    NextOnes(16, 0xffff);
    NextOnes(24, 0xffffff);
  }

  lemma {:induction false} ZeroRemainder(n: nat)
    ensures C.Remainder(C.ZeroBits(n)) == 0
  {
    if n > 0 {
      assert C.ZeroBits(n)[..n - 1] == C.ZeroBits(n - 1);
      ZeroRemainder(n - 1);
    }
  }

  /** A register that starts with all ones divides the message with its first
      32 coefficients complemented. */
  lemma FedComplemented(bits: seq<bool>)
    ensures FeedFrom(0xffffffff, bits) == C.Remainder(Complemented(bits + C.ZeroBits(32)))
  {
    var c, m := bits + C.ZeroBits(32), Ones(32) + C.ZeroBits(|bits|);
    assert Complemented(c) == Plus(m, c);
    assert |C.ZeroBits(|bits|)| == |bits|;
    hide *;
    FedFrom(0xffffffff, bits);
    C.FedIsRemainder(bits);
    RemainderConcat(Ones(32), C.ZeroBits(|bits|));
    AllOnes();
    ZeroRemainder(|bits|);
    NoSum(Steps(0xffffffff, |bits|));
    RemainderSum(m, c);
  }

  // ---- messages ----

  /** The coefficients of a message, lowest bit of a byte first. */
  function BitsOf(b: bv8): seq<bool> {
    [b & 1 != 0, b & 2 != 0, b & 4 != 0, b & 8 != 0, b & 16 != 0, b & 32 != 0, b & 64 != 0, b & 128 != 0]
  }

  function Bits(buf: seq<bv8>): seq<bool> {
    if buf == [] then [] else Bits(buf[..|buf| - 1]) + BitsOf(buf[|buf| - 1])
  }

  lemma MirrorOne(reg: bv32, bits: seq<bool>, a: seq<bool>, i: nat)
    requires i < |a|
    ensures Mirror(FeedFrom(reg, bits + a[..i + 1])) == Z.Feed(Mirror(FeedFrom(reg, bits + a[..i])), a[i])
  {
    var c := bits + a[..i + 1];
    assert c[..|c| - 1] == bits + a[..i];
    MirrorFeed(FeedFrom(reg, bits + a[..i]), a[i]);
    hide Mirror, C.Feed, Z.Feed;
  }

  lemma MirrorByte(reg: bv32, bits: seq<bool>, b: bv8)
    ensures Mirror(FeedFrom(reg, bits + BitsOf(b))) == Z.FeedByte(Mirror(FeedFrom(reg, bits)), b)
  {
    var a := BitsOf(b);
    C.WholeByte(bits, a);
    hide *;
    MirrorOne(reg, bits, a, 0);
    MirrorOne(reg, bits, a, 1);
    MirrorOne(reg, bits, a, 2);
    MirrorOne(reg, bits, a, 3);
    MirrorOne(reg, bits, a, 4);
    MirrorOne(reg, bits, a, 5);
    MirrorOne(reg, bits, a, 6);
    MirrorOne(reg, bits, a, 7);
    FeedEight(Mirror(FeedFrom(reg, bits)), b, a);
  }

  lemma FeedEight(reg: bv32, b: bv8, a: seq<bool>)
    requires a == BitsOf(b)
    ensures |a| == 8
    ensures Z.FeedByte(reg, b) ==
            Z.Feed(Z.Feed(Z.Feed(Z.Feed(Z.Feed(Z.Feed(Z.Feed(Z.Feed(reg, a[0]), a[1]), a[2]), a[3]), a[4]), a[5]), a[6]), a[7])
  {
    hide Z.Feed;
  }

  lemma {:induction false} MirrorSerial(reg: bv32, buf: seq<bv8>)
    ensures Mirror(FeedFrom(reg, Bits(buf))) == Z.Serial(Mirror(reg), buf)
  {
    if buf != [] {
      hide Mirror, Z.FeedByte, BitsOf, FeedFrom;
      var n := |buf| - 1;
      MirrorSerial(reg, buf[..n]);
      MirrorByte(reg, Bits(buf[..n]), buf[n]);
    } else {
      assert FeedFrom(reg, Bits(buf)) == reg;
    }
  }

  lemma MirrorOnes()
    ensures Mirror(0xffffffff) == 0xffffffff && Flip(0) == 0xffffffff
  {
  }

  /** The checksum of a message is the mirrored complement of the remainder of
      the message, its first 32 coefficients complemented and 32 zeros behind. */
  lemma CrcIsRemainder(buf: seq<bv8>)
    ensures Z.Crc(0, buf) == Flip(Mirror(C.Remainder(Complemented(Bits(buf) + C.ZeroBits(32)))))
  {
    hide Mirror, C.Remainder, Complemented, Bits, Flip, FeedFrom, Z.Serial;
    MirrorOnes();
    MirrorSerial(0xffffffff, buf);
    FedComplemented(Bits(buf));
  }
}
