/**
 Numbers in archive headers: octal and hexadecimal digits as printf writes
 them, the loops that read them back, and the byte orders of the binary
 formats.
 */
module Numerals {
  import opened Basics

  function Pow(b: nat, n: nat): (r: nat)
    ensures b > 0 ==> r > 0
  {
    if n == 0 then 1 else Positive(Pow(b, n - 1), b); b * Pow(b, n - 1)
  }

  lemma Positive(a: nat, b: nat)
    ensures 0 <= b * a && (b > 0 && a > 0 ==> b * a > 0)
  {
  }

  function Base(hex: bool): nat {
    if hex then 16 else 8
  }

  function DigitChar(d: nat): byte
    requires d < 16
  {
    if d < 10 then 48 + d else 87 + d
  }

  /** The last w digits of n. */
  function Digits(n: nat, hex: bool, w: nat): (s: seq<byte>)
    ensures |s| == w
    decreases w
  {
    if w == 0 then [] else Digits(n / Base(hex), hex, w - 1) + [DigitChar(n % Base(hex))]
  }

  lemma {:induction false} PowAbove(b: nat, n: nat)
    requires b >= 2
    ensures Pow(b, n) > n
  {
    if n > 0 {
      PowAbove(b, n - 1);
      var p := Pow(b, n - 1);
      assert b * p >= 2 * p by {
        Scale(b, p);
      }
    }
  }

  lemma Scale(b: int, p: int)
    requires b >= 2 && p >= 0
    ensures b * p >= 2 * p
  {
  }

  /** sprintf with a zero-padded field of width w: more digits if n needs them. */
  function Printed(n: nat, hex: bool, w: nat): seq<byte>
    decreases if n < w then 0 else n - w
  {
    if n < Pow(Base(hex), w) then Digits(n, hex, w)
    else PowAbove(Base(hex), w); Printed(n, hex, w + 1)
  }

  /** What a character counts as a digit: rdoct takes the character as it is,
      rdhex knows both cases. */
  function DigitValue(c: byte, hex: bool): int {
    if !hex then c - 48
    else if c > 57 then if c > 70 then c - 87 else c - 55
    else c - 48
  }

  predicate Stops(c: byte) {
    c == 0 || c == 32
  }

  function Leading(s: seq<byte>): (n: nat)
    ensures n <= |s|
  {
    if s != [] && s[0] == 32 then 1 + Leading(s[1..]) else 0
  }

  /** The digits up to a blank, a NUL or the end, onto val. */
  function Number(s: seq<byte>, hex: bool, val: int): int {
    if s == [] || Stops(s[0]) then val else Number(s[1..], hex, val * Base(hex) + DigitValue(s[0], hex))
  }

  /** The value of a numeric field. */
  function Field(s: seq<byte>, hex: bool): int {
    Number(s[Leading(s)..], hex, 0)
  }

  lemma DigitRead(d: nat, hex: bool)
    requires d < Base(hex)
    ensures DigitValue(DigitChar(d), hex) == d && !Stops(DigitChar(d))
  {
  }

  lemma {:induction false} NumberLast(s: seq<byte>, c: byte, hex: bool, val: int)
    requires (forall i :: 0 <= i < |s| ==> !Stops(s[i])) && !Stops(c)
    ensures Number(s + [c], hex, val) == Number(s, hex, val) * Base(hex) + DigitValue(c, hex)
  {
    if s == [] {
      assert (s + [c])[1..] == [];
    } else {
      assert (s + [c])[1..] == s[1..] + [c];
      NumberLast(s[1..], c, hex, val * Base(hex) + DigitValue(s[0], hex));
    }
  }

  lemma {:induction false} DigitsRead(n: nat, hex: bool, w: nat)
    requires n < Pow(Base(hex), w)
    ensures forall i :: 0 <= i < w ==> !Stops(Digits(n, hex, w)[i])
    ensures Number(Digits(n, hex, w), hex, 0) == n
    decreases w
  {
    if w > 0 {
      var b := Base(hex);
      Quotient(n, b, Pow(b, w - 1));
      DigitsRead(n / b, hex, w - 1);
      DigitRead(n % b, hex);
      NumberLast(Digits(n / b, hex, w - 1), DigitChar(n % b), hex, 0);
    }
  }

  lemma Quotient(n: nat, b: nat, p: nat)
    requires b > 0 && n < b * p
    ensures n / b < p && n / b * b + n % b == n
  {
    var q := n / b;
    assert q * b <= n;
    if q >= p {
      Grows(q, p, b);
    }
  }

  lemma Grows(q: int, p: int, b: int)
    requires q >= p && b >= 0
    ensures q * b >= p * b
  {
  }

  /** A number that fits its field is read back as it was printed. */
  lemma FieldRead(n: nat, hex: bool, w: nat)
    requires n < Pow(Base(hex), w)
    ensures |Printed(n, hex, w)| == w && Field(Printed(n, hex, w), hex) == n
  {
    DigitsRead(n, hex, w);
    var s := Digits(n, hex, w);
    assert s[Leading(s)..] == s;
  }

  /** rdoct and rdhex. */
  method ReadNumber(data: seq<byte>, hex: bool) returns (val: int)
    ensures val == Field(data, hex)
  {
    val := 0;
    var i := 0;
    while i < |data| && data[i] == 32
      invariant i <= |data| && Leading(data) == i + Leading(data[i..])
    {
      assert data[i..][1..] == data[i + 1..];
      i := i + 1;
    }
    while i < |data| && data[i] != 0 && data[i] != 32
      invariant i <= |data| && Field(data, hex) == Number(data[i..], hex, val)
    {
      assert data[i..][1..] == data[i + 1..];
      val := val * Base(hex);
      val := val + DigitValue(data[i], hex);
      i := i + 1;
    }
  }

  // ---- binary numbers ----

  datatype Order = Little | Big | Middle

  /** le16p and be16p. */
  function Put16(n: nat, o: Order): (s: seq<byte>)
    ensures |s| == 2
  {
    var lo, hi := n % 256, n / 256 % 256;
    if o.Big? then [hi, lo] else [lo, hi]
  }

  function Word(d: nat, c: nat, b: nat, a: nat): nat {
    16777216 * d + 65536 * c + 256 * b + a
  }

  /** ple16 and pbe16. */
  function Get16(s: seq<byte>, o: Order): nat
    requires |s| == 2
  {
    if o.Big? then Word(0, 0, s[0], s[1]) else Word(0, 0, s[1], s[0])
  }

  /** le32p, be32p and me32p. */
  function Put32(n: nat, o: Order): (s: seq<byte>)
    ensures |s| == 4
  {
    var a, b, c, d := n % 256, n / 256 % 256, n / 65536 % 256, n / 16777216 % 256;
    match o
    case Little => [a, b, c, d]
    case Big => [d, c, b, a]
    case Middle => [c, d, a, b]
  }

  /** ple32, pbe32 and pme32. */
  function Get32(s: seq<byte>, o: Order): nat
    requires |s| == 4
  {
    match o
    case Little => Word(s[3], s[2], s[1], s[0])
    case Big => Word(s[0], s[1], s[2], s[3])
    case Middle => Word(s[1], s[0], s[3], s[2])
  }

  /** Binary numbers are read back modulo their width, in every byte order;
      and every string of bytes is written back as it was read. */
  lemma Binary16(n: nat, s: seq<byte>, o: Order)
    requires |s| == 2
    ensures Get16(Put16(n, o), o) == n % 65536
    ensures Put16(Get16(s, o), o) == s
  {
    Halves(n);
    Unhalves(s[0], s[1]);
    Unhalves(s[1], s[0]);
    hide Word;
  }

  lemma Halves(n: nat)
    ensures Word(0, 0, n / 256 % 256, n % 256) == n % 65536
  {
    Pieces(n, 256, 256);
  }

  lemma Unhalves(a: byte, b: byte)
    ensures var n := Word(0, 0, b, a); n % 256 == a && n / 256 % 256 == b
  {
    Piece(b, a, 256);
  }

  lemma Binary32(n: nat, s: seq<byte>, o: Order)
    requires |s| == 4
    ensures Get32(Put32(n, o), o) == n % 4294967296
    ensures Put32(Get32(s, o), o) == s
  {
    Bytes(n);
    hide Word;
    if o.Little? {
      Unbytes(s[0], s[1], s[2], s[3]);
    } else if o.Big? {
      Unbytes(s[3], s[2], s[1], s[0]);
    } else {
      Unbytes(s[2], s[3], s[0], s[1]);
    }
  }

  /** A number cut into a low part and the rest. */
  lemma Pieces(n: nat, a: nat, b: nat)
    requires a > 0 && b > 0
    ensures a * b > 0 && n % (a * b) == n / a % b * a + n % a && n / a / b == n / (a * b)
  {
    var q, r := n / a, n % a;
    var q', r' := q / b, q % b;
    assert a * b > 0 by { Scaled(a, b); }
    assert n == (q' * b + r') * a + r;
    assert n == q' * (a * b) + (r' * a + r) by {
      assert (q' * b + r') * a == q' * b * a + r' * a;
      assert q' * b * a == q' * (b * a);
    }
    assert r' * a + r < a * b by {
      Grows(b - 1, r', a);
      assert (b - 1) * a == a * b - a;
    }
    Whole(n, a * b, q', r' * a + r);
  }

  lemma Scaled(a: nat, b: nat)
    requires a > 0 && b > 0
    ensures a * b > 0
  {
  }

  /** Division with remainder is unique. */
  lemma Whole(n: nat, m: nat, q: nat, r: nat)
    requires r < m && n == q * m + r
    ensures n / m == q && n % m == r
  {
    var d := n / m - q;
    assert n == n / m * m + n % m;
    assert d * m == r - n % m by {
      assert d * m == n / m * m - q * m;
    }
    if d >= 1 {
      Grows(d, 1, m);
    } else if d <= -1 {
      Grows(-1, d, m);
    }
  }

  lemma Piece(hi: nat, lo: nat, m: nat)
    requires lo < m
    ensures (m * hi + lo) / m == hi && (m * hi + lo) % m == lo
  {
    Whole(m * hi + lo, m, hi, lo);
  }

  lemma Bytes(n: nat)
    ensures Word(n / 16777216 % 256, n / 65536 % 256, n / 256 % 256, n % 256) == n % 4294967296
  {
    Pieces(n, 256, 256);
    Pieces(n, 65536, 256);
    Pieces(n, 16777216, 256);
  }

  lemma Unbytes(a: byte, b: byte, c: byte, d: byte)
    ensures var n := Word(d, c, b, a);
      n % 256 == a && n / 256 % 256 == b && n / 65536 % 256 == c && n / 16777216 % 256 == d
  {
    var n := Word(d, c, b, a);
    Piece(65536 * d + 256 * c + b, a, 256);
    Piece(256 * d + c, b, 256);
    Piece(d, c, 256);
    Pieces(n, 256, 256);
    Pieces(n, 65536, 256);
  }
}
