/**
 The built-in codes in the terms of the format: which characters have codes of
 which length, which lengths and distances the symbols stand for, and complete
 byte strings with the text that they decompress to.
 */
module DclFormat {
  import opened Basics
  import opened BitStream
  import opened Huffman
  import opened DclTables
  import opened Blast
  import opened BlastEncoding

  // ---- code lengths ----

  /** The code lengths of the control characters. */
  function ControlBits(b: byte): nat {
    match b
    case 10 | 13 => 7
    case 9 => 8
    case 0 => 11
    case 26 => 13
    case _ => 12
  }

  /** The code lengths of the space, the digits and the marks before and after them. */
  function DigitBits(b: byte): nat {
    match b
    case 32 => 4
    case 45 | 49 => 6
    case 40 | 41 | 44 | 46 | 48 | 50 | 51 | 52 | 53 | 55 | 56 | 61 => 7
    case 43 | 62 => 9
    case 33 | 36 | 38 => 10
    case 60 | 63 => 11
    case 35 | 37 | 59 => 12
    case _ => 8
  }

  /** The code lengths of the capital letters and the marks around them. */
  function CapitalBits(b: byte): nat {
    match b
    case 69 => 5
    case 65 | 67 | 68 | 73 | 76 | 78 | 79 | 82 | 83 | 84 => 6
    case 66 | 70 | 77 | 80 | 85 => 7
    case 71 | 72 | 87 | 91 | 95 => 8
    case 75 | 86 | 88 | 89 | 93 => 9
    case 64 | 94 => 12
    case _ => 11
  }

  /** The code lengths of the small letters and the marks around them. */
  function SmallBits(b: byte): nat {
    match b
    case 97 | 101 | 105 | 108 | 110 | 111 | 114 | 115 | 116 | 117 => 5
    case 107 | 119 => 7
    case 118 | 120 | 121 => 8
    case 113 | 122 => 10
    case 106 | 123 | 124 => 11
    case 96 | 125 | 126 | 127 => 12
    case _ => 6
  }

  /** The code lengths of all literals. */
  function LiteralBits(b: byte): nat {
    if b < 32 then ControlBits(b)
    else if b < 64 then DigitBits(b)
    else if b < 96 then CapitalBits(b)
    else if b < 128 then SmallBits(b)
    else if 176 <= b < 224 || b in {225, 229, 233, 238, 242, 243, 244} then 12
    else 13
  }

  /** The first symbol of run k. */
  function Start(rep: seq<byte>, k: nat): nat
    requires k <= |rep|
  {
    if k == 0 then 0 else Start(rep, k - 1) + rep[k - 1] / 16 + 1
  }

  /** How many symbols of the first k runs have length l. */
  function Held(rep: seq<byte>, k: nat, l: nat): nat
    requires k <= |rep|
  {
    if k == 0 then 0 else Held(rep, k - 1, l) + if rep[k - 1] % 16 == l then rep[k - 1] / 16 + 1 else 0
  }

  lemma {:induction false} Runs(rep: seq<byte>, k: nat, l: nat)
    requires k <= |rep|
    ensures |Expand(rep[..k])| == Start(rep, k) && Count(Expand(rep[..k]), l) == Held(rep, k, l)
  {
    if k > 0 {
      Runs(rep, k - 1, l);
      ExpandFirst(rep, k - 1);
      CountConcat(Expand(rep[..k - 1]), Repeated(rep[k - 1]), l);
      CountSame(Repeated(rep[k - 1]), rep[k - 1] % 16, l);
    }
  }

  /** Expand starts with the expansion of every prefix. */
  lemma {:induction false} ExpandPrefix(rep: seq<byte>, k: nat)
    requires k <= |rep|
    ensures Expand(rep[..k]) <= Expand(rep)
    decreases |rep| - k
  {
    if k < |rep| {
      ExpandFirst(rep, k);
      ExpandPrefix(rep, k + 1);
    } else {
      assert rep[..k] == rep;
    }
  }

  /** Symbol number j of run k. */
  lemma {:induction false} InRun(rep: seq<byte>, k: nat, j: nat)
    requires k < |rep| && j <= rep[k] / 16
    ensures var i := Start(rep, k) + j;
      i < |Expand(rep)| && Expand(rep)[i] == rep[k] % 16 &&
      Rank(Expand(rep), i) == Held(rep, k, rep[k] % 16) + j
  {
    var l, i := rep[k] % 16, Start(rep, k) + j;
    Runs(rep, k, l);
    ExpandFirst(rep, k);
    ExpandPrefix(rep, k + 1);
    var a, b := Expand(rep[..k]), Repeated(rep[k]);
    assert Expand(rep)[i] == (a + b)[i] == b[j];
    assert Expand(rep)[..i] == (a + b)[..i] == a + b[..j];
    CountConcat(a, b[..j], l);
    CountSame(b[..j], l, l);
  }

  /** The n literals starting with from all have codes of len bits. */
  predicate Same(from: nat, n: nat, len: nat) {
    forall i :: from <= i < from + n && i < 256 ==> LiteralBits(i) == len
  }

  /** From run k on, whose first symbol is at, the lengths are those of LiteralBits. */
  predicate Right(rep: seq<byte>, k: nat, at: nat)
    requires k <= |rep|
    decreases |rep| - k
  {
    k == |rep| || (Same(at, rep[k] / 16 + 1, rep[k] % 16) && Right(rep, k + 1, at + rep[k] / 16 + 1))
  }

  lemma Runs0A()
    ensures Same(0, 1, 11) && Same(1, 8, 12) && Same(9, 1, 8) && Same(10, 1, 7)
    ensures Same(11, 2, 12) && Same(13, 1, 7) && Same(14, 12, 12)
  {
  }

  lemma Runs0B()
    ensures Same(26, 1, 13) && Same(27, 5, 12) && Same(32, 1, 4) && Same(33, 1, 10)
    ensures Same(34, 1, 8) && Same(35, 1, 12) && Same(36, 1, 10)
  {
  }

  lemma Literals0()
    ensures Right(LIT0, 0, 0)
  {
    hide Same;
    Runs0A();
    Runs0B();
    assert Right(LIT0, 14, 37);
    assert Right(LIT0, 12, 35);
    assert Right(LIT0, 10, 33);
    assert Right(LIT0, 8, 27);
    assert Right(LIT0, 6, 14);
    assert Right(LIT0, 4, 11);
    assert Right(LIT0, 2, 9);
  }

  lemma Runs1A()
    ensures Same(37, 1, 12) && Same(38, 1, 10) && Same(39, 1, 8) && Same(40, 2, 7)
    ensures Same(42, 1, 8) && Same(43, 1, 9) && Same(44, 1, 7)
  {
  }

  lemma Runs1B()
    ensures Same(45, 1, 6) && Same(46, 1, 7) && Same(47, 1, 8) && Same(48, 1, 7)
    ensures Same(49, 1, 6) && Same(50, 4, 7) && Same(54, 1, 8)
  {
  }

  lemma Literals1()
    ensures Right(LIT1, 0, 37)
  {
    hide Same;
    Runs1A();
    Runs1B();
    assert Right(LIT1, 14, 55);
    assert Right(LIT1, 12, 50);
    assert Right(LIT1, 10, 48);
    assert Right(LIT1, 8, 46);
    assert Right(LIT1, 6, 44);
    assert Right(LIT1, 4, 42);
    assert Right(LIT1, 2, 39);
  }

  lemma Runs2A()
    ensures Same(55, 2, 7) && Same(57, 2, 8) && Same(59, 1, 12) && Same(60, 1, 11)
    ensures Same(61, 1, 7) && Same(62, 1, 9) && Same(63, 1, 11)
  {
  }

  lemma Runs2B()
    ensures Same(64, 1, 12) && Same(65, 1, 6) && Same(66, 1, 7) && Same(67, 2, 6)
    ensures Same(69, 1, 5) && Same(70, 1, 7) && Same(71, 2, 8)
  {
  }

  lemma Literals2()
    ensures Right(LIT2, 0, 55)
  {
    hide Same;
    Runs2A();
    Runs2B();
    assert Right(LIT2, 14, 73);
    assert Right(LIT2, 12, 70);
    assert Right(LIT2, 10, 67);
    assert Right(LIT2, 8, 65);
    assert Right(LIT2, 6, 63);
    assert Right(LIT2, 4, 61);
    assert Right(LIT2, 2, 59);
  }

  lemma Runs3A()
    ensures Same(73, 1, 6) && Same(74, 1, 11) && Same(75, 1, 9) && Same(76, 1, 6)
    ensures Same(77, 1, 7) && Same(78, 2, 6) && Same(80, 1, 7)
  {
  }

  lemma Runs3B()
    ensures Same(81, 1, 11) && Same(82, 3, 6) && Same(85, 1, 7) && Same(86, 1, 9)
    ensures Same(87, 1, 8) && Same(88, 2, 9) && Same(90, 1, 11)
  {
  }

  lemma Literals3()
    ensures Right(LIT3, 0, 73)
  {
    hide Same;
    Runs3A();
    Runs3B();
    assert Right(LIT3, 14, 91);
    assert Right(LIT3, 12, 88);
    assert Right(LIT3, 10, 86);
    assert Right(LIT3, 8, 82);
    assert Right(LIT3, 6, 80);
    assert Right(LIT3, 4, 77);
    assert Right(LIT3, 2, 75);
  }

  lemma Runs4A()
    ensures Same(91, 1, 8) && Same(92, 1, 11) && Same(93, 1, 9) && Same(94, 1, 12)
    ensures Same(95, 1, 8) && Same(96, 1, 12) && Same(97, 1, 5)
  {
  }

  lemma Runs4B()
    ensures Same(98, 3, 6) && Same(101, 1, 5) && Same(102, 3, 6) && Same(105, 1, 5)
    ensures Same(106, 1, 11) && Same(107, 1, 7) && Same(108, 1, 5)
  {
  }

  lemma Literals4()
    ensures Right(LIT4, 0, 91)
  {
    hide Same;
    Runs4A();
    Runs4B();
    assert Right(LIT4, 14, 109);
    assert Right(LIT4, 12, 107);
    assert Right(LIT4, 10, 105);
    assert Right(LIT4, 8, 101);
    assert Right(LIT4, 6, 97);
    assert Right(LIT4, 4, 95);
    assert Right(LIT4, 2, 93);
  }

  lemma Runs5A()
    ensures Same(109, 1, 6) && Same(110, 2, 5) && Same(112, 1, 6) && Same(113, 1, 10)
    ensures Same(114, 4, 5) && Same(118, 1, 8) && Same(119, 1, 7)
  {
  }

  lemma Runs5B()
    ensures Same(120, 2, 8) && Same(122, 1, 10) && Same(123, 2, 11) && Same(125, 3, 12)
    ensures Same(128, 16, 13) && Same(144, 16, 13) && Same(160, 16, 13)
  {
  }

  lemma Literals5()
    ensures Right(LIT5, 0, 109)
  {
    hide Same;
    Runs5A();
    Runs5B();
    assert Right(LIT5, 14, 176);
    assert Right(LIT5, 12, 144);
    assert Right(LIT5, 10, 125);
    assert Right(LIT5, 8, 122);
    assert Right(LIT5, 6, 119);
    assert Right(LIT5, 4, 114);
    assert Right(LIT5, 2, 112);
  }

  lemma Runs6A()
    ensures Same(176, 16, 12) && Same(192, 16, 12) && Same(208, 16, 12) && Same(224, 1, 13)
    ensures Same(225, 1, 12) && Same(226, 3, 13) && Same(229, 1, 12)
  {
  }

  lemma Runs6B()
    ensures Same(230, 3, 13) && Same(233, 1, 12) && Same(234, 4, 13) && Same(238, 1, 12)
    ensures Same(239, 3, 13) && Same(242, 3, 12) && Same(245, 11, 13)
  {
  }

  lemma Literals6()
    ensures Right(LIT6, 0, 176)
  {
    hide Same;
    Runs6A();
    Runs6B();
    assert Right(LIT6, 14, 256);
    assert Right(LIT6, 12, 242);
    assert Right(LIT6, 10, 238);
    assert Right(LIT6, 8, 233);
    assert Right(LIT6, 6, 229);
    assert Right(LIT6, 4, 225);
    assert Right(LIT6, 2, 208);
  }

  lemma {:induction false} RightExpands(rep: seq<byte>, k: nat, at: nat)
    requires k <= |rep| && Right(rep, k, at) && at + Start(rep, |rep|) - Start(rep, k) <= 256
    ensures |Expand(rep)| == Start(rep, |rep|) >= Start(rep, k)
    ensures forall i :: Start(rep, k) <= i < Start(rep, |rep|) ==> Expand(rep)[i] == LiteralBits(at + i - Start(rep, k))
    decreases |rep| - k
  {
    hide LiteralBits, Held, Expand;
    if k == |rep| {
      Runs(rep, k, 0);
      assert rep[..k] == rep;
    } else {
      RightExpands(rep, k + 1, at + rep[k] / 16 + 1);
      forall i | Start(rep, k) <= i < Start(rep, k + 1) ensures Expand(rep)[i] == LiteralBits(at + i - Start(rep, k)) {
        InRun(rep, k, i - Start(rep, k));
      }
    }
  }

  lemma {:induction false} RightConcat(a: seq<byte>, b: seq<byte>, k: nat, at: nat, mid: nat)
    requires k <= |a| && Right(a, k, at) && Right(b, 0, mid) && at + Symbols(a) == mid + Symbols(a[..k])
    ensures Right(a + b, k, at)
    decreases |a| - k
  {
    hide LiteralBits, Same;
    if k == |a| {
      assert a[..k] == a;
      RightBehind(a, b, 0, mid);
    } else {
      assert a[..k + 1][..k] == a[..k];
      RightConcat(a, b, k + 1, at + a[k] / 16 + 1, mid);
    }
  }

  lemma {:induction false} RightBehind(a: seq<byte>, b: seq<byte>, k: nat, at: nat)
    requires k <= |b| && Right(b, k, at)
    ensures Right(a + b, |a| + k, at)
    decreases |b| - k
  {
    hide Same;
    if k < |b| {
      RightBehind(a, b, k + 1, at + b[k] / 16 + 1);
    }
  }

  lemma {:induction false} StartIsSymbols(rep: seq<byte>, k: nat)
    requires k <= |rep|
    ensures Start(rep, k) == Symbols(rep[..k])
  {
    if k > 0 {
      StartIsSymbols(rep, k - 1);
      assert rep[..k][..k - 1] == rep[..k - 1];
    }
  }

  lemma SymbolsEmpty()
    ensures Symbols([]) == 0
  {
  }

  lemma TwoRows(a: seq<byte>, b: seq<byte>, mid: nat)
    requires Right(a, 0, 0) && Right(b, 0, mid) && mid == Symbols(a)
    ensures Right(a + b, 0, 0) && Symbols(a + b) == Symbols(a) + Symbols(b)
  {
    hide *;
    SymbolsEmpty();
    assert a[..0] == [];
    RightConcat(a, b, 0, 0, mid);
    MeasureConcat(a, b);
  }

  lemma LiteralRows()
    ensures Right(LITLEN, 0, 0) && Start(LITLEN, |LITLEN|) == 256 && Start(LITLEN, 0) == 0
  {
    hide Right, Symbols, Space;
    Literals0();
    Literals1();
    Literals2();
    Literals3();
    Literals4();
    Literals5();
    Literals6();
    Row0();
    Row1();
    Row2();
    Row3();
    Row4();
    Row5();
    Row6();
    TwoRows(LIT0, LIT1, 37);
    TwoRows(LIT0 + LIT1, LIT2, 55);
    TwoRows(LIT0 + LIT1 + LIT2, LIT3, 73);
    TwoRows(LIT0 + LIT1 + LIT2 + LIT3, LIT4, 91);
    TwoRows(LIT0 + LIT1 + LIT2 + LIT3 + LIT4, LIT5, 109);
    TwoRows(LIT0 + LIT1 + LIT2 + LIT3 + LIT4 + LIT5, LIT6, 176);
    assert LITLEN[..|LITLEN|] == LITLEN;
    StartIsSymbols(LITLEN, |LITLEN|);
  }

  /** The run-length list of the source gives every literal its length. */
  lemma LiteralLengths()
    ensures |LitCode()| == 256 && forall b: byte :: LitCode()[b] == LiteralBits(b)
  {
    hide Right, LiteralBits, Expand, Start;
    LiteralRows();
    RightExpands(LITLEN, 0, 0);
  }

  lemma RunStarts()
    ensures Start(LENLEN, 1) == 1 && Start(LENLEN, 2) == 4 && Start(LENLEN, 3) == 7 && Start(LENLEN, 4) == 11
    ensures Start(LENLEN, 5) == 14 && Start(LENLEN, 6) == 16 && Start(LENLEN, 0) == 0 == Start(DISTLEN, 0)
    ensures Start(DISTLEN, 1) == 1 && Start(DISTLEN, 2) == 3 && Start(DISTLEN, 3) == 7 && Start(DISTLEN, 4) == 22
    ensures Start(DISTLEN, 5) == 38 && Start(DISTLEN, 6) == 48 && Start(DISTLEN, 7) == 64
  {
  }

  /** The length symbols have 2 to 7 bits, the small symbols the fewest. */
  lemma LengthLengths(i: nat)
    requires i < 16
    ensures |LenCode()| == 16
    ensures LenCode()[i] == if i == 0 then 2 else if i < 4 then 3 else if i < 7 then 4 else if i < 11 then 5
                            else if i < 14 then 6 else 7
  {
    hide Start, Expand, Left, Verdict, Rank, Bounded;
    LenComplete();
    RunStarts();
    var k := if i == 0 then 0 else if i < 4 then 1 else if i < 7 then 2 else if i < 11 then 3 else if i < 14 then 4 else 5;
    InRun(LENLEN, k, i - Start(LENLEN, k));
  }

  /** The distance symbols have 2 to 8 bits, the small symbols the fewest. */
  lemma DistanceLengths(i: nat)
    requires i < 64
    ensures |DistCode()| == 64
    ensures DistCode()[i] == if i == 0 then 2 else if i < 3 then 4 else if i < 7 then 5 else if i < 22 then 6
                             else if i < 48 then 7 else 8
  {
    hide Start, Expand, Left, Verdict, Rank, Bounded, Held;
    DistComplete();
    RunStarts();
    if i == 0 {
      InRun(DISTLEN, 0, 0);
    } else if i < 3 {
      InRun(DISTLEN, 1, i - 1);
    } else if i < 7 {
      InRun(DISTLEN, 2, i - 3);
    } else if i < 22 {
      InRun(DISTLEN, 3, i - 7);
    } else if i < 38 {
      InRun(DISTLEN, 4, i - 22);
    } else if i < 48 {
      InRun(DISTLEN, 5, i - 38);
    } else {
      InRun(DISTLEN, 6, i - 48);
    }
  }

  // ---- lengths and distances ----

  /** Length 2 is symbol 1 and length 3 symbol 0; the symbols from 2 on tile
      the lengths from 4 to 519 in increasing order. */
  lemma LengthTiles()
    ensures |BASE| == 16 == |EXTRA| && BASE[1] == 2 && BASE[0] == 3 && BASE[2] == 4 && EXTRA[0] == 0 == EXTRA[1]
    ensures forall i :: 2 <= i < 15 ==> BASE[i + 1] == BASE[i] + Pow2(EXTRA[i])
    ensures forall i :: 2 <= i < 15 ==> EXTRA[i + 1] == if i < 7 then 0 else EXTRA[i] + 1
    ensures BASE[15] + Pow2(EXTRA[15]) - 1 == 519
  {
    SmallPowers();
    hide Pow2;
  }

  /** Symbol s with extra bits v stands for length n. */
  predicate Spells(s: nat, v: nat, n: nat) {
    s < 16 && v < Pow2(EXTRA[s]) && BASE[s] + v == n
  }

  /** Every length from 2 to 519 has one symbol and one value of extra bits,
      and above 3 the longer copy has the higher symbol. */
  lemma LengthSymbol(n: nat) returns (sym: nat, v: nat)
    requires 2 <= n <= 519
    ensures Spells(sym, v, n) && forall s, w :: Spells(s, w, n) ==> s == sym && w == v
  {
    SmallPowers();
    hide Pow2;
    sym := if n == 2 then 1 else if n == 3 then 0 else if n < 10 then n - 2 else if n < 12 then 8
           else if n < 16 then 9 else if n < 24 then 10 else if n < 40 then 11 else if n < 72 then 12
           else if n < 136 then 13 else if n < 264 then 14 else 15;
    v := n - BASE[sym];
    forall s, w | Spells(s, w, n) ensures s == sym && w == v {
      OneSymbol(s, w, sym, v, n);
    }
  }

  lemma OneSymbol(s: nat, v: nat, t: nat, w: nat, n: nat)
    requires Spells(s, v, n) && Spells(t, w, n)
    ensures s == t && v == w
  {
    SmallPowers();
    hide Pow2;
  }

  lemma LongerHigher(s: nat, v: nat, n: nat, t: nat, w: nat, m: nat)
    requires Spells(s, v, n) && Spells(t, w, m) && 3 <= n < m
    ensures s < t || (s == t && v < w)
  {
    SmallPowers();
    hide Pow2;
  }

  lemma {:induction false} ShlIsProduct(v: nat, k: nat)
    ensures Shl(v, k) == v * Pow2(k)
  {
    if k > 0 {
      ShlIsProduct(v, k - 1);
      assert v * Pow2(k) == 2 * (v * Pow2(k - 1));
    }
  }

  /** Every copy of 2 to 518 bytes from at most 64 times 2 to the number of low
      distance bits back is the meaning of exactly one legal token. */
  lemma CopyToken(n: nat, d: nat, dict: nat) returns (w: Wire)
    requires 4 <= dict <= 6 && 2 <= n <= 518 && 1 <= d <= if n == 2 then 256 else 64 * Pow2(dict)
    ensures Legal(w, dict) && Meaning(w, dict) == Copy(n, d)
    ensures forall u: Wire :: Legal(u, dict) && Meaning(u, dict) == Copy(n, d) ==> u == w
  {
    hide Shl, Pow2;
    SmallPowers();
    var sym, v := LengthSymbol(n);
    var k := if n == 2 then 2 else dict;
    var p := Pow2(k);
    Divided(d - 1, p);
    w := WireCopy(sym, v, (d - 1) / p, (d - 1) % p);
    hide Spells;
    ShlIsProduct(w.dist, k);
    forall u: Wire | Legal(u, dict) && Meaning(u, dict) == Copy(n, d) ensures u == w {
      SameLength(u, dict, n);
      ShlIsProduct(u.dist, k);
      Unique(p, u.dist, u.distBits, w.dist, w.distBits);
    }
  }

  lemma SameLength(u: Wire, dict: nat, n: nat)
    requires Legal(u, dict) && Meaning(u, dict).Copy? && Meaning(u, dict).len == n
    ensures u.WireCopy? && Spells(u.len, u.lenBits, n) && LowBits(u, dict) == (if n == 2 then 2 else dict)
    ensures Meaning(u, dict) == Copy(n, Shl(u.dist, LowBits(u, dict)) + u.distBits + 1)
  {
    hide Shl, Pow2;
  }

  lemma Divided(a: nat, p: nat)
    requires 0 < p && a < 64 * p
    ensures a == (a / p) * p + a % p && a % p < p && 0 <= a / p < 64
  {
    Below(a / p, a % p, 64, p);
  }

  lemma Below(q: nat, r: nat, n: nat, p: nat)
    requires q * p + r < n * p
    ensures q < n
  {
    if n <= q {
      TimesGrows(n, q, p);
    }
  }

  lemma TimesGrows(a: int, b: int, p: nat)
    requires a <= b
    ensures a * p <= b * p
  {
    assert (b - a) * p >= 0;
  }

  lemma Unique(p: nat, q: nat, r: nat, s: nat, t: nat)
    requires r < p && t < p && q * p + r == s * p + t
    ensures q == s && r == t
  {
    if q < s {
      TimesGrows(q + 1, s, p);
    } else if s < q {
      TimesGrows(s + 1, q, p);
    }
  }
}
