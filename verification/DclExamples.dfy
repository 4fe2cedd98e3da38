/** Complete compressed byte strings and the text that they stand for. */
module DclExamples {
  import opened Basics
  import opened BitStream
  import opened Huffman
  import opened DclTables
  import opened DclFormat
  import opened Window
  import opened Blast
  import opened BlastEncoding

  // ---- code words ----

  // How many length symbols have each number of bits.

  lemma LengthCounts()
    ensures Held(LENLEN, 6, 1) == 0 && Held(LENLEN, 6, 2) == 1 && Held(LENLEN, 6, 3) == 3
  {
  }

  lemma LongLengthCounts()
    ensures Held(LENLEN, 6, 4) == 3 && Held(LENLEN, 6, 5) == 4 && Held(LENLEN, 6, 6) == 3
  {
  }

  lemma LengthFirst()
    ensures First(LenCode(), 2) == 0 && First(LenCode(), 3) == 2 && First(LenCode(), 4) == 10
    ensures First(LenCode(), 5) == 26 && First(LenCode(), 6) == 60 && First(LenCode(), 7) == 126
  {
    hide Held, Expand, Count;
    LengthCounts();
    LongLengthCounts();
    assert LENLEN[..6] == LENLEN;
    Runs(LENLEN, 6, 1);
    Runs(LENLEN, 6, 2);
    Runs(LENLEN, 6, 3);
    Runs(LENLEN, 6, 4);
    Runs(LENLEN, 6, 5);
    Runs(LENLEN, 6, 6);
    assert First(LenCode(), 4) == 2 * (First(LenCode(), 3) + 3);
    assert First(LenCode(), 6) == 2 * (First(LenCode(), 5) + 4);
  }

  lemma LengthRanks()
    ensures Held(LENLEN, 1, 3) == 0 && Held(LENLEN, 3, 5) == 0 && Held(LENLEN, 5, 7) == 0
  {
  }

  /** Symbol i has the code c of n bits. */
  ghost predicate Word(ls: seq<nat>, i: nat, c: nat, n: nat) {
    i < |ls| && ls[i] == n && Code(ls, i) == c
  }

  /** The length codes that the examples use. */
  lemma LengthWords()
    ensures Word(LenCode(), 1, 2, 3) && Word(LenCode(), 2, 3, 3) && Word(LenCode(), 8, 27, 5) && Word(LenCode(), 15, 127, 7)
  {
    hide First, Held, Expand, Start, Rank;
    LengthFirst();
    LengthRanks();
    RunStarts();
    InRun(LENLEN, 1, 0);
    InRun(LENLEN, 1, 1);
    InRun(LENLEN, 3, 1);
    InRun(LENLEN, 5, 1);
  }

  lemma DistanceCounts()
    ensures Held(DISTLEN, 0, 2) == 0 == Start(DISTLEN, 0) && Held(DISTLEN, 7, 1) == 0
  {
  }

  lemma DistanceWord()
    ensures Word(DistCode(), 0, 0, 2)
  {
    hide Expand, Held, Start, Count;
    DistanceCounts();
    assert DISTLEN[..7] == DISTLEN;
    InRun(DISTLEN, 0, 0);
    Runs(DISTLEN, 7, 1);
    assert First(DistCode(), 2) == 0;
  }

  // ---- bit strings as numbers ----

  /** s is the number v in n bits, lowest first. */
  ghost predicate Reads(s: seq<bit>, v: int, n: nat) {
    0 <= v < Pow2(n) && s == BitsOf(v, n)
  }

  lemma Joined(s: seq<bit>, v: int, n: nat, t: seq<bit>, w: int, m: nat, x: int)
    requires Reads(s, v, n) && Reads(t, w, m) && x == v + w * Pow2(n)
    ensures Reads(s + t, x, n + m)
  {
    hide BitsOf, Pow2, Shl;
    BitsOnTop(v, n, w, m);
    ShlIsProduct(w, n);
  }

  /** A byte string as a number, first byte lowest. */
  function Number(bs: seq<byte>): nat {
    if bs == [] then 0 else bs[0] + 256 * Number(bs[1..])
  }

  lemma {:induction false} NumberBits(bs: seq<byte>)
    ensures Reads(ByteBits(bs), Number(bs), 8 * |bs|)
  {
    hide BitsOf;
    if bs == [] {
      assert BitsOf(0, 0) == [];
    } else {
      NumberBits(bs[1..]);
      assert Pow2(8) == 256;
      Joined(BitsOf(bs[0], 8), bs[0], 8, ByteBits(bs[1..]), Number(bs[1..]), 8 * |bs[1..]|, Number(bs));
    }
  }

  /** An inverted code word, read as a number. */
  function Turned(c: nat, n: nat): nat {
    if n == 0 then 0 else Turned(c / 2, n - 1) + (1 - c % 2) * Pow2(n - 1)
  }

  lemma {:induction false} TurnedReads(c: nat, n: nat)
    ensures Reads(InvertedBits(c, n), Turned(c, n), n)
  {
    if n == 0 {
      assert BitsOf(0, 0) == [];
    } else {
      TurnedReads(c / 2, n - 1);
      SingleBits();
      hide Pow2;
      Joined(InvertedBits(c / 2, n - 1), Turned(c / 2, n - 1), n - 1, [1 - c % 2], 1 - c % 2, 1, Turned(c, n));
    }
  }

  lemma LengthTurned()
    ensures Reads(InvertedBits(3, 3), 1, 3) && Reads(InvertedBits(2, 3), 5, 3) && Reads(InvertedBits(0, 2), 3, 2)
    ensures Reads(InvertedBits(27, 5), 4, 5) && Reads(InvertedBits(127, 7), 0, 7)
  {
    hide Reads, InvertedBits;
    TurnedReads(3, 3);
    TurnedReads(2, 3);
    TurnedReads(0, 2);
    LongTurned();
  }

  lemma LongTurned()
    ensures Reads(InvertedBits(27, 5), 4, 5) && Reads(InvertedBits(127, 7), 0, 7)
  {
    hide *;
    TurnedReads(27, 5);
    TurnedCode();
    TurnedReads(127, 7);
    SmallPowers();
    OnesTurned(7);
  }

  lemma TurnedCode()
    ensures Turned(27, 5) == 4
  {
    assert Turned(6, 3) == 4;
  }

  lemma {:induction false} OnesTurned(n: nat)
    ensures Turned(Pow2(n) - 1, n) == 0
  {
    hide *;
    PowerStep(n);
    if n == 0 {
      NoneTurned();
    } else {
      Odd(Pow2(n - 1));
      OnesTurned(n - 1);
      OneTurned(Pow2(n) - 1, n);
    }
  }

  lemma PowerStep(n: nat)
    ensures Pow2(n) == if n == 0 then 1 else 2 * Pow2(n - 1)
  {
  }

  lemma NoneTurned()
    ensures Turned(0, 0) == 0
  {
  }

  lemma OneTurned(c: nat, n: nat)
    requires n > 0 && c % 2 == 1
    ensures Turned(c, n) == Turned(c / 2, n - 1)
  {
    hide Pow2;
  }

  lemma Odd(p: nat)
    requires p >= 1
    ensures (2 * p - 1) / 2 == p - 1 && (2 * p - 1) % 2 == 1
  {
  }

  lemma LiteralTurned()
    ensures Reads(InvertedBits(0, 4), 15, 4) && Reads(InvertedBits(2, 5), 23, 5) && Reads(InvertedBits(3, 5), 7, 5)
  {
    hide Reads, InvertedBits;
    TurnedReads(0, 4);
    TurnedReads(2, 5);
    TurnedReads(3, 5);
  }

  lemma SingleBits()
    ensures Reads([0], 0, 1) && Reads([1], 1, 1)
  {
  }

  lemma WordBits(ls: seq<nat>, i: nat, c: nat, n: nat)
    requires Word(ls, i, c, n)
    ensures i < |ls| && CodeBits(ls, i) == InvertedBits(c, n)
  {
    hide InvertedBits, Code;
  }

  lemma FieldReads(v: nat, n: nat)
    requires v < Pow2(n)
    ensures Reads(BitsOf(v, n), v, n)
  {
    hide BitsOf, Pow2;
  }

  lemma EndReads()
    ensures Reads(EndCode(), 0xff01, 16)
  {
    hide First, Held, Expand, Start, Rank, LenCode, BitsOf, Pow2, InvertedBits, Reads, Word;
    CodeSizes();
    LengthWords();
    WordBits(LenCode(), 15, 127, 7);
    LengthTurned();
    SingleBits();
    SmallPowers();
    FieldReads(255, 8);
    Joined(CodeBits(LenCode(), 15), 0, 7, BitsOf(255, 8), 255, 8, 255 * 128);
    Joined([1], 1, 1, CodeBits(LenCode(), 15) + BitsOf(255, 8), 255 * 128, 15, 0xff01);
  }

  ghost predicate CopyOf(w: Wire, dict: nat, len: nat, v: nat, e: nat, u: nat, k: nat) {
    w == WireCopy(len, v, 0, u) && Legal(w, dict) && EXTRA[len] == e && LowBits(w, dict) == k
  }

  /** A copy with distance symbol 0 as a number: length word, extra bits,
      distance word, low distance bits. */
  lemma CopyReads(w: Wire, lit: bool, dict: nat, len: nat, v: nat, e: nat, u: nat, k: nat, c: nat, n: nat, a: nat, y: int, z: int)
    requires CopyOf(w, dict, len, v, e, u, k) && Word(LenCode(), len, c, n) && Reads(InvertedBits(c, n), a, n)
    requires y == v + (3 + 4 * u) * Pow2(e) && z == a + y * Pow2(n)
    ensures CopyOf(w, dict, len, v, e, u, k) && Legal(w, dict) && Reads(Written(w, lit, dict), 1 + 2 * z, 1 + (n + (e + (2 + k))))
  {
    hide LenCode, DistCode, BitsOf, InvertedBits, Reads, Word, Pow2, CopyOf;
    CopyOfParts(w, lit, dict, len, v, e, u, k);
    WordBits(LenCode(), len, c, n);
    DistanceWord();
    WordBits(DistCode(), 0, 0, 2);
    LengthTurned();
    Nested(CodeBits(LenCode(), len), a, n, BitsOf(v, e), v, e, CodeBits(DistCode(), 0), BitsOf(u, k), u, k, y, z);
  }

  lemma Nested(l: seq<bit>, a: nat, n: nat, s: seq<bit>, v: nat, e: nat, d: seq<bit>, t: seq<bit>, u: nat, k: nat, y: int, z: int)
    requires Reads(l, a, n) && Reads(s, v, e) && Reads(d, 3, 2) && Reads(t, u, k)
    requires y == v + (3 + 4 * u) * Pow2(e) && z == a + y * Pow2(n)
    ensures Reads([1] + (l + (s + (d + t))), 1 + 2 * z, 1 + (n + (e + (2 + k))))
  {
    hide Reads, Pow2;
    SingleBits();
    SmallPowers();
    Joined(d, 3, 2, t, u, k, 3 + 4 * u);
    Joined(s, v, e, d + t, 3 + 4 * u, 2 + k, y);
    Joined(l, a, n, s + (d + t), y, e + (2 + k), z);
    Joined([1], 1, 1, l + (s + (d + t)), z, n + (e + (2 + k)), 1 + 2 * z);
  }

  lemma CopyOfParts(w: Wire, lit: bool, dict: nat, len: nat, v: nat, e: nat, u: nat, k: nat)
    requires CopyOf(w, dict, len, v, e, u, k)
    ensures Legal(w, dict) && |LenCode()| == 16 && |DistCode()| == 64 && len < 16
    ensures Reads(BitsOf(v, e), v, e) && Reads(BitsOf(u, k), u, k)
    ensures Written(w, lit, dict) ==
            [1] + (CodeBits(LenCode(), len) + (BitsOf(v, e) + (CodeBits(DistCode(), 0) + BitsOf(u, k))))
  {
    hide LenCode, DistCode, LitCode, BitsOf, Pow2;
    CodeSizes();
  }

  lemma PlainReads(b: byte, dict: nat)
    ensures Reads(Written(WireLiteral(b), false, dict), b * 2, 9)
  {
    hide BitsOf, Reads, Pow2;
    SingleBits();
    SmallPowers();
    FieldReads(b, 8);
    Joined([0], 0, 1, BitsOf(b, 8), b, 8, b * 2);
  }

  lemma CodedReads(b: byte, dict: nat, c: nat, n: nat, a: nat)
    requires Word(LitCode(), b, c, n) && Reads(InvertedBits(c, n), a, n)
    ensures Reads(Written(WireLiteral(b), true, dict), a * 2, 1 + n)
  {
    hide BitsOf, Reads, Pow2, LitCode, InvertedBits, Word;
    CodeSizes();
    WordBits(LitCode(), b, c, n);
    SingleBits();
    SmallPowers();
    Joined([0], 0, 1, CodeBits(LitCode(), b), a, n, a * 2);
  }

  /** The token list ws is written as the number v in n bits. */
  ghost predicate Tokens(ws: seq<Wire>, lit: bool, dict: nat, v: int, n: nat) {
    AllLegal(ws, dict) && Reads(WrittenAll(ws, lit, dict), v, n)
  }

  lemma NoToken(lit: bool, dict: nat)
    ensures Tokens([], lit, dict, 0xff01, 16)
  {
    hide EndCode, Reads;
    EndReads();
  }

  /** One more token before the others. */
  lemma OneMore(w: Wire, ws: seq<Wire>, lit: bool, dict: nat, v: int, n: nat, y: int, m: nat, x: int)
    requires Legal(w, dict) && Reads(Written(w, lit, dict), v, n) && Tokens(ws, lit, dict, y, m)
    requires x == v + y * Pow2(n)
    ensures Tokens([w] + ws, lit, dict, x, n + m)
  {
    hide Reads, Written, Legal, Pow2;
    Joined(Written(w, lit, dict), v, n, WrittenAll(ws, lit, dict), y, m, x);
    assert ([w] + ws)[1..] == ws;
  }

  /** The bytes of a stream: the two header bytes, the tokens and zero bits up
      to a whole byte. */
  lemma StreamBytes(ws: seq<Wire>, lit: bool, dict: nat, v: int, n: nat, bs: seq<byte>)
    requires 4 <= dict <= 6 && Tokens(ws, lit, dict, v, n)
    requires Number(bs) == (if lit then 1 else 0) + (dict + v * 256) * 256 && 16 + n <= 8 * |bs|
    ensures AllLegal(ws, dict) && ByteBits(bs) == Stream(ws, lit, dict) + BitsOf(0, 8 * |bs| - (16 + n))
  {
    hide Reads, BitsOf, WrittenAll, Pow2, Number, Stream, AllLegal, ByteBits;
    SmallPowers();
    var l, k := if lit then 1 else 0, 8 * |bs| - (16 + n);
    FieldReads(l, 8);
    FieldReads(dict, 8);
    FieldReads(0, k);
    var s := BitsOf(dict, 8) + WrittenAll(ws, lit, dict);
    Joined(BitsOf(dict, 8), dict, 8, WrittenAll(ws, lit, dict), v, n, dict + v * 256);
    Joined(BitsOf(l, 8), l, 8, s, dict + v * 256, 8 + n, Number(bs));
    StreamParts(ws, lit, dict);
    Joined(Stream(ws, lit, dict), Number(bs), 16 + n, BitsOf(0, k), 0, k, Number(bs));
    NumberBits(bs);
    SameReads(ByteBits(bs), Stream(ws, lit, dict) + BitsOf(0, k), Number(bs), 8 * |bs|);
  }

  lemma StreamParts(ws: seq<Wire>, lit: bool, dict: nat)
    requires AllLegal(ws, dict)
    ensures Stream(ws, lit, dict) == BitsOf(if lit then 1 else 0, 8) + (BitsOf(dict, 8) + WrittenAll(ws, lit, dict))
  {
  }

  lemma SameReads(s: seq<bit>, t: seq<bit>, v: nat, n: nat)
    requires Reads(s, v, n) && Reads(t, v, n)
    ensures s == t
  {
  }

  // ---- byte strings as numbers ----

  lemma NumberOf(b: byte, bs: seq<byte>)
    ensures Number([b] + bs) == b + 256 * Number(bs)
  {
    assert ([b] + bs)[1..] == bs;
  }

  lemma FourBytes(d: byte, e: byte, f: byte, g: byte)
    ensures Number([d, e, f, g]) == d + 256 * (e + 256 * (f + 256 * g))
  {
    assert Number([g]) == g;
    hide Number;
    NumberOf(f, [g]);
    NumberOf(e, [f, g]);
    NumberOf(d, [e, f, g]);
    assert [f] + [g] == [f, g] && [e] + [f, g] == [e, f, g] && [d] + [e, f, g] == [d, e, f, g];
  }

  lemma SevenBytes(a: byte, b: byte, c: byte, d: byte, e: byte, f: byte, g: byte)
    ensures Number([a, b, c, d, e, f, g]) == a + 256 * (b + 256 * (c + 256 * (d + 256 * (e + 256 * (f + 256 * g)))))
  {
    hide Number;
    FourBytes(d, e, f, g);
    NumberOf(c, [d, e, f, g]);
    NumberOf(b, [c, d, e, f, g]);
    NumberOf(a, [b, c, d, e, f, g]);
    assert [c] + [d, e, f, g] == [c, d, e, f, g] && [b] + [c, d, e, f, g] == [b, c, d, e, f, g];
    assert [a] + [b, c, d, e, f, g] == [a, b, c, d, e, f, g];
  }

  lemma EightBytes(a: byte, b: byte, c: byte, d: byte, e: byte, f: byte, g: byte, h: byte)
    ensures Number([a, b, c, d, e, f, g, h]) ==
            a + 256 * (b + 256 * (c + 256 * (d + 256 * (e + 256 * (f + 256 * (g + 256 * h))))))
  {
    hide Number;
    SevenBytes(b, c, d, e, f, g, h);
    NumberOf(a, [b, c, d, e, f, g, h]);
    assert [a] + [b, c, d, e, f, g, h] == [a, b, c, d, e, f, g, h];
  }

  // ---- the examples ----

  lemma TokenPowers()
    ensures Pow2(0) == 1 && Pow2(1) == 2 && Pow2(2) == 4 && Pow2(3) == 8 && Pow2(4) == 16 && Pow2(5) == 32 && Pow2(6) == 64
    ensures Pow2(8) == 256 && Pow2(9) == 512 && Pow2(10) == 1024 && Pow2(13) == 8192
  {
    SmallPowers();
    assert Pow2(11) == 2 * Pow2(10);
  }

  lemma AiTokens()
    ensures Tokens([WireLiteral(65)] + ([WireLiteral(73)] + ([WireCopy(8, 1, 0, 1)] + [])), false, 4, 0x7f808f252482, 47)
  {
    hide Reads, Tokens, Word, LenCode, InvertedBits, Written, Pow2;
    TokenPowers();
    LengthWords();
    LengthTurned();
    NoToken(false, 4);
    var c := WireCopy(8, 1, 0, 1);
    CopyReads(c, false, 4, 8, 1, 1, 1, 4, 27, 5, 4, 15, 484);
    OneMore(c, [], false, 4, 969, 13, 0xff01, 16, 0x1fe023c9);
    PlainReads(73, 4);
    OneMore(WireLiteral(73), [c] + [], false, 4, 146, 9, 0x1fe023c9, 29, 0x3fc0479292);
    PlainReads(65, 4);
    OneMore(WireLiteral(65), [WireLiteral(73)] + ([c] + []), false, 4, 130, 9, 0x3fc0479292, 38, 0x7f808f252482);
  }

  /** Tokens that spell out r after h. */
  ghost predicate Plays(ws: seq<Wire>, dict: nat, h: seq<byte>, r: seq<byte>) {
    AllLegal(ws, dict) && InReach(ws, dict, h) && Played(ws, dict, h) == r
  }

  lemma PlaysNone(dict: nat, h: seq<byte>)
    ensures Plays([], dict, h, h)
  {
  }

  lemma PlaysLiteral(b: byte, ws: seq<Wire>, dict: nat, h: seq<byte>, r: seq<byte>)
    requires Plays(ws, dict, h + [b], r)
    ensures Plays([WireLiteral(b)] + ws, dict, h, r)
  {
    assert ([WireLiteral(b)] + ws)[1..] == ws;
  }

  /** Distance symbol 0: the low bits alone are the distance less one. */
  lemma NearCopy(len: nat, v: nat, u: nat, dict: nat, n: nat)
    requires len < 16 && v < Pow2(EXTRA[len]) && BASE[len] + v == n != 519 && u < Pow2(if n == 2 then 2 else dict)
    ensures Legal(WireCopy(len, v, 0, u), dict) && Meaning(WireCopy(len, v, 0, u), dict) == Copy(n, u + 1)
  {
    hide Pow2, Shl;
    ShlIsProduct(0, if n == 2 then 2 else dict);
  }

  lemma PlaysCopy(w: Wire, n: nat, d: nat, ws: seq<Wire>, dict: nat, h: seq<byte>, g: seq<byte>, r: seq<byte>)
    requires Legal(w, dict) && Meaning(w, dict) == Copy(n, d) && 1 <= d <= |h|
    requires |g| == |h| + n && h <= g && Repeats(g, |h|, d) && Plays(ws, dict, g, r)
    ensures Plays([w] + ws, dict, h, r)
  {
    hide Legal, Meaning, Copied, Repeats;
    CopiedIs(h, d, n, g);
    assert ([w] + ws)[1..] == ws;
  }

  lemma Alternates(r: seq<byte>)
    requires r == [65, 73, 65, 73, 65, 73, 65, 73, 65, 73, 65, 73, 65]
    ensures |r| == 13 && [65, 73] <= r && Repeats(r, 2, 2)
  {
  }

  lemma AiPlays()
    ensures Plays([WireLiteral(65)] + ([WireLiteral(73)] + ([WireCopy(8, 1, 0, 1)] + [])), 4, [],
                  [65, 73, 65, 73, 65, 73, 65, 73, 65, 73, 65, 73, 65])
  {
    var r := [65, 73, 65, 73, 65, 73, 65, 73, 65, 73, 65, 73, 65];
    var c := WireCopy(8, 1, 0, 1);
    SmallPowers();
    hide Pow2, Plays, Legal, Meaning, Repeats;
    Alternates(r);
    PlaysNone(4, r);
    NearCopy(8, 1, 1, 4, 11);
    PlaysCopy(c, 11, 2, [], 4, [65, 73], r, r);
    assert [] + [65] == [65] && [65] + [73] == [65, 73];
    PlaysLiteral(73, [c] + [], 4, [65], r);
    PlaysLiteral(65, [WireLiteral(73)] + ([c] + []), 4, [], r);
  }

  /** The example of the source: "AIAIAIAIAIAIA". */
  lemma AiExample()
    ensures Decompressed(ByteBits([0x00, 0x04, 0x82, 0x24, 0x25, 0x8f, 0x80, 0x7f])) ==
            Result(0, [65, 73, 65, 73, 65, 73, 65, 73, 65, 73, 65, 73, 65])
  {
    var bs := [0x00, 0x04, 0x82, 0x24, 0x25, 0x8f, 0x80, 0x7f];
    var ws := [WireLiteral(65)] + ([WireLiteral(73)] + ([WireCopy(8, 1, 0, 1)] + []));
    AiTokens();
    AiPlays();
    EightBytes(0x00, 0x04, 0x82, 0x24, 0x25, 0x8f, 0x80, 0x7f);
    hide *;
    Example(ws, false, 4, 0x7f808f252482, 47, bs, [65, 73, 65, 73, 65, 73, 65, 73, 65, 73, 65, 73, 65]);
  }

  lemma Example(ws: seq<Wire>, lit: bool, dict: nat, v: int, n: nat, bs: seq<byte>, r: seq<byte>)
    requires 4 <= dict <= 6 && Tokens(ws, lit, dict, v, n) && Plays(ws, dict, [], r)
    requires Number(bs) == (if lit then 1 else 0) + (dict + v * 256) * 256 && 16 + n <= 8 * |bs|
    ensures Decompressed(ByteBits(bs)) == Result(0, r)
  {
    hide Tokens, ByteBits, Decompressed, Stream, BitsOf, Number;
    StreamBytes(ws, lit, dict, v, n, bs);
    DecompressedBack(ws, lit, dict, BitsOf(0, 8 * |bs| - (16 + n)));
  }

  lemma FiveTokens()
    ensures Tokens([WireLiteral(97)] + ([WireCopy(2, 0, 0, 0)] + []), false, 4, 0x7f80866c2, 35)
  {
    hide Reads, Tokens, Word, LenCode, InvertedBits, Written, Pow2;
    TokenPowers();
    LengthWords();
    LengthTurned();
    NoToken(false, 4);
    var c := WireCopy(2, 0, 0, 0);
    CopyReads(c, false, 4, 2, 0, 0, 0, 4, 3, 3, 1, 3, 25);
    OneMore(c, [], false, 4, 51, 10, 0xff01, 16, 0x3fc0433);
    PlainReads(97, 4);
    OneMore(WireLiteral(97), [c] + [], false, 4, 194, 9, 0x3fc0433, 26, 0x7f80866c2);
  }

  lemma Ones(r: seq<byte>)
    requires r == [97, 97, 97, 97, 97]
    ensures |r| == 5 && [97] <= r && [] + [97] == [97] && Repeats(r, 1, 1)
  {
  }

  lemma FivePlays()
    ensures Plays([WireLiteral(97)] + ([WireCopy(2, 0, 0, 0)] + []), 4, [], [97, 97, 97, 97, 97])
  {
    var r := [97, 97, 97, 97, 97];
    var c := WireCopy(2, 0, 0, 0);
    SmallPowers();
    hide Pow2, Plays, Legal, Meaning, Repeats;
    Ones(r);
    PlaysNone(4, r);
    NearCopy(2, 0, 0, 4, 4);
    PlaysCopy(c, 4, 1, [], 4, [97], r, r);
    PlaysLiteral(97, [c] + [], 4, [], r);
  }

  /** One letter and a copy of length 4 over its own output: "aaaaa". */
  lemma FiveExample()
    ensures Decompressed(ByteBits([0x00, 0x04, 0xc2, 0x66, 0x08, 0xf8, 0x07])) == Result(0, [97, 97, 97, 97, 97])
  {
    var bs := [0x00, 0x04, 0xc2, 0x66, 0x08, 0xf8, 0x07];
    FiveTokens();
    FivePlays();
    SevenBytes(0x00, 0x04, 0xc2, 0x66, 0x08, 0xf8, 0x07);
    hide *;
    Example([WireLiteral(97)] + ([WireCopy(2, 0, 0, 0)] + []), false, 4, 0x7f80866c2, 35, bs, [97, 97, 97, 97, 97]);
  }

  lemma {:induction false} CountOnly(ls: seq<nat>, l: nat, j: nat)
    requires forall i :: 0 <= i < |ls| && ls[i] == l ==> i == j
    ensures Count(ls, l) == if j < |ls| && ls[j] == l then 1 else 0
  {
    if ls != [] {
      CountOnly(ls[..|ls| - 1], l, j);
    }
  }

  /** The space has the shortest literal code, E and a the first two of the next length. */
  lemma LiteralWords()
    ensures Word(LitCode(), 32, 0, 4) && Word(LitCode(), 69, 2, 5) && Word(LitCode(), 97, 3, 5)
  {
    hide LitCode, Count, First;
    LiteralLengths();
    var ls := LitCode();
    CountOnly(ls, 1, 0);
    CountOnly(ls, 2, 0);
    CountOnly(ls, 3, 0);
    CountOnly(ls, 4, 32);
    CountOnly(ls[..32], 4, 32);
    CountOnly(ls[..69], 5, 69);
    CountOnly(ls[..97], 5, 69);
    FirstFive(ls);
  }

  lemma FirstFive(ls: seq<nat>)
    requires Count(ls, 1) == 0 && Count(ls, 2) == 0 && Count(ls, 3) == 0 && Count(ls, 4) == 1
    ensures First(ls, 4) == 0 && First(ls, 5) == 2
  {
    hide Count;
    assert First(ls, 2) == 0;
  }

  lemma CodedTokens()
    ensures Tokens([WireLiteral(69)] + ([WireLiteral(97)] + ([WireLiteral(32)] + ([WireCopy(1, 0, 0, 2)] + []))), true, 6,
                   0x1fe0377e3ae, 41)
  {
    hide Reads, Tokens, Word, LenCode, LitCode, InvertedBits, Written, Pow2;
    TokenPowers();
    LengthWords();
    LiteralWords();
    LengthTurned();
    LiteralTurned();
    NoToken(true, 6);
    var c := WireCopy(1, 0, 0, 2);
    CopyReads(c, true, 6, 1, 0, 0, 2, 2, 2, 3, 5, 11, 93);
    OneMore(c, [], true, 6, 187, 8, 0xff01, 16, 0xff01bb);
    CodedReads(32, 6, 0, 4, 15);
    OneMore(WireLiteral(32), [c] + [], true, 6, 30, 5, 0xff01bb, 24, 0x1fe0377e);
    CodedReads(97, 6, 3, 5, 7);
    OneMore(WireLiteral(97), [WireLiteral(32)] + ([c] + []), true, 6, 14, 6, 0x1fe0377e, 29, 0x7f80ddf8e);
    CodedReads(69, 6, 2, 5, 23);
    OneMore(WireLiteral(69), [WireLiteral(97)] + ([WireLiteral(32)] + ([c] + [])), true, 6, 46, 6, 0x7f80ddf8e, 35,
            0x1fe0377e3ae);
  }

  lemma Threes(r: seq<byte>)
    requires r == [69, 97, 32, 69, 97]
    ensures |r| == 5 && [69, 97, 32] <= r && Repeats(r, 3, 3)
    ensures [] + [69] == [69] && [69] + [97] == [69, 97] && [69, 97] + [32] == [69, 97, 32]
  {
  }

  lemma CodedPlays()
    ensures Plays([WireLiteral(69)] + ([WireLiteral(97)] + ([WireLiteral(32)] + ([WireCopy(1, 0, 0, 2)] + []))), 6, [],
                  [69, 97, 32, 69, 97])
  {
    var r := [69, 97, 32, 69, 97];
    var c := WireCopy(1, 0, 0, 2);
    SmallPowers();
    hide Pow2, Plays, Legal, Meaning, Repeats;
    Threes(r);
    PlaysNone(6, r);
    NearCopy(1, 0, 2, 6, 2);
    PlaysCopy(c, 2, 3, [], 6, [69, 97, 32], r, r);
    PlaysLiteral(32, [c] + [], 6, [69, 97], r);
    PlaysLiteral(97, [WireLiteral(32)] + ([c] + []), 6, [69], r);
    PlaysLiteral(69, [WireLiteral(97)] + ([WireLiteral(32)] + ([c] + [])), 6, [], r);
  }

  /** Coded literals and a copy of length 2, which has two low distance bits
      whatever the header says: "Ea Ea". */
  lemma CodedExample()
    ensures Decompressed(ByteBits([0x01, 0x06, 0xae, 0xe3, 0x77, 0x03, 0xfe, 0x01])) == Result(0, [69, 97, 32, 69, 97])
  {
    var bs := [0x01, 0x06, 0xae, 0xe3, 0x77, 0x03, 0xfe, 0x01];
    CodedTokens();
    CodedPlays();
    EightBytes(0x01, 0x06, 0xae, 0xe3, 0x77, 0x03, 0xfe, 0x01);
    hide *;
    Example([WireLiteral(69)] + ([WireLiteral(97)] + ([WireLiteral(32)] + ([WireCopy(1, 0, 0, 2)] + []))), true, 6,
            0x1fe0377e3ae, 41, bs, [69, 97, 32, 69, 97]);
  }
}
