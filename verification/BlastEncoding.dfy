/**
 What a compressed stream is for: the bits of a token list, written with the
 canonical codes, decompress to the bytes that the tokens spell out.
 */
module BlastEncoding {
  import opened Basics
  import opened BitStream
  import opened Huffman
  import opened DclTables
  import opened Window
  import opened Blast

  /** n inverted bits of c, most significant first. */
  ghost function InvertedBits(c: nat, n: nat): (s: seq<bit>)
    ensures |s| == n
  {
    if n == 0 then [] else InvertedBits(c / 2, n - 1) + [1 - c % 2]
  }

  lemma {:induction false} InvertedRoundTrip(c: nat, n: nat)
    requires c < Pow2(n)
    ensures Inverted(InvertedBits(c, n), n) == c
  {
    if n > 0 {
      InvertedRoundTrip(c / 2, n - 1);
      InvertedPrefix(InvertedBits(c / 2, n - 1), [1 - c % 2], n - 1);
    }
  }

  lemma {:induction false} InvertedPrefix(s: seq<bit>, t: seq<bit>, l: nat)
    requires l <= |s|
    ensures Inverted(s + t, l) == Inverted(s, l)
  {
    if l > 0 {
      InvertedPrefix(s, t, l - 1);
    }
  }

  ghost function CodeBits(ls: seq<nat>, i: nat): seq<bit>
    requires i < |ls|
  {
    InvertedBits(Code(ls, i), ls[i])
  }

  /** The decoder's view of one encoded symbol. */
  lemma {:induction false} CodeMatches(ls: seq<nat>, i: nat, rest: seq<bit>)
    requires i < |ls| && 0 < ls[i] <= MAXBITS && Left(ls, MAXBITS) == 0
    ensures SymbolOf(ls, CodeBits(ls, i) + rest) == Some(i)
    ensures (CodeBits(ls, i) + rest)[ls[i]..] == rest
  {
    RankBelowCount(ls, i);
    LeftIsRoom(ls, ls[i]);
    CheckIsLeft(ls, ls[i]);
    InvertedRoundTrip(Code(ls, i), ls[i]);
    InvertedPrefix(CodeBits(ls, i), rest, ls[i]);
    SymbolIs(ls, i, CodeBits(ls, i) + rest);
  }

  /** Tokens as they are written: a length symbol with its extra bits, a
      distance symbol with its low bits. */
  datatype Wire = WireLiteral(b: byte) | WireCopy(len: nat, lenBits: nat, dist: nat, distBits: nat)

  ghost function Length(w: Wire): nat
    requires w.WireCopy? && w.len < 16
  {
    BASE[w.len] + w.lenBits
  }

  ghost function LowBits(w: Wire, dict: nat): nat
    requires w.WireCopy? && w.len < 16
  {
    if Length(w) == 2 then 2 else dict
  }

  ghost predicate Legal(w: Wire, dict: nat) {
    w.WireCopy? ==>
      && w.len < 16 && w.dist < 64 && w.lenBits < Pow2(EXTRA[w.len]) && Length(w) != 519
      && w.distBits < Pow2(LowBits(w, dict))
  }

  ghost function Meaning(w: Wire, dict: nat): (t: Token)
    requires Legal(w, dict)
    ensures t.Literal? || (t.Copy? && t.dist >= 1)
  {
    match w
    case WireLiteral(b) => Literal(b)
    case WireCopy(_, _, dist, distBits) => Copy(Length(w), Shl(dist, LowBits(w, dict)) + distBits + 1)
  }

  lemma CodeSizes()
    ensures |LitCode()| == 256 && |LenCode()| == 16 && |DistCode()| == 64
  {
    hide *;
    LitComplete();
    LenComplete();
    DistComplete();
  }

  ghost function Written(w: Wire, lit: bool, dict: nat): seq<bit>
    requires Legal(w, dict)
  {
    match w
    case WireLiteral(b) => [0] + (if lit then CodeSizes(); CodeBits(LitCode(), b) else BitsOf(b, 8))
    case WireCopy(len, lenBits, dist, distBits) =>
      CodeSizes();
      [1] + (CodeBits(LenCode(), len) + (BitsOf(lenBits, EXTRA[len]) +
        (CodeBits(DistCode(), dist) + BitsOf(distBits, LowBits(w, dict)))))
  }

  lemma ReadValue(v: nat, n: nat, rest: seq<bit>)
    requires v < Pow2(n)
    ensures (BitsOf(v, n) + rest)[..n] == BitsOf(v, n) && (BitsOf(v, n) + rest)[n..] == rest
    ensures Value(BitsOf(v, n)) == v
  {
    ValueOfBits(v, n);
  }

  lemma {:induction false} ValueOfBits(v: nat, n: nat)
    requires v < Pow2(n)
    ensures Value(BitsOf(v, n)) == v
  {
    if n > 0 {
      ValueOfBits(v / 2, n - 1);
      assert BitsOf(v, n)[1..] == BitsOf(v / 2, n - 1);
    }
  }

  lemma ReadDistanceBack(w: Wire, dict: nat, rest: seq<bit>)
    requires w.WireCopy? && Legal(w, dict) && dict <= 6 && 2 <= Length(w)
    ensures |DistCode()| == 64
    ensures var k := LowBits(w, dict);
      ReadDistance(CodeBits(DistCode(), w.dist) + (BitsOf(w.distBits, k) + rest), k, Length(w)) ==
      (Meaning(w, dict), rest)
  {
    hide SymbolOf, CodeBits, BitsOf, Value, Expand, Left, Verdict, Count, Pow2;
    DistComplete();
    var k := LowBits(w, dict);
    CodeMatches(DistCode(), w.dist, BitsOf(w.distBits, k) + rest);
    ReadValue(w.distBits, k, rest);
  }

  lemma ReadCopyBack(w: Wire, dict: nat, rest: seq<bit>)
    requires w.WireCopy? && Legal(w, dict) && dict <= 6
    ensures |LenCode()| == 16 && |DistCode()| == 64
    ensures var k := LowBits(w, dict);
      ReadCopy(CodeBits(LenCode(), w.len) + (BitsOf(w.lenBits, EXTRA[w.len]) +
        (CodeBits(DistCode(), w.dist) + (BitsOf(w.distBits, k) + rest))), dict) == (Meaning(w, dict), rest)
  {
    hide ReadDistance, SymbolOf, CodeBits, BitsOf, Value, Expand, LenCode, DistCode, LitCode, Meaning, Left;
    hide Verdict, Count;
    LenComplete();
    DistComplete();
    var k := LowBits(w, dict);
    var t := CodeBits(DistCode(), w.dist) + (BitsOf(w.distBits, k) + rest);
    CodeMatches(LenCode(), w.len, BitsOf(w.lenBits, EXTRA[w.len]) + t);
    ReadValue(w.lenBits, EXTRA[w.len], t);
    CopyLength(w.len, BitsOf(w.lenBits, EXTRA[w.len]));
    ReadDistanceBack(w, dict, rest);
  }

  lemma ReadLiteralBack(b: byte, lit: bool, rest: seq<bit>)
    ensures |LitCode()| == 256
    ensures ReadLiteral((if lit then CodeBits(LitCode(), b) else BitsOf(b, 8)) + rest, lit) == (Literal(b), rest)
  {
    LitComplete();
    if lit {
      CodeMatches(LitCode(), b, rest);
    } else {
      assert Pow2(8) == 256;
      ReadValue(b, 8, rest);
    }
  }

  lemma Regroup(a: seq<bit>, b: seq<bit>, c: seq<bit>, d: seq<bit>, rest: seq<bit>)
    ensures ([1] + (a + (b + (c + d)))) + rest == [1] + (a + (b + (c + (d + rest))))
  {
  }

  /** One token read back. */
  lemma ReadBack(w: Wire, lit: bool, dict: nat, rest: seq<bit>)
    requires Legal(w, dict) && dict <= 6
    ensures ReadToken(Written(w, lit, dict) + rest, lit, dict) == (Meaning(w, dict), rest)
  {
    hide ReadLiteral, ReadCopy, CodeBits, BitsOf, Expand, LenCode, DistCode, LitCode;
    var s := Written(w, lit, dict) + rest;
    if w.WireLiteral? {
      ReadLiteralBack(w.b, lit, rest);
      assert s[1..] == (if lit then CodeBits(LitCode(), w.b) else BitsOf(w.b, 8)) + rest;
    } else {
      ReadCopyBack(w, dict, rest);
      var k := LowBits(w, dict);
      var a, b := CodeBits(LenCode(), w.len), BitsOf(w.lenBits, EXTRA[w.len]);
      var c, d := CodeBits(DistCode(), w.dist), BitsOf(w.distBits, k);
      Regroup(a, b, c, d, rest);
      assert s[1..] == a + (b + (c + (d + rest)));
    }
  }

  // ---- whole streams ----

  ghost predicate AllLegal(ws: seq<Wire>, dict: nat) {
    forall i :: 0 <= i < |ws| ==> Legal(ws[i], dict)
  }

  /** No distance reaches before the start of the output. */
  ghost predicate InReach(ws: seq<Wire>, dict: nat, h: seq<byte>)
    requires AllLegal(ws, dict)
    decreases |ws|
  {
    ws == [] ||
    var t := Meaning(ws[0], dict);
    (t.Copy? ==> t.dist <= |h|) && InReach(ws[1..], dict, Applied(t, h))
  }

  /** The bytes that the tokens spell out after h. */
  ghost function Played(ws: seq<Wire>, dict: nat, h: seq<byte>): seq<byte>
    requires AllLegal(ws, dict) && InReach(ws, dict, h)
    decreases |ws|
  {
    if ws == [] then h else Played(ws[1..], dict, Applied(Meaning(ws[0], dict), h))
  }

  ghost function WrittenAll(ws: seq<Wire>, lit: bool, dict: nat): seq<bit>
    requires AllLegal(ws, dict)
    decreases |ws|
  {
    if ws == [] then EndCode() else Written(ws[0], lit, dict) + WrittenAll(ws[1..], lit, dict)
  }

  /** Length symbol 15 with all extra bits set: length 519. */
  ghost function EndCode(): seq<bit> {
    CodeSizes();
    [1] + (CodeBits(LenCode(), 15) + BitsOf(255, 8))
  }

  lemma ReadEnd(lit: bool, dict: nat, rest: seq<bit>)
    requires dict <= 6
    ensures ReadToken(EndCode() + rest, lit, dict) == (End, rest)
  {
    hide ReadLiteral, CodeBits, BitsOf, Expand, LenCode, DistCode, LitCode, ReadDistance, ReadCopy, Value, Left, Verdict, Count, Pow2;
    LenComplete();
    SmallPowers();
    var t := CodeBits(LenCode(), 15) + (BitsOf(255, 8) + rest);
    assert (EndCode() + rest)[1..] == t;
    CodeMatches(LenCode(), 15, BitsOf(255, 8) + rest);
    ReadValue(255, 8, rest);
    CopyParts(t, dict);
  }

  /** Decompression inverts writing for every legal token list. */
  lemma {:induction false} ExpandedBack(ws: seq<Wire>, lit: bool, dict: nat, h: seq<byte>, rest: seq<bit>)
    requires dict <= 6 && AllLegal(ws, dict) && InReach(ws, dict, h)
    ensures Expanded(WrittenAll(ws, lit, dict) + rest, lit, dict, h) == Result(0, Played(ws, dict, h))
    decreases |ws|
  {
    hide ReadToken, Written, Meaning, Applied, EndCode;
    if ws == [] {
      ReadEnd(lit, dict, rest);
    } else {
      var more := WrittenAll(ws[1..], lit, dict) + rest;
      ReadBack(ws[0], lit, dict, more);
      assert WrittenAll(ws, lit, dict) + rest == Written(ws[0], lit, dict) + more;
      Step(WrittenAll(ws, lit, dict) + rest, lit, dict, h);
      ExpandedBack(ws[1..], lit, dict, Applied(Meaning(ws[0], dict), h), rest);
    }
  }

  /** The two header bytes and the tokens. */
  ghost function Stream(ws: seq<Wire>, lit: bool, dict: nat): seq<bit>
    requires AllLegal(ws, dict)
  {
    BitsOf(if lit then 1 else 0, 8) + (BitsOf(dict, 8) + WrittenAll(ws, lit, dict))
  }

  lemma DecompressedBack(ws: seq<Wire>, lit: bool, dict: nat, rest: seq<bit>)
    requires 4 <= dict <= 6 && AllLegal(ws, dict) && InReach(ws, dict, [])
    ensures Decompressed(Stream(ws, lit, dict) + rest) == Result(0, Played(ws, dict, []))
  {
    hide Expanded, WrittenAll, BitsOf, Value;
    var body := WrittenAll(ws, lit, dict) + rest;
    var s := Stream(ws, lit, dict) + rest;
    var l := if lit then 1 else 0;
    assert Pow2(8) == 256;
    ReadValue(l, 8, BitsOf(dict, 8) + body);
    ReadValue(dict, 8, body);
    assert s == BitsOf(l, 8) + (BitsOf(dict, 8) + body);
    assert s[..8] == BitsOf(l, 8) && s[8..] == BitsOf(dict, 8) + body;
    assert s[8..16] == BitsOf(dict, 8) && s[16..] == body;
    ExpandedBack(ws, lit, dict, [], rest);
  }

  // ---- bytes, and the whole of blast ----

  /** Bits packed into bytes, first bit lowest, the last byte filled up with
      zero bits. */
  ghost function Packed(s: seq<bit>): seq<byte> {
    if s == [] then []
    else
      var n := if |s| < 8 then |s| else 8;
      ShortValue(s[..n]);
      [Value(s[..n])] + Packed(s[n..])
  }

  lemma ShortValue(s: seq<bit>)
    requires |s| <= 8
    ensures Value(s) < 256
  {
    ValueBound(s);
    PowerGrows(|s|, 8);
    assert Pow2(8) == 256;
  }

  lemma {:induction false} PowerGrows(m: nat, n: nat)
    requires m <= n
    ensures Pow2(m) <= Pow2(n)
  {
    if m < n {
      PowerGrows(m, n - 1);
    }
  }

  lemma {:induction false} BitsOfValue(s: seq<bit>, n: nat)
    requires |s| <= n
    ensures BitsOf(Value(s), n) == s + seq(n - |s|, _ => 0)
  {
    if s == [] {
      NoBits(n);
    } else {
      BitsOfValue(s[1..], n - 1);
      assert Value(s) / 2 == Value(s[1..]) && Value(s) % 2 == s[0];
    }
  }

  lemma {:induction false} NoBits(n: nat)
    ensures BitsOf(0, n) == seq(n, _ => 0)
  {
    if n > 0 {
      NoBits(n - 1);
    }
  }

  lemma {:induction false} PackedBits(s: seq<bit>)
    ensures s <= ByteBits(Packed(s))
    decreases |s|
  {
    if s != [] {
      var n := if |s| < 8 then |s| else 8;
      PackedBits(s[n..]);
      BitsOfValue(s[..n], 8);
      ShortValue(s[..n]);
      PackedStep(s, n, Value(s[..n]), Packed(s[n..]));
    }
  }

  lemma PackedStep(s: seq<bit>, n: nat, b: byte, bs: seq<byte>)
    requires n == (if |s| < 8 then |s| else 8) && BitsOf(b, 8) == s[..n] + seq(8 - n, _ => 0) && s[n..] <= ByteBits(bs)
    ensures s <= ByteBits([b] + bs)
  {
    assert ([b] + bs)[1..] == bs;
  }

  lemma {:induction false} BytesConcat(a: seq<byte>, b: seq<byte>)
    ensures ByteBits(a + b) == ByteBits(a) + ByteBits(b)
  {
    if a == [] {
      assert a + b == b;
    } else {
      assert (a + b)[1..] == a[1..] + b;
      BytesConcat(a[1..], b);
    }
  }

  lemma StreamDelivered(ws: seq<Wire>, lit: bool, dict: nat, more: seq<byte>)
    requires 4 <= dict <= 6 && AllLegal(ws, dict) && InReach(ws, dict, [])
    ensures Decompressed(ByteBits(Packed(Stream(ws, lit, dict)) + more)) == Result(0, Played(ws, dict, []))
  {
    hide Decompressed, ByteBits, Packed, Stream, Played, InReach, AllLegal;
    var s, bs := Stream(ws, lit, dict), Packed(Stream(ws, lit, dict));
    PackedBits(s);
    BytesConcat(bs, more);
    var rest := ByteBits(bs)[|s|..] + ByteBits(more);
    assert ByteBits(bs + more) == s + rest;
    DecompressedBack(ws, lit, dict, rest);
  }

  /** blast on the bytes of any token list, cut into chunks in any way and with
      anything behind the end code: it gives back the bytes that the tokens
      spell out, or as many whole blocks of them as the output function takes. */
  method BlastBack(chunks: seq<seq<byte>>, room: nat, ghost ws: seq<Wire>, ghost lit: bool, ghost dict: nat,
                   ghost more: seq<byte>)
    returns (err: int, written: seq<byte>)
    requires 4 <= dict <= 6 && AllLegal(ws, dict) && InReach(ws, dict, [])
    requires Delivered(chunks) == Packed(Stream(ws, lit, dict)) + more
    ensures |Played(ws, dict, [])| <= room * MAXWIN ==> err == 0 && written == Played(ws, dict, [])
    ensures room * MAXWIN < |Played(ws, dict, [])| ==> err == 1 && written == Played(ws, dict, [])[..room * MAXWIN]
  {
    hide Decompressed, ByteBits, Packed, Stream, Played, InReach, AllLegal, Delivered;
    StreamDelivered(ws, lit, dict, more);
    err, written := Blast.Blast(chunks, room);
  }
}
