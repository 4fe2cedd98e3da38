/**
 What the decompressor says of input that is no complete stream: 2 when it ends
 too early, -1 and -2 for the header bytes, -3 for a copy from before the start
 of the output.
 */
module DclErrors {
  import opened Basics
  import opened BitStream
  import opened Huffman
  import opened DclTables
  import opened Blast
  import opened BlastEncoding

  // ---- the header ----

  lemma HeaderByte(a: byte, more: seq<byte>)
    ensures |ByteBits([a] + more)| == 8 + 8 * |more| && ByteBits([a] + more)[8..] == ByteBits(more)
    ensures Value(ByteBits([a] + more)[..8]) == a
  {
    assert ([a] + more)[1..] == more;
    assert Pow2(8) == 256;
    ReadValue(a, 8, ByteBits(more));
  }

  /** No input, or a first byte alone, is too short; the first byte must be 0 or
      1, the second one 4, 5 or 6. */
  lemma HeaderErrors(a: byte, b: byte, more: seq<byte>)
    ensures Decompressed(ByteBits([])) == Result(2, [])
    ensures Decompressed(ByteBits([a])) == if a > 1 then Result(-1, []) else Result(2, [])
    ensures a > 1 ==> Decompressed(ByteBits([a] + ([b] + more))) == Result(-1, [])
    ensures a <= 1 && (b < 4 || 6 < b) ==> Decompressed(ByteBits([a] + ([b] + more))) == Result(-2, [])
  {
    hide Expanded, Value, Pow2, BitsOf, ByteBits, Decompressed;
    HeaderByte(a, []);
    HeaderByte(a, [b] + more);
    HeaderByte(b, more);
    assert [a] + [] == [a];
    DecompressedParts(ByteBits([]));
    DecompressedParts(ByteBits([a]));
    DecompressedParts(ByteBits([a] + ([b] + more)));
  }

  // ---- input that goes on ----

  lemma SymbolStays(ls: seq<nat>, s: seq<bit>, u: seq<bit>)
    requires SymbolOf(ls, s).Some?
    ensures SymbolOf(ls, s + u) == SymbolOf(ls, s)
  {
    var i := SymbolOf(ls, s).value;
    InvertedPrefix(s, u, ls[i]);
    SymbolIs(ls, i, s + u);
  }

  lemma Longer<T>(s: seq<T>, u: seq<T>, k: nat)
    requires k <= |s|
    ensures (s + u)[..k] == s[..k] && (s + u)[k..] == s[k..] + u
  {
  }

  lemma CodedStays(s: seq<bit>, u: seq<bit>)
    requires !ReadLiteral(s, true).0.Cut?
    ensures ReadLiteral(s + u, true) == (ReadLiteral(s, true).0, ReadLiteral(s, true).1 + u)
  {
    hide SymbolOf, Value, LitCode;
    LitComplete();
    SymbolStays(LitCode(), s, u);
    Longer(s, u, LitCode()[SymbolOf(LitCode(), s).value]);
  }

  lemma PlainStays(s: seq<bit>, u: seq<bit>)
    requires !ReadLiteral(s, false).0.Cut?
    ensures ReadLiteral(s + u, false) == (ReadLiteral(s, false).0, ReadLiteral(s, false).1 + u)
  {
    hide Value, SymbolOf;
    Longer(s, u, 8);
  }

  lemma DistanceStays(s: seq<bit>, u: seq<bit>, k: nat, len: nat)
    requires k <= 6 && 1 <= len && !ReadDistance(s, k, len).0.Cut?
    ensures ReadDistance(s + u, k, len) == (ReadDistance(s, k, len).0, ReadDistance(s, k, len).1 + u)
  {
    hide SymbolOf, Value, DistCode, Shl, Left, Verdict, Bounded;
    DistComplete();
    SymbolStays(DistCode(), s, u);
    var i := DistCode()[SymbolOf(DistCode(), s).value];
    Longer(s, u, i);
    Longer(s[i..], u, k);
  }

  lemma CopyStays(s: seq<bit>, u: seq<bit>, dict: nat)
    requires dict <= 6 && !ReadCopy(s, dict).0.Cut?
    ensures ReadCopy(s + u, dict) == (ReadCopy(s, dict).0, ReadCopy(s, dict).1 + u)
  {
    hide SymbolOf, Value, LenCode, ReadDistance, ReadCopy, Left;
    CopyParts(s, dict);
    CopyParts(s + u, dict);
    SymbolStays(LenCode(), s, u);
    var sym := SymbolOf(LenCode(), s).value;
    Longer(s, u, LenCode()[sym]);
    var t, k := s[LenCode()[sym]..], EXTRA[sym];
    Longer(t, u, k);
    var len := BASE[sym] + Value(t[..k]);
    if len != 519 {
      DistanceStays(t[k..], u, if len == 2 then 2 else dict, len);
    }
  }

  /** A token that is complete does not depend on what follows it. */
  lemma TokenStays(s: seq<bit>, u: seq<bit>, lit: bool, dict: nat)
    requires dict <= 6 && !ReadToken(s, lit, dict).0.Cut?
    ensures ReadToken(s + u, lit, dict) == (ReadToken(s, lit, dict).0, ReadToken(s, lit, dict).1 + u)
  {
    hide ReadLiteral, ReadCopy;
    Longer(s, u, 1);
    if s[0] == 1 {
      CopyStays(s[1..], u, dict);
    } else if lit {
      CodedStays(s[1..], u);
    } else {
      PlainStays(s[1..], u);
    }
  }

  // ---- too short ----

  /** Tokens cut off anywhere before their end: 2, and a beginning of the bytes
      they spell out. */
  lemma {:induction false} ExpandedCut(ws: seq<Wire>, lit: bool, dict: nat, h: seq<byte>, t: seq<bit>, u: seq<bit>)
    requires dict <= 6 && AllLegal(ws, dict) && InReach(ws, dict, h) && t + u == WrittenAll(ws, lit, dict) && u != []
    ensures var r := Expanded(t, lit, dict, h); r.err == 2 && r.out <= Played(ws, dict, h)
    decreases |ws|
  {
    hide *;
    Step(t, lit, dict, h);
    PlayedOn(ws, dict, h);
    var tok := ReadToken(t, lit, dict).0;
    if !tok.Cut? {
      TokenStays(t, u, lit, dict);
      if ws == [] {
        NoneLeft(lit, dict);
        ReadEnd(lit, dict, []);
        assert false;
      } else {
        AllFirst(ws, lit, dict, h);
        ReadBack(ws[0], lit, dict, WrittenAll(ws[1..], lit, dict));
        ExpandedCut(ws[1..], lit, dict, Applied(tok, h), ReadToken(t, lit, dict).1, u);
      }
    }
  }

  lemma NoneLeft(lit: bool, dict: nat)
    ensures WrittenAll([], lit, dict) == EndCode() && EndCode() + [] == EndCode()
  {
    hide EndCode;
  }

  lemma {:induction false} PlayedOn(ws: seq<Wire>, dict: nat, h: seq<byte>)
    requires AllLegal(ws, dict) && InReach(ws, dict, h)
    ensures h <= Played(ws, dict, h)
    decreases |ws|
  {
    hide Meaning, Legal, Applied;
    if ws != [] {
      PlayedOn(ws[1..], dict, Applied(Meaning(ws[0], dict), h));
    }
  }

  lemma AllFirst(ws: seq<Wire>, lit: bool, dict: nat, h: seq<byte>)
    requires ws != [] && AllLegal(ws, dict) && InReach(ws, dict, h)
    ensures Legal(ws[0], dict) && AllLegal(ws[1..], dict)
    ensures var m := Meaning(ws[0], dict);
      && (m.Literal? || (m.Copy? && 1 <= m.dist <= |h|)) && InReach(ws[1..], dict, Applied(m, h))
      && Played(ws, dict, h) == Played(ws[1..], dict, Applied(m, h))
    ensures WrittenAll(ws, lit, dict) == Written(ws[0], lit, dict) + WrittenAll(ws[1..], lit, dict)
  {
    hide Meaning, Legal, Applied, Written;
  }

  /** A stream cut off anywhere before its end: 2, and a beginning of the bytes. */
  lemma Truncated(ws: seq<Wire>, lit: bool, dict: nat, t: seq<bit>, u: seq<bit>)
    requires 4 <= dict <= 6 && AllLegal(ws, dict) && InReach(ws, dict, [])
    requires t + u == Stream(ws, lit, dict) && u != []
    ensures var r := Decompressed(t); r.err == 2 && r.out <= Played(ws, dict, [])
  {
    hide Expanded, WrittenAll, BitsOf, Value, Decompressed, Played, InReach, AllLegal;
    var l := if lit then 1 else 0;
    var body := WrittenAll(ws, lit, dict);
    HeaderFits();
    ReadValue(l, 8, BitsOf(dict, 8) + body);
    ReadValue(dict, 8, body);
    DecompressedParts(t);
    if |t| >= 8 {
      Longer(t, u, 8);
      if |t[8..]| >= 8 {
        Longer(t[8..], u, 8);
        ExpandedCut(ws, lit, dict, [], t[8..][8..], u);
      }
    }
  }

  lemma HeaderFits()
    ensures Pow2(8) == 256
  {
  }

  // ---- out of reach ----

  /** Tokens without the end code. */
  ghost function Front(ws: seq<Wire>, lit: bool, dict: nat): seq<bit>
    requires AllLegal(ws, dict)
    decreases |ws|
  {
    if ws == [] then [] else Written(ws[0], lit, dict) + Front(ws[1..], lit, dict)
  }

  lemma FrontFirst(ws: seq<Wire>, lit: bool, dict: nat, rest: seq<bit>)
    requires ws != [] && AllLegal(ws, dict)
    ensures AllLegal(ws[1..], dict)
    ensures Front(ws, lit, dict) + rest == Written(ws[0], lit, dict) + (Front(ws[1..], lit, dict) + rest)
  {
    hide Legal, Written;
  }

  lemma {:induction false} ExpandedTooFar(ws: seq<Wire>, w: Wire, lit: bool, dict: nat, h: seq<byte>, rest: seq<bit>)
    requires dict <= 6 && AllLegal(ws, dict) && InReach(ws, dict, h) && Legal(w, dict)
    requires Meaning(w, dict).Copy? && Meaning(w, dict).dist > |Played(ws, dict, h)|
    ensures Expanded(Front(ws, lit, dict) + (Written(w, lit, dict) + rest), lit, dict, h) == Result(-3, Played(ws, dict, h))
    decreases |ws|
  {
    hide *;
    var tail := Written(w, lit, dict) + rest;
    var s := Front(ws, lit, dict) + tail;
    Step(s, lit, dict, h);
    if ws == [] {
      NoFront(lit, dict, h, tail);
      ReadBack(w, lit, dict, rest);
    } else {
      FrontFirst(ws, lit, dict, tail);
      AllFirst(ws, lit, dict, h);
      ReadBack(ws[0], lit, dict, Front(ws[1..], lit, dict) + tail);
      ExpandedTooFar(ws[1..], w, lit, dict, Applied(Meaning(ws[0], dict), h), rest);
    }
  }

  lemma NoFront(lit: bool, dict: nat, h: seq<byte>, tail: seq<bit>)
    ensures AllLegal([], dict) && InReach([], dict, h) && Played([], dict, h) == h && Front([], lit, dict) + tail == tail
  {
  }

  /** A copy from before the start of the output, behind any tokens within
      reach: -3, and the bytes written up to there. */
  lemma TooFar(ws: seq<Wire>, w: Wire, lit: bool, dict: nat, rest: seq<bit>)
    requires 4 <= dict <= 6 && AllLegal(ws, dict) && InReach(ws, dict, []) && Legal(w, dict)
    requires Meaning(w, dict).Copy? && Meaning(w, dict).dist > |Played(ws, dict, [])|
    ensures Decompressed(BitsOf(if lit then 1 else 0, 8) + (BitsOf(dict, 8) +
                         (Front(ws, lit, dict) + (Written(w, lit, dict) + rest)))) == Result(-3, Played(ws, dict, []))
  {
    hide Expanded, Front, Written, Meaning, BitsOf, Value, Decompressed, Played, InReach, AllLegal, Legal;
    var l := if lit then 1 else 0;
    var body := Front(ws, lit, dict) + (Written(w, lit, dict) + rest);
    HeaderFits();
    ReadValue(l, 8, BitsOf(dict, 8) + body);
    ReadValue(dict, 8, body);
    DecompressedParts(BitsOf(l, 8) + (BitsOf(dict, 8) + body));
    ExpandedTooFar(ws, w, lit, dict, [], rest);
  }
}
