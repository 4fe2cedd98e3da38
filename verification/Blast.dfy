/**
 The PKWare DCL decompressor: one token at a time from the bit stream, copied
 through a wrapping window of MAXWIN bytes, against an LZ77 decoder that keeps
 its whole output.
 */
module Blast {
  import opened Basics
  import opened BitStream
  import opened Huffman
  import opened DclTables
  import opened Window

  // ---- the format ----

  /** The symbol whose code starts the stream. */
  ghost function SymbolOf(ls: seq<nat>, s: seq<bit>): (r: Option<nat>)
    ensures r.Some? ==> Matches(ls, r.value, s)
  {
    if exists i :: Matches(ls, i, s) then
      var i :| Matches(ls, i, s);
      Some(i)
    else None
  }

  datatype Token = Literal(b: byte) | Copy(len: nat, dist: nat) | End | Cut

  /** What every token of the format satisfies: the window is large enough. */
  ghost predicate Sound(t: Token) {
    t.Copy? ==> 1 <= t.len && 1 <= t.dist <= MAXWIN
  }

  /** A literal, coded or not. */
  ghost function ReadLiteral(s: seq<bit>, lit: bool): (r: (Token, seq<bit>))
    ensures Sound(r.0) && (r.0.Cut? || |r.1| < |s|)
  {
    if lit then
      var sym := SymbolOf(LitCode(), s);
      if sym.None? then (Cut, s) else LitComplete(); (Literal(sym.value), s[LitCode()[sym.value]..])
    else if |s| < 8 then (Cut, s)
    else ByteBound(s[..8]); (Literal(Value(s[..8])), s[8..])
  }

  lemma ByteBound(s: seq<bit>)
    requires |s| == 8
    ensures Value(s) < 256
  {
    ValueBound(s);
    assert Pow2(8) == 256;
  }

  lemma DistanceBound(sym: nat, k: nat, s: seq<bit>)
    requires sym < 64 && k <= 6 && |s| == k
    ensures Shl(sym, k) + Value(s) + 1 <= MAXWIN
  {
    ValueBound(s);
    ShlBound(sym, k);
    ShlBound(sym + 1, k);
    ShlGrows(64, k);
    assert Shl(64, 6) == MAXWIN;
  }

  lemma {:induction false} ShlBound(v: nat, k: nat)
    ensures Shl(v, k) + Pow2(k) == Shl(v + 1, k)
    ensures v <= 64 ==> Shl(v, k) <= Shl(64, k)
  {
    if k > 0 {
      ShlBound(v, k - 1);
    }
  }

  lemma {:induction false} ShlGrows(v: nat, k: nat)
    requires k <= 6
    ensures Shl(v, k) <= Shl(v, 6)
    decreases 6 - k
  {
    if k < 6 {
      ShlGrows(v, k + 1);
    }
  }

  ghost function ReadDistance(s: seq<bit>, k: nat, len: nat): (r: (Token, seq<bit>))
    requires k <= 6 && 1 <= len
    ensures Sound(r.0) && (r.0.Cut? || |r.1| < |s|)
  {
    var sym := SymbolOf(DistCode(), s);
    if sym.None? then (Cut, s)
    else
      var t := s[DistCode()[sym.value]..];
      if |t| < k then (Cut, s)
      else
        DistComplete();
        DistanceBound(sym.value, k, t[..k]);
        (Copy(len, Shl(sym.value, k) + Value(t[..k]) + 1), t[k..])
  }

  lemma CopyLength(sym: nat, s: seq<bit>)
    requires sym < 16 && |s| == EXTRA[sym]
    ensures 2 <= BASE[sym] + Value(s) <= 519
  {
    ValueBound(s);
    SmallPowers();
    hide Pow2, Value;
  }

  lemma SmallPowers()
    ensures Pow2(0) == 1 && Pow2(1) == 2 && Pow2(2) == 4 && Pow2(3) == 8 && Pow2(4) == 16
    ensures Pow2(5) == 32 && Pow2(6) == 64 && Pow2(7) == 128 && Pow2(8) == 256
  {
  }

  ghost function ReadCopy(s: seq<bit>, dict: nat): (r: (Token, seq<bit>))
    requires dict <= 6
    ensures Sound(r.0) && (r.0.Cut? || |r.1| < |s|)
  {
    var sym := SymbolOf(LenCode(), s);
    if sym.None? then (Cut, s)
    else
      LenComplete();
      var t := s[LenCode()[sym.value]..];
      var k := EXTRA[sym.value];
      if |t| < k then (Cut, s)
      else
        var len := BASE[sym.value] + Value(t[..k]);
        CopyLength(sym.value, t[..k]);
        if len == 519 then (End, t[k..])
        else ReadDistance(t[k..], if len == 2 then 2 else dict, len)
  }

  ghost function ReadToken(s: seq<bit>, lit: bool, dict: nat): (r: (Token, seq<bit>))
    requires dict <= 6
    ensures Sound(r.0) && (r.0.Cut? || |r.1| < |s|)
  {
    if s == [] then (Cut, s)
    else if s[0] == 1 then ReadCopy(s[1..], dict)
    else ReadLiteral(s[1..], lit)
  }

  datatype Result = Result(err: int, out: seq<byte>)

  /** LZ77 with unbounded history: 0 at the end code, 2 when the input runs
      out, -3 when a distance reaches before the start of the output. */
  ghost function Expanded(s: seq<bit>, lit: bool, dict: nat, h: seq<byte>): (r: Result)
    requires dict <= 6
    ensures h <= r.out && r.err in {0, 2, -3}
    decreases |s|
  {
    var (tok, rest) := ReadToken(s, lit, dict);
    match tok
    case Cut => Result(2, h)
    case End => Result(0, h)
    case Literal(b) => Expanded(rest, lit, dict, h + [b])
    case Copy(len, dist) =>
      if dist > |h| then Result(-3, h) else Expanded(rest, lit, dict, Copied(h, dist, len))
  }

  /** A whole compressed stream. */
  ghost function Decompressed(s: seq<bit>): (r: Result)
    ensures r.err in {0, 2, -1, -2, -3}
  {
    if |s| < 8 then Result(2, [])
    else if Value(s[..8]) > 1 then Result(-1, [])
    else if |s| < 16 then Result(2, [])
    else
      var dict := Value(s[8..16]);
      if dict < 4 || dict > 6 then Result(-2, []) else Expanded(s[16..], Value(s[..8]) == 1, dict, [])
  }

  lemma SymbolIs(ls: seq<nat>, i: nat, s: seq<bit>)
    requires Matches(ls, i, s)
    ensures SymbolOf(ls, s) == Some(i)
  {
    PrefixFree(ls, i, SymbolOf(ls, s).value, s);
  }

  // ---- reading ----

  datatype Codes = Codes(lit: Table, len: Table, dist: Table) {
    ghost predicate Built()
      reads lit, lit.count, lit.symbol, len, len.count, len.symbol, dist, dist.count, dist.symbol
    {
      lit.Describes(LitCode()) && len.Describes(LenCode()) && dist.Describes(DistCode())
    }
  }

  method Build(n: nat, rep: seq<byte>) returns (h: Table)
    requires |rep| > 0 && Bounded(Expand(rep)) && |Expand(rep)| == n <= 256 && Verdict(Expand(rep)) == 0
    ensures fresh(h) && fresh(h.count) && fresh(h.symbol) && h.Describes(Expand(rep))
  {
    hide Expand, Verdict, Bounded, Index;
    h := new Table(n);
    IndexBound(Expand(rep), MAXBITS + 1);
    var left := h.Construct(rep);
  }

  method BuildAll() returns (c: Codes)
    ensures c.Built()
  {
    LitComplete();
    LenComplete();
    DistComplete();
    hide Expand, Verdict, Left, Bounded;
    var lit := Build(256, LITLEN);
    var len := Build(16, LENLEN);
    var dist := Build(64, DISTLEN);
    c := Codes(lit, len, dist);
  }

  /** decode on a complete code never meets an invalid pattern. */
  method ReadSymbol(s: Input, h: Table, ghost ls: seq<nat>) returns (r: Option<nat>)
    requires s.Valid() && h.Describes(ls) && Left(ls, MAXBITS) == 0
    modifies s
    ensures r == SymbolOf(ls, old(s.Stream()))
    ensures r.Some? ==> r.value < |ls| && ls[r.value] <= |old(s.Stream())|
    ensures r.Some? ==> s.Valid() && s.Stream() == old(s.Stream())[ls[r.value]..]
  {
    var d := h.Decode(s, ls);
    match d
    case Symbol(i) =>
      SymbolIs(ls, i, old(s.Stream()));
      r := Some(i);
    case Short =>
      r := None;
    case Invalid =>
      CompleteMatches(ls, old(s.Stream()));
      assert false;
  }

  method TakeLiteral(s: Input, c: Codes, lit: bool) returns (tok: Token)
    requires s.Valid() && c.Built()
    modifies s
    ensures var (t, rest) := ReadLiteral(old(s.Stream()), lit);
      tok == t && (!t.Cut? ==> s.Valid() && s.Stream() == rest)
  {
    hide Matches, SymbolOf, Value, Expand, Bounded, Left, Verdict, LitCode, Count, Pow2, Table.Describes;
    if lit {
      LitComplete();
      var sym := ReadSymbol(s, c.lit, LitCode());
      tok := if sym.None? then Cut else Literal(sym.value);
    } else {
      var ok, v := s.Bits(8);
      if ok {
        ByteBound(old(s.Stream())[..8]);
      }
      tok := if ok then Literal(v) else Cut;
    }
  }

  method TakeDistance(s: Input, c: Codes, k: nat, len: nat) returns (tok: Token)
    requires s.Valid() && c.Built() && k <= 6 && 1 <= len
    modifies s
    ensures var (t, rest) := ReadDistance(old(s.Stream()), k, len);
      tok == t && (!t.Cut? ==> s.Valid() && s.Stream() == rest)
  {
    hide Matches, SymbolOf, Value, Expand, Bounded, Left, Verdict, Shl;
    DistComplete();
    var sym := ReadSymbol(s, c.dist, DistCode());
    if sym.None? {
      return Cut;
    }
    var dist := Shl(sym.value, k);
    var ok, v := s.Bits(k);
    if !ok {
      return Cut;
    }
    return Copy(len, dist + v + 1);
  }

  /** ReadCopy by its parts. */
  lemma CopyParts(s: seq<bit>, dict: nat)
    requires dict <= 6
    ensures |LenCode()| == 16 && Left(LenCode(), MAXBITS) == 0
    ensures var sym := SymbolOf(LenCode(), s);
      if sym.None? then ReadCopy(s, dict) == (Cut, s)
      else
        sym.value < 16 && LenCode()[sym.value] <= |s| &&
        var t, k := s[LenCode()[sym.value]..], EXTRA[sym.value];
        if |t| < k then ReadCopy(s, dict) == (Cut, s)
        else
          var len := BASE[sym.value] + Value(t[..k]);
          2 <= len && ReadCopy(s, dict) == if len == 519 then (End, t[k..])
                                           else ReadDistance(t[k..], if len == 2 then 2 else dict, len)
  {
    hide ReadDistance, Value, Expand, Left, Verdict, Bounded;
    LenComplete();
    var sym := SymbolOf(LenCode(), s);
    if sym.Some? {
      var t, k := s[LenCode()[sym.value]..], EXTRA[sym.value];
      if k <= |t| {
        CopyLength(sym.value, t[..k]);
      }
    }
  }

  method TakeCopy(s: Input, c: Codes, dict: nat) returns (tok: Token)
    requires s.Valid() && c.Built() && dict <= 6
    modifies s
    ensures var (t, rest) := ReadCopy(old(s.Stream()), dict);
      tok == t && (!t.Cut? ==> s.Valid() && s.Stream() == rest)
  {
    hide Matches, SymbolOf, Value, Expand, Bounded, Left, Verdict, ReadDistance, ReadCopy, LenCode, Count,
         Table.Describes, Input.Stream, Input.Valid;
    CopyParts(s.Stream(), dict);
    var symbol := ReadSymbol(s, c.len, LenCode());
    if symbol.None? {
      return Cut;
    }
    var ok, v := s.Bits(EXTRA[symbol.value]);
    if !ok {
      return Cut;
    }
    var len := BASE[symbol.value] + v;
    if len == 519 {
      return End;
    }
    tok := TakeDistance(s, c, if len == 2 then 2 else dict, len);
  }

  method TakeToken(s: Input, c: Codes, lit: bool, dict: nat) returns (tok: Token)
    requires s.Valid() && c.Built() && dict <= 6
    modifies s
    ensures var (t, rest) := ReadToken(old(s.Stream()), lit, dict);
      tok == t && (!t.Cut? ==> s.Valid() && s.Stream() == rest)
  {
    ghost var S := s.Stream();
    var ok, v := s.Bits(1);
    if !ok {
      return Cut;
    }
    assert v == S[0];
    if v != 0 {
      tok := TakeCopy(s, c, dict);
    } else {
      tok := TakeLiteral(s, c, lit);
    }
  }

  // ---- the whole run ----

  /** What the caller has received when its output function takes room calls:
      the part that was written, and whether a full block was refused. */
  ghost predicate Stopped(room: nat, written: seq<byte>, full: seq<byte>) {
    |written| == room * MAXWIN && |written| + MAXWIN <= |full| && written <= full
  }

  ghost function Applied(t: Token, h: seq<byte>): (r: seq<byte>)
    requires t.Literal? || (t.Copy? && 1 <= t.dist <= |h|)
    ensures h <= r
  {
    if t.Literal? then h + [t.b] else Copied(h, t.dist, t.len)
  }

  lemma Step(s: seq<bit>, lit: bool, dict: nat, h: seq<byte>)
    requires dict <= 6
    ensures var (tok, rest) := ReadToken(s, lit, dict);
      var r := Expanded(s, lit, dict, h);
      && (tok.Cut? ==> r == Result(2, h))
      && (tok.End? ==> r == Result(0, h))
      && (tok.Copy? && tok.dist > |h| ==> r == Result(-3, h))
      && (tok.Literal? || (tok.Copy? && tok.dist <= |h|) ==>
            r == Expanded(rest, lit, dict, Applied(tok, h)) && Applied(tok, h) <= r.out)
  {
  }

  /** One literal or copy: 0 to go on, -3 for a distance before the start of
      the output, 1 when the output function refuses a block. */
  method Apply(w: Output, tok: Token) returns (err: int)
    requires w.Valid() && (tok.Literal? || tok.Copy?) && Sound(tok)
    modifies w, w.out
    ensures err in {0, 1, -3} && (err == -3 <==> tok.Copy? && tok.dist > |old(w.History())|)
    ensures err == -3 ==> w.Valid() && w.History() == old(w.History())
    ensures err != 1 ==> w.room * MAXWIN + |w.written| == old(w.room) * MAXWIN + |old(w.written)|
    ensures err == 0 ==> w.Valid() && w.History() == Applied(tok, old(w.History()))
    ensures err == 1 ==> w.room == 0 && |w.written| == old(w.room) * MAXWIN + |old(w.written)|
    ensures err == 1 ==> var full := Applied(tok, old(w.History())); |w.written| + MAXWIN <= |full| && w.written <= full
  {
    var failed := false;
    if tok.Copy? {
      if w.first && tok.dist > w.next {
        return -3;
      }
      failed := w.Copy(tok.len, tok.dist);
    } else {
      failed := w.Put(tok.b);
    }
    err := if failed then 1 else 0;
  }

  /** The token loop of decomp. */
  method Tokens(s: Input, c: Codes, w: Output, lit: bool, dict: nat) returns (err: int)
    requires s.Valid() && c.Built() && w.Valid() && dict <= 6 && w.History() == []
    modifies s, w, w.out
    ensures var r := Expanded(old(s.Stream()), lit, dict, []);
      if err == 1 then Stopped(old(w.room), w.written, r.out)
      else w.Valid() && err == r.err && w.History() == r.out &&
           w.room * MAXWIN + |w.written| == old(w.room) * MAXWIN
  {
    hide Expanded, ReadToken, Applied, Stopped, Output.Aligned, Codes.Built, Input.Stream, Input.Valid;
    ghost var r := Expanded(s.Stream(), lit, dict, []);
    while true
      invariant s.Valid() && w.Valid()
      invariant r == Expanded(s.Stream(), lit, dict, w.History())
      invariant w.room * MAXWIN + |w.written| == old(w.room) * MAXWIN
      decreases |s.Stream()|
    {
      ghost var h := w.History();
      Step(s.Stream(), lit, dict, h);
      var tok := TakeToken(s, c, lit, dict);
      if tok.Cut? {
        return 2;
      }
      if tok.End? {
        return 0;
      }
      err := Apply(w, tok);
      if err != 0 {
        if err == 1 {
          StoppedBy(old(w.room), w.written, Applied(tok, h), r.out);
        }
        return;
      }
    }
  }

  lemma StoppedBy(room: nat, written: seq<byte>, full: seq<byte>, out: seq<byte>)
    requires |written| == room * MAXWIN && |written| + MAXWIN <= |full| && written <= full <= out
    ensures Stopped(room, written, out)
  {
  }

  /** Decompressed by its parts. */
  lemma DecompressedParts(s: seq<bit>)
    ensures var r := Decompressed(s);
      if |s| < 8 then r == Result(2, [])
      else if Value(s[..8]) > 1 then r == Result(-1, [])
      else if |s[8..]| < 8 then r == Result(2, [])
      else
        var dict := Value(s[8..][..8]);
        r == if dict < 4 || dict > 6 then Result(-2, [])
             else Expanded(s[8..][8..], Value(s[..8]) == 1, dict, [])
  {
    hide Expanded, Value;
    assert |s| >= 16 ==> s[8..][..8] == s[8..16] && s[8..][8..] == s[16..];
  }

  /** decomp: the two header bytes, then the tokens. */
  method Decomp(s: Input, w: Output) returns (err: int)
    requires s.Valid() && w.Valid() && w.History() == []
    modifies s, w, w.out
    ensures var r := Decompressed(old(s.Stream()));
      if err == 1 then Stopped(old(w.room), w.written, r.out)
      else w.Valid() && err == r.err && w.History() == r.out &&
           w.room * MAXWIN + |w.written| == old(w.room) * MAXWIN
  {
    hide Expanded, Decompressed, Value, Pow2, Stopped, Table.Describes;
    var c := BuildAll();
    ghost var S := s.Stream();
    DecompressedParts(S);
    var ok, lit := s.Bits(8);
    if !ok {
      return 2;
    }
    if lit > 1 {
      return -1;
    }
    var dict;
    ok, dict := s.Bits(8);
    if !ok {
      return 2;
    }
    if dict < 4 || dict > 6 {
      return -2;
    }
    err := Tokens(s, c, w, lit == 1, dict);
  }

  /** The decompressor as a whole, for any chunking of the input and an output
      function that accepts room calls of at most MAXWIN bytes each. */
  method Blast(chunks: seq<seq<byte>>, room: nat) returns (err: int, written: seq<byte>)
    ensures var r := Decompressed(ByteBits(Delivered(chunks)));
      && written <= r.out
      && (room * MAXWIN >= |r.out| ==> err == r.err && written == r.out)
      && (room * MAXWIN < |r.out| ==> |written| == room * MAXWIN)
      && (err == 1 <==> room * MAXWIN < |r.out| && (r.err == 0 || (room + 1) * MAXWIN <= |r.out|))
      && (err != 1 ==> err == r.err)
  {
    hide Decompressed, ByteBits, Delivered;
    var s := new Input(chunks);
    var w := new Output(room);
    err := Decomp(s, w);
    ghost var r := Decompressed(ByteBits(Delivered(chunks)));
    if err == 1 {
      return err, w.written;
    }
    assert r.out == w.written + w.out[..w.next];
    if w.next != 0 {
      if w.room == 0 {
        assert r.out[..|w.written|] == w.written;
        return if err == 0 then 1 else err, w.written;
      }
      w.written := w.written + w.out[..w.next];
    }
    written := w.written;
  }
}
