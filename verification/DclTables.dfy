/** The three built-in codes of the PKWare DCL format; all are complete. */
module DclTables {
  import opened Basics
  import opened BitStream
  import opened Huffman

  const LITLEN: seq<byte> := LIT0 + LIT1 + LIT2 + LIT3 + LIT4 + LIT5 + LIT6
  const LIT0: seq<byte> := [11, 124, 8, 7, 28, 7, 188, 13, 76, 4, 10, 8, 12, 10]
  const LIT1: seq<byte> := [12, 10, 8, 23, 8, 9, 7, 6, 7, 8, 7, 6, 55, 8]
  const LIT2: seq<byte> := [23, 24, 12, 11, 7, 9, 11, 12, 6, 7, 22, 5, 7, 24]
  const LIT3: seq<byte> := [6, 11, 9, 6, 7, 22, 7, 11, 38, 7, 9, 8, 25, 11]
  const LIT4: seq<byte> := [8, 11, 9, 12, 8, 12, 5, 38, 5, 38, 5, 11, 7, 5]
  const LIT5: seq<byte> := [6, 21, 6, 10, 53, 8, 7, 24, 10, 27, 44, 253, 253, 253]
  const LIT6: seq<byte> := [252, 252, 252, 13, 12, 45, 12, 45, 12, 61, 12, 45, 44, 173]
  const LENLEN: seq<byte> := [2, 35, 36, 53, 38, 23]
  const DISTLEN: seq<byte> := [2, 20, 53, 230, 247, 151, 248]
  const BASE: seq<nat> := [3, 2, 4, 5, 6, 7, 8, 9, 10, 12, 16, 24, 40, 72, 136, 264]
  const EXTRA: seq<nat> := [0, 0, 0, 0, 0, 0, 0, 0, 1, 2, 3, 4, 5, 6, 7, 8]

  ghost function LitCode(): seq<nat> { Expand(LITLEN) }
  ghost function LenCode(): seq<nat> { Expand(LENLEN) }
  ghost function DistCode(): seq<nat> { Expand(DISTLEN) }

  // ---- measuring a repeated list ----

  /** Code space of one code of length l, in units of the longest code. */
  function Unit(l: nat): nat {
    if 1 <= l <= MAXBITS then Pow2(MAXBITS - l) else 0
  }

  ghost function Symbols(rep: seq<byte>): nat {
    if rep == [] then 0 else Symbols(rep[..|rep| - 1]) + rep[|rep| - 1] / 16 + 1
  }

  /** The code space of one repeat byte. */
  function Share(b: byte): nat {
    (b / 16 + 1) * Unit(b % 16)
  }

  ghost function Space(rep: seq<byte>): nat {
    if rep == [] then 0
    else Space(rep[..|rep| - 1]) + Share(rep[|rep| - 1])
  }

  /** The code space used by the lengths up to l. */
  ghost function Used(ls: seq<nat>, l: nat): nat {
    if l == 0 then 0 else Used(ls, l - 1) + Count(ls, l) * Unit(l)
  }

  lemma Distribute(a: int, c: int, p: int)
    ensures (2 * a - c) * p == a * (2 * p) - c * p
  {
  }

  lemma {:induction false} LeftFromUsed(ls: seq<nat>, l: nat)
    requires l <= MAXBITS
    ensures Left(ls, l) * Pow2(MAXBITS - l) == Pow2(MAXBITS) - Used(ls, l)
  {
    hide Left, Used, Pow2, Count, Unit;
    if l == 0 {
      NothingUsed(ls);
    } else {
      OneLength(ls, l);
      LeftFromUsed(ls, l - 1);
      Distribute(Left(ls, l - 1), Count(ls, l), Pow2(MAXBITS - l));
    }
  }

  lemma NothingUsed(ls: seq<nat>)
    ensures Left(ls, 0) == 1 && Used(ls, 0) == 0
  {
  }

  lemma OneLength(ls: seq<nat>, l: nat)
    requires 1 <= l <= MAXBITS
    ensures Left(ls, l) == 2 * Left(ls, l - 1) - Count(ls, l)
    ensures Used(ls, l) == Used(ls, l - 1) + Count(ls, l) * Pow2(MAXBITS - l)
    ensures Pow2(MAXBITS - (l - 1)) == 2 * Pow2(MAXBITS - l)
  {
  }

  lemma {:induction false} CountConcat(a: seq<nat>, b: seq<nat>, l: nat)
    ensures Count(a + b, l) == Count(a, l) + Count(b, l)
  {
    if b == [] {
      assert a + b == a;
    } else {
      assert (a + b)[..|a + b| - 1] == a + b[..|b| - 1];
      CountConcat(a, b[..|b| - 1], l);
    }
  }

  lemma SumTimes(a: int, b: int, p: int)
    ensures (a + b) * p == a * p + b * p
  {
  }

  lemma {:induction false} UsedConcat(a: seq<nat>, b: seq<nat>, l: nat)
    ensures Used(a + b, l) == Used(a, l) + Used(b, l)
  {
    if l > 0 {
      UsedConcat(a, b, l - 1);
      CountConcat(a, b, l);
      SumTimes(Count(a, l), Count(b, l), Unit(l));
    }
  }

  lemma {:induction false} CountSame(ls: seq<nat>, k: nat, l: nat)
    requires forall i :: 0 <= i < |ls| ==> ls[i] == k
    ensures Count(ls, l) == if l == k then |ls| else 0
  {
    if ls != [] {
      CountSame(ls[..|ls| - 1], k, l);
    }
  }

  lemma {:induction false} UsedSame(ls: seq<nat>, k: nat, l: nat)
    requires forall i :: 0 <= i < |ls| ==> ls[i] == k
    ensures Used(ls, l) == if 1 <= k <= l then |ls| * Unit(k) else 0
  {
    if l > 0 {
      UsedSame(ls, k, l - 1);
      CountSame(ls, k, l);
    }
  }

  lemma {:induction false} ExpandMeasures(rep: seq<byte>)
    requires forall i :: 0 <= i < |rep| ==> rep[i] % 16 <= MAXBITS
    ensures |Expand(rep)| == Symbols(rep) && Used(Expand(rep), MAXBITS) == Space(rep) && Bounded(Expand(rep))
  {
    if rep == [] {
      UsedSame([], 0, MAXBITS);
    } else {
      var b := rep[|rep| - 1];
      ExpandMeasures(rep[..|rep| - 1]);
      UsedConcat(Expand(rep[..|rep| - 1]), Repeated(b), MAXBITS);
      UsedSame(Repeated(b), b % 16, MAXBITS);
    }
  }

  lemma {:induction false} MeasureConcat(a: seq<byte>, b: seq<byte>)
    ensures Symbols(a + b) == Symbols(a) + Symbols(b) && Space(a + b) == Space(a) + Space(b)
  {
    if b == [] {
      assert a + b == a;
    } else {
      assert (a + b)[..|a + b| - 1] == a + b[..|b| - 1];
      MeasureConcat(a, b[..|b| - 1]);
    }
  }

  /** The remainder never recovers once it is negative. */
  lemma {:induction false} CheckIsLeft(ls: seq<nat>, l: nat)
    requires l <= MAXBITS && Left(ls, MAXBITS) == 0
    ensures Left(ls, l) >= 0 && Check(ls, l) == 0
    decreases MAXBITS - l
  {
    if l < MAXBITS {
      CheckIsLeft(ls, l + 1);
    } else {
      assert Check(ls, MAXBITS + 1) == 0;
    }
  }

  lemma {:induction false} AllCoded(rep: seq<byte>)
    requires forall i :: 0 <= i < |rep| ==> rep[i] % 16 > 0
    ensures forall i :: 0 <= i < |Expand(rep)| ==> Expand(rep)[i] > 0
  {
    if rep != [] {
      AllCoded(rep[..|rep| - 1]);
    }
  }

  lemma CompleteBySpace(rep: seq<byte>)
    requires Coded(rep) && Space(rep) == Pow2(MAXBITS)
    ensures Left(Expand(rep), MAXBITS) == 0 && Verdict(Expand(rep)) == 0 && Bounded(Expand(rep))
    ensures |Expand(rep)| == Symbols(rep) && forall i :: 0 <= i < |Expand(rep)| ==> Expand(rep)[i] > 0
  {
    AllCoded(rep);
    ExpandMeasures(rep);
    LeftFromUsed(Expand(rep), MAXBITS);
    CheckIsLeft(Expand(rep), 1);
  }

  // ---- the numbers ----

  lemma Push(rep: seq<byte>, b: byte)
    ensures Symbols(rep + [b]) == Symbols(rep) + b / 16 + 1
    ensures Space(rep + [b]) == Space(rep) + Share(b)
  {
    assert (rep + [b])[..|rep|] == rep;
  }

  lemma Six(a: byte, b: byte, c: byte, d: byte, e: byte, f: byte)
    ensures Symbols([a, b, c, d, e, f]) == a / 16 + b / 16 + c / 16 + d / 16 + e / 16 + f / 16 + 6
    ensures Space([a, b, c, d, e, f]) == Share(a) + Share(b) + Share(c) + Share(d) + Share(e) + Share(f)
  {
    assert Symbols([]) == 0 == Space([]);
    hide Share, Symbols, Space;
    Push([], a);
    assert [] + [a] == [a] && [a] + [b] == [a, b] && [a, b] + [c] == [a, b, c];
    assert [a, b, c] + [d] == [a, b, c, d] && [a, b, c, d] + [e] == [a, b, c, d, e];
    assert [a, b, c, d, e] + [f] == [a, b, c, d, e, f];
    Push([a], b);
    Push([a, b], c);
    Push([a, b, c], d);
    Push([a, b, c, d], e);
    Push([a, b, c, d, e], f);
  }

  lemma Seven(a: byte, b: byte, c: byte, d: byte, e: byte, f: byte, g: byte)
    ensures Symbols([a, b, c, d, e, f, g]) ==
            a / 16 + b / 16 + c / 16 + d / 16 + e / 16 + f / 16 + g / 16 + 7
    ensures Space([a, b, c, d, e, f, g]) ==
            Share(a) + Share(b) + Share(c) + Share(d) + Share(e) + Share(f) + Share(g)
  {
    hide Share, Symbols, Space;
    Six(a, b, c, d, e, f);
    Push([a, b, c, d, e, f], g);
    assert [a, b, c, d, e, f] + [g] == [a, b, c, d, e, f, g];
  }

  lemma Fourteen(rep: seq<byte>)
    requires |rep| == 14
    ensures Symbols(rep) == Symbols(rep[..7]) + Symbols(rep[7..]) && Space(rep) == Space(rep[..7]) + Space(rep[7..])
    ensures rep[..7] == [rep[0], rep[1], rep[2], rep[3], rep[4], rep[5], rep[6]]
    ensures rep[7..] == [rep[7], rep[8], rep[9], rep[10], rep[11], rep[12], rep[13]]
  {
    assert rep[..7] + rep[7..] == rep;
    MeasureConcat(rep[..7], rep[7..]);
  }

  lemma Row(rep: seq<byte>)
    requires |rep| == 14
    ensures Symbols(rep) ==
            rep[0] / 16 + rep[1] / 16 + rep[2] / 16 + rep[3] / 16 + rep[4] / 16 + rep[5] / 16 + rep[6] / 16 +
            rep[7] / 16 + rep[8] / 16 + rep[9] / 16 + rep[10] / 16 + rep[11] / 16 + rep[12] / 16 + rep[13] / 16 + 14
    ensures Space(rep) ==
            Share(rep[0]) + Share(rep[1]) + Share(rep[2]) + Share(rep[3]) + Share(rep[4]) + Share(rep[5]) +
            Share(rep[6]) + Share(rep[7]) + Share(rep[8]) + Share(rep[9]) + Share(rep[10]) + Share(rep[11]) +
            Share(rep[12]) + Share(rep[13])
  {
    hide Share, Symbols, Space;
    Fourteen(rep);
    Seven(rep[0], rep[1], rep[2], rep[3], rep[4], rep[5], rep[6]);
    Seven(rep[7], rep[8], rep[9], rep[10], rep[11], rep[12], rep[13]);
  }

  // The code space of every repeat byte that occurs.

  lemma Shares0()
    ensures Share(2) == 2048 && Share(4) == 512 && Share(5) == 256 && Share(6) == 128
    ensures Share(7) == 64 && Share(8) == 32 && Share(9) == 16 && Share(10) == 8
    ensures Share(11) == 4
  {
    hide Pow2, Unit;
    Units();
  }

  lemma Shares1()
    ensures Share(12) == 2 && Share(13) == 1 && Share(20) == 1024 && Share(21) == 512
    ensures Share(22) == 256 && Share(23) == 128 && Share(24) == 64 && Share(25) == 32
    ensures Share(27) == 8
  {
    hide Pow2, Unit;
    Units();
  }

  lemma Shares2()
    ensures Share(28) == 4 && Share(35) == 3072 && Share(36) == 1536 && Share(38) == 384
    ensures Share(44) == 6 && Share(45) == 3 && Share(53) == 1024 && Share(55) == 256
    ensures Share(61) == 4
  {
    hide Pow2, Unit;
    Units();
  }

  lemma Shares3()
    ensures Share(76) == 10 && Share(124) == 16 && Share(151) == 640 && Share(173) == 11
    ensures Share(188) == 24 && Share(230) == 1920 && Share(247) == 1024 && Share(248) == 512
    ensures Share(252) == 32
  {
    hide Pow2, Unit;
    Units();
  }

  lemma Shares4()
    ensures Share(253) == 16
  {
    hide Pow2, Unit;
    Units();
  }

  predicate IsCoded(b: byte) {
    1 <= b % 16 <= MAXBITS
  }

  ghost predicate Coded(rep: seq<byte>) {
    forall i :: 0 <= i < |rep| ==> IsCoded(rep[i])
  }

  lemma CodedSeven(a: byte, b: byte, c: byte, d: byte, e: byte, f: byte, g: byte)
    requires IsCoded(a) && IsCoded(b) && IsCoded(c) && IsCoded(d) && IsCoded(e) && IsCoded(f) && IsCoded(g)
    ensures Coded([a, b, c, d, e, f, g])
  {
    hide IsCoded;
  }

  lemma CodedRow(rep: seq<byte>)
    requires |rep| == 14
    requires IsCoded(rep[0]) && IsCoded(rep[1]) && IsCoded(rep[2]) && IsCoded(rep[3]) && IsCoded(rep[4])
    requires IsCoded(rep[5]) && IsCoded(rep[6]) && IsCoded(rep[7]) && IsCoded(rep[8]) && IsCoded(rep[9])
    requires IsCoded(rep[10]) && IsCoded(rep[11]) && IsCoded(rep[12]) && IsCoded(rep[13])
    ensures Coded(rep)
  {
    hide *;
    Fourteen(rep);
    CodedSeven(rep[0], rep[1], rep[2], rep[3], rep[4], rep[5], rep[6]);
    CodedSeven(rep[7], rep[8], rep[9], rep[10], rep[11], rep[12], rep[13]);
    CodedConcat(rep[..7], rep[7..]);
    assert rep[..7] + rep[7..] == rep;
  }

  lemma CodedConcat(a: seq<byte>, b: seq<byte>)
    requires Coded(a) && Coded(b)
    ensures Coded(a + b)
  {
    hide IsCoded;
  }

  /** All literal lengths are lengths of codes. */
  lemma LitCoded()
    ensures Coded(LITLEN)
  {
    Coded0();
    Coded1();
    Coded2();
    Coded3();
    Coded4();
    Coded5();
    Coded6();
    hide Coded;
    CodedConcat(LIT0, LIT1);
    CodedConcat(LIT0 + LIT1, LIT2);
    CodedConcat(LIT0 + LIT1 + LIT2, LIT3);
    CodedConcat(LIT0 + LIT1 + LIT2 + LIT3, LIT4);
    CodedConcat(LIT0 + LIT1 + LIT2 + LIT3 + LIT4, LIT5);
    CodedConcat(LIT0 + LIT1 + LIT2 + LIT3 + LIT4 + LIT5, LIT6);
  }

  lemma Row0()
    ensures Symbols(LIT0) == 37 && Space(LIT0) == 781
  {
    hide Symbols, Space, Share;
    Shares0();
    Shares1();
    Shares2();
    Shares3();
    Row(LIT0);
  }

  lemma Coded0()
    ensures Coded(LIT0)
  {
    hide Coded;
    CodedRow(LIT0);
  }

  lemma Row1()
    ensures Symbols(LIT1) == 18 && Space(LIT1) == 986
  {
    hide Symbols, Space, Share;
    Shares0();
    Shares1();
    Shares2();
    Row(LIT1);
  }

  lemma Coded1()
    ensures Coded(LIT1)
  {
    hide Coded;
    CodedRow(LIT1);
  }

  lemma Row2()
    ensures Symbols(LIT2) == 18 && Space(LIT2) == 1116
  {
    hide Symbols, Space, Share;
    Shares0();
    Shares1();
    Row(LIT2);
  }

  lemma Coded2()
    ensures Coded(LIT2)
  {
    hide Coded;
    CodedRow(LIT2);
  }

  lemma Row3()
    ensures Symbols(LIT3) == 18 && Space(LIT3) == 1196
  {
    hide Symbols, Space, Share;
    Shares0();
    Shares1();
    Shares2();
    Row(LIT3);
  }

  lemma Coded3()
    ensures Coded(LIT3)
  {
    hide Coded;
    CodedRow(LIT3);
  }

  lemma Row4()
    ensures Symbols(LIT4) == 18 && Space(LIT4) == 1948
  {
    hide Symbols, Space, Share;
    Shares0();
    Shares1();
    Shares2();
    Row(LIT4);
  }

  lemma Coded4()
    ensures Coded(LIT4)
  {
    hide Coded;
    CodedRow(LIT4);
  }

  lemma Row5()
    ensures Symbols(LIT5) == 67 && Space(LIT5) == 2030
  {
    hide Symbols, Space, Share;
    Shares0();
    Shares1();
    Shares2();
    Shares4();
    Row(LIT5);
  }

  lemma Coded5()
    ensures Coded(LIT5)
  {
    hide Coded;
    CodedRow(LIT5);
  }

  lemma Row6()
    ensures Symbols(LIT6) == 80 && Space(LIT6) == 135
  {
    hide Symbols, Space, Share;
    Shares1();
    Shares2();
    Shares3();
    Row(LIT6);
  }

  lemma Coded6()
    ensures Coded(LIT6)
  {
    hide Coded;
    CodedRow(LIT6);
  }

  lemma LitComplete()
    ensures Left(LitCode(), MAXBITS) == 0 && Verdict(LitCode()) == 0 && Bounded(LitCode()) && |LitCode()| == 256
    ensures forall i :: 0 <= i < 256 ==> LitCode()[i] > 0
  {
    Row0();
    Row1();
    Row2();
    Row3();
    Row4();
    Row5();
    Row6();
    LitCoded();
    hide Symbols, Space, Coded;
    MeasureConcat(LIT0, LIT1);
    MeasureConcat(LIT0 + LIT1, LIT2);
    MeasureConcat(LIT0 + LIT1 + LIT2, LIT3);
    MeasureConcat(LIT0 + LIT1 + LIT2 + LIT3, LIT4);
    MeasureConcat(LIT0 + LIT1 + LIT2 + LIT3 + LIT4, LIT5);
    MeasureConcat(LIT0 + LIT1 + LIT2 + LIT3 + LIT4 + LIT5, LIT6);
    Units();
    CompleteBySpace(LITLEN);
  }

  lemma LenComplete()
    ensures Left(LenCode(), MAXBITS) == 0 && Verdict(LenCode()) == 0 && Bounded(LenCode()) && |LenCode()| == 16
    ensures forall i :: 0 <= i < 16 ==> LenCode()[i] > 0
  {
    hide Symbols, Space, Share, Unit, Pow2, Left, Verdict, Bounded, Expand;
    Units();
    Shares0();
    Shares1();
    Shares2();
    Six(2, 35, 36, 53, 38, 23);
    assert Coded(LENLEN);
    CompleteBySpace(LENLEN);
  }

  lemma DistComplete()
    ensures Left(DistCode(), MAXBITS) == 0 && Verdict(DistCode()) == 0 && Bounded(DistCode()) && |DistCode()| == 64
    ensures forall i :: 0 <= i < 64 ==> DistCode()[i] > 0
  {
    hide Symbols, Space, Share, Unit, Pow2, Left, Verdict, Bounded, Expand;
    Units();
    Shares0();
    Shares1();
    Shares2();
    Shares3();
    Seven(2, 20, 53, 230, 247, 151, 248);
    assert Coded(DISTLEN);
    CompleteBySpace(DISTLEN);
  }

  lemma Units()
    ensures Unit(0) == 0 && Unit(1) == 4096 && Unit(2) == 2048 && Unit(3) == 1024 && Unit(4) == 512
    ensures Unit(5) == 256 && Unit(6) == 128 && Unit(7) == 64 && Unit(8) == 32 && Unit(9) == 16
    ensures Unit(10) == 8 && Unit(11) == 4 && Unit(12) == 2 && Unit(13) == 1 && Pow2(MAXBITS) == 8192
  {
    assert Pow2(4) == 16 && Pow2(8) == 256 && Pow2(12) == 4096;
  }
}
