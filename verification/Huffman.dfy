/**
 Canonical Huffman codes with inverted bits: the tables, their construction
 from repeated code lengths, and decoding one symbol.
 */
module Huffman {
  import opened Basics
  import opened BitStream

  const MAXBITS: nat := 13

  /** How many symbols have code length l. */
  function Count(ls: seq<nat>, l: nat): (c: nat)
    ensures c <= |ls|
  {
    if ls == [] then 0
    else Count(ls[..|ls| - 1], l) + if ls[|ls| - 1] == l then 1 else 0
  }

  /** The canonical code numbers of length l start here. */
  function First(ls: seq<nat>, l: nat): nat {
    if l <= 1 then 0 else 2 * (First(ls, l - 1) + Count(ls, l - 1))
  }

  /** Symbols with codes shorter than l. */
  function Index(ls: seq<nat>, l: nat): nat {
    if l <= 1 then 0 else Index(ls, l - 1) + Count(ls, l - 1)
  }

  /** Code words of length l left over; negative when there are too many codes. */
  function Left(ls: seq<nat>, l: nat): int {
    if l == 0 then 1 else 2 * Left(ls, l - 1) - Count(ls, l)
  }

  function Rank(ls: seq<nat>, i: nat): nat
    requires i < |ls|
  {
    Count(ls[..i], ls[i])
  }

  /** The canonical code of symbol i: codes of one length are consecutive in
      symbol order and a longer code starts after all shorter ones. */
  function Code(ls: seq<nat>, i: nat): nat
    requires i < |ls|
  {
    First(ls, ls[i]) + Rank(ls, i)
  }

  /** The place of symbol i when symbols are sorted by length, stably. */
  function Place(ls: seq<nat>, i: nat): nat
    requires i < |ls|
  {
    Index(ls, ls[i]) + Rank(ls, i)
  }

  /** The first l stream bits, inverted, as a number with the first bit on top. */
  function Inverted(s: seq<bit>, l: nat): nat
    requires l <= |s|
  {
    if l == 0 then 0 else 2 * Inverted(s, l - 1) + 1 - s[l - 1]
  }

  /** The code of symbol i is a prefix of the stream. */
  ghost predicate Matches(ls: seq<nat>, i: nat, s: seq<bit>) {
    i < |ls| && 0 < ls[i] <= |s| && Inverted(s, ls[i]) == Code(ls, i)
  }

  ghost predicate Bounded(ls: seq<nat>) {
    forall i :: 0 <= i < |ls| ==> ls[i] <= MAXBITS
  }

  // ---- ranks ----

  lemma {:induction false} CountPrefix(ls: seq<nat>, i: nat, j: nat, l: nat)
    requires i <= j <= |ls|
    ensures Count(ls[..i], l) <= Count(ls[..j], l)
    ensures i < j && ls[i] == l ==> Count(ls[..i], l) < Count(ls[..j], l)
  {
    if i < j {
      CountPrefix(ls, i, j - 1, l);
      assert ls[..j][..j - 1] == ls[..j - 1];
    }
  }

  lemma {:induction false} RankBelowCount(ls: seq<nat>, i: nat)
    requires i < |ls|
    ensures Rank(ls, i) < Count(ls, ls[i])
  {
    CountPrefix(ls, i, |ls|, ls[i]);
    assert ls[..|ls|] == ls;
  }

  /** Every rank below the count is taken. */
  lemma {:induction false} Select(ls: seq<nat>, l: nat, r: nat) returns (i: nat)
    requires r < Count(ls, l)
    ensures i < |ls| && ls[i] == l && Rank(ls, i) == r
  {
    var n := |ls| - 1;
    if ls[n] == l && r == Count(ls[..n], l) {
      i := n;
    } else {
      i := Select(ls[..n], l, r);
      assert ls[..n][..i] == ls[..i];
    }
  }

  lemma {:induction false} RankUnique(ls: seq<nat>, i: nat, j: nat)
    requires i < |ls| && j < |ls| && ls[i] == ls[j] && Rank(ls, i) == Rank(ls, j)
    ensures i == j
  {
    if i < j {
      CountPrefix(ls, i, j, ls[i]);
    } else if j < i {
      CountPrefix(ls, j, i, ls[i]);
    }
  }

  lemma {:induction false} IndexGrows(ls: seq<nat>, l: nat, m: nat)
    requires 1 <= l < m
    ensures Index(ls, l) + Count(ls, l) <= Index(ls, m)
  {
    if l + 1 < m {
      IndexGrows(ls, l, m - 1);
    }
  }

  lemma {:induction false} IndexStep(ls: seq<nat>, l: nat)
    requires ls != []
    ensures Index(ls, l) <= Index(ls[..|ls| - 1], l) + 1
    ensures l <= ls[|ls| - 1] ==> Index(ls, l) == Index(ls[..|ls| - 1], l)
  {
    if l > 1 {
      IndexStep(ls, l - 1);
    }
  }

  lemma {:induction false} IndexBound(ls: seq<nat>, l: nat)
    ensures Index(ls, l) <= |ls|
  {
    if ls == [] {
      if l > 1 { IndexBound(ls, l - 1); }
    } else {
      IndexStep(ls, l);
      IndexBound(ls[..|ls| - 1], l);
    }
  }

  /** Places order the symbols by length and, within a length, by number. */
  lemma {:induction false} PlaceIsStable(ls: seq<nat>, i: nat, j: nat)
    requires i < |ls| && j < |ls| && ls[i] > 0 && ls[j] > 0
    ensures Place(ls, i) < Place(ls, j) <==> ls[i] < ls[j] || (ls[i] == ls[j] && i < j)
    ensures Place(ls, i) == Place(ls, j) <==> i == j
  {
    RankBelowCount(ls, i);
    RankBelowCount(ls, j);
    if ls[i] < ls[j] {
      IndexGrows(ls, ls[i], ls[j]);
    } else if ls[j] < ls[i] {
      IndexGrows(ls, ls[j], ls[i]);
    } else if i < j {
      CountPrefix(ls, i, j, ls[i]);
    } else if j < i {
      CountPrefix(ls, j, i, ls[i]);
    }
  }

  // ---- the code is a prefix code ----

  /** A prefix that is no shorter code lies above all shorter codes. */
  ghost predicate Above(ls: seq<nat>, s: seq<bit>, l: nat)
    requires l <= |s|
  {
    First(ls, l) + Count(ls, l) <= Inverted(s, l)
  }

  /** Seen backwards from a code of length l, no shorter code matches. */
  lemma {:induction false} ShorterAbove(ls: seq<nat>, s: seq<bit>, m: nat, l: nat)
    requires 1 <= m < l <= |s| && First(ls, l) <= Inverted(s, l)
    ensures Above(ls, s, m)
    decreases l
  {
    assert First(ls, l) == 2 * (First(ls, l - 1) + Count(ls, l - 1));
    if m < l - 1 {
      ShorterAbove(ls, s, m, l - 1);
    }
  }

  /** At most one symbol matches a stream. */
  lemma {:induction false} PrefixFree(ls: seq<nat>, i: nat, j: nat, s: seq<bit>)
    requires Matches(ls, i, s) && Matches(ls, j, s)
    ensures i == j
  {
    RankBelowCount(ls, i);
    RankBelowCount(ls, j);
    if ls[i] < ls[j] {
      ShorterAbove(ls, s, ls[i], ls[j]);
    } else if ls[j] < ls[i] {
      ShorterAbove(ls, s, ls[j], ls[i]);
    } else {
      RankUnique(ls, i, j);
    }
  }

  lemma {:induction false} LeftIsRoom(ls: seq<nat>, l: nat)
    requires l >= 1
    ensures Left(ls, l) == Pow2(l) - First(ls, l) - Count(ls, l)
  {
    if l > 1 {
      LeftIsRoom(ls, l - 1);
    } else {
      assert Pow2(1) == 2 && Left(ls, 1) == 2 - Count(ls, 1);
    }
  }

  lemma {:induction false} InvertedBound(s: seq<bit>, l: nat)
    requires l <= |s|
    ensures Inverted(s, l) < Pow2(l)
  {
    if l > 0 {
      InvertedBound(s, l - 1);
    }
  }

  /** No code of length below l matches s. */
  ghost predicate NoneBelow(ls: seq<nat>, s: seq<bit>, l: nat)
  {
    forall m :: 1 <= m < l && m <= |s| ==> Above(ls, s, m)
  }

  lemma {:induction false} NoneMatches(ls: seq<nat>, s: seq<bit>, l: nat)
    requires NoneBelow(ls, s, l)
    ensures forall i: nat :: Matches(ls, i, s) ==> l <= ls[i]
  {
    forall i: nat | Matches(ls, i, s) ensures l <= ls[i] {
      RankBelowCount(ls, i);
      assert ls[i] < l ==> Above(ls, s, ls[i]);
    }
  }

  /** A complete code decodes every stream that is long enough. */
  lemma {:induction false} CompleteFrom(ls: seq<nat>, s: seq<bit>, l: nat) returns (i: nat)
    requires Left(ls, MAXBITS) == 0 && MAXBITS <= |s| && 1 <= l <= MAXBITS
    requires l > 1 ==> Above(ls, s, l - 1)
    ensures Matches(ls, i, s)
    decreases MAXBITS - l
  {
    i := 0;
    var v := Inverted(s, l);
    if v < First(ls, l) + Count(ls, l) {
      i := Select(ls, l, v - First(ls, l));
    } else if l < MAXBITS {
      i := CompleteFrom(ls, s, l + 1);
    } else {
      LeftIsRoom(ls, MAXBITS);
      InvertedBound(s, MAXBITS);
      assert false;
    }
  }

  lemma CompleteMatches(ls: seq<nat>, s: seq<bit>)
    requires Left(ls, MAXBITS) == 0 && MAXBITS <= |s|
    ensures exists i :: Matches(ls, i, s)
  {
    var i := CompleteFrom(ls, s, 1);
  }

  lemma {:induction false} TakeBit(v: nat, n: nat, rest: seq<bit>, s: seq<bit>, k: nat)
    requires n > 0 && k <= |s| && BitsOf(v, n) + rest == s[k..] && v < Pow2(n)
    ensures k < |s| && s[k] == v % 2 && BitsOf(v / 2, n - 1) + rest == s[k + 1..] && v / 2 < Pow2(n - 1)
  {
    assert s[k] == s[k..][0] && s[k + 1..] == s[k..][1..];
  }

  /** The local variables of the decoder. */
  datatype Cursor = Cursor(bitbuf: nat, code: nat, first: nat, index: nat, len: nat)

  /** The decoder after c.len - 1 bits of s: rem bits wait in its buffer, cnt is
      the bit count at the start, and no code read so far was a match. */
  ghost predicate Walking(ls: seq<nat>, s: seq<bit>, cnt: nat, bs: seq<byte>, rem: nat, c: Cursor)
  {
    && 1 <= c.len <= MAXBITS + 1 && c.len - 1 <= |s| && rem <= 8 && (cnt - (c.len - 1) - rem) % 8 == 0
    && c.bitbuf < Pow2(rem) && BitsOf(c.bitbuf, rem) + ByteBits(bs) == s[c.len - 1..]
    && c.code == 2 * Inverted(s, c.len - 1) && c.first == First(ls, c.len) <= c.code && c.index == Index(ls, c.len)
    && NoneBelow(ls, s, c.len)
  }

  lemma {:induction false} Begin(ls: seq<nat>, bs: seq<byte>, bitbuf: nat, cnt: nat)
    requires cnt < 8 && bitbuf < Pow2(cnt)
    ensures Walking(ls, BitsOf(bitbuf, cnt) + ByteBits(bs), cnt, bs, cnt, Cursor(bitbuf, 0, 0, 0, 1))
  {
    var s := BitsOf(bitbuf, cnt) + ByteBits(bs);
    assert s[0..] == s;
    assert First(ls, 1) == 0 == Index(ls, 1) == Inverted(s, 0);
  }

  lemma {:induction false} Miss(ls: seq<nat>, s: seq<bit>, cnt: nat, bs: seq<byte>, rem: nat, c: Cursor, read: nat)
    requires Walking(ls, s, cnt, bs, rem, c) && rem > 0 && c.len <= MAXBITS
    requires read == c.code + 1 - c.bitbuf % 2 && c.first + Count(ls, c.len) <= read
    ensures var n := Count(ls, c.len);
      Walking(ls, s, cnt, bs, rem - 1, Cursor(c.bitbuf / 2, 2 * read, 2 * (c.first + n), c.index + n, c.len + 1))
  {
    hide BitsOf, ByteBits, Pow2, Count, Inverted, First, Index, NoneBelow;
    TakeBit(c.bitbuf, rem, ByteBits(bs), s, c.len - 1);
    OneLonger(ls, s, c.len);
    NoneBelowNext(ls, s, c.len);
  }

  lemma OneLonger(ls: seq<nat>, s: seq<bit>, l: nat)
    requires 1 <= l <= |s|
    ensures First(ls, l + 1) == 2 * (First(ls, l) + Count(ls, l)) && Index(ls, l + 1) == Index(ls, l) + Count(ls, l)
    ensures Inverted(s, l) == 2 * Inverted(s, l - 1) + 1 - s[l - 1]
  {
    hide Count;
  }

  lemma NoneBelowNext(ls: seq<nat>, s: seq<bit>, l: nat)
    requires NoneBelow(ls, s, l) && 1 <= l <= |s|
    ensures NoneBelow(ls, s, l + 1) <==> Above(ls, s, l)
  {
    hide Above;
  }

  lemma BitsRemaining(cnt: int, used: int, rem: int)
    requires 1 <= rem <= 8 && (cnt - (used - 1) - rem) % 8 == 0
    ensures (cnt - used) % 8 == rem - 1
  {
    assert cnt - used == (cnt - (used - 1) - rem) + (rem - 1);
  }

  lemma {:induction false} Hit(ls: seq<nat>, s: seq<bit>, cnt: nat, bs: seq<byte>, rem: nat, c: Cursor, read: nat)
    returns (i: nat)
    requires Walking(ls, s, cnt, bs, rem, c) && rem > 0 && c.len <= MAXBITS
    requires read == c.code + 1 - c.bitbuf % 2 < c.first + Count(ls, c.len)
    ensures Matches(ls, i, s) && i < |ls| && ls[i] == c.len <= |s|
    ensures c.first <= read && Place(ls, i) == c.index + (read - c.first)
    ensures rem - 1 == (cnt - c.len) % 8 && c.bitbuf / 2 < Pow2(rem - 1)
    ensures BitsOf(c.bitbuf / 2, rem - 1) + ByteBits(bs) == s[c.len..]
  {
    TakeBit(c.bitbuf, rem, ByteBits(bs), s, c.len - 1);
    BitsRemaining(cnt, c.len, rem);
    i := Select(ls, c.len, read - c.first);
  }

  lemma {:induction false} Refill(ls: seq<nat>, s: seq<bit>, cnt: nat, bs: seq<byte>, c: Cursor)
    requires Walking(ls, s, cnt, bs, 0, c)
    ensures |bs| > 0 ==> Walking(ls, s, cnt, bs[1..], 8, c.(bitbuf := bs[0]))
    ensures |bs| == 0 ==> |s| == c.len - 1 && forall i: nat :: !Matches(ls, i, s)
  {
    hide BitsOf, ByteBits, Pow2, Count, Inverted, First, Index, NoneBelow;
    NoBits(c.bitbuf, ByteBits(bs));
    FirstByte(bs);
    if |bs| == 0 {
      NoneMatches(ls, s, c.len);
    }
  }

  lemma NoBits(v: nat, rest: seq<bit>)
    ensures BitsOf(v, 0) + rest == rest
  {
  }

  lemma FirstByte(bs: seq<byte>)
    ensures |bs| == 0 ==> ByteBits(bs) == []
    ensures |bs| > 0 ==> ByteBits(bs) == BitsOf(bs[0], 8) + ByteBits(bs[1..]) && bs[0] < Pow2(8)
  {
    assert Pow2(8) == 256;
  }

  lemma {:induction false} Exhausted(ls: seq<nat>, s: seq<bit>, cnt: nat, bs: seq<byte>, rem: nat, c: Cursor)
    requires Walking(ls, s, cnt, bs, rem, c) && c.len == MAXBITS + 1 && Bounded(ls)
    ensures MAXBITS <= |s| && forall i: nat :: !Matches(ls, i, s)
  {
    NoneMatches(ls, s, MAXBITS + 1);
  }

  // ---- the tables ----

  /** One byte of a repeated list: a count above, a code length below. */
  function Repeated(b: byte): seq<nat> {
    seq(b / 16 + 1, _ => b % 16)
  }

  /** The code lengths that rep stands for. */
  function Expand(rep: seq<byte>): seq<nat> {
    if rep == [] then [] else Expand(rep[..|rep| - 1]) + Repeated(rep[|rep| - 1])
  }

  lemma {:induction false} ExpandFirst(rep: seq<byte>, i: nat)
    requires i < |rep|
    ensures Expand(rep[..i + 1]) == Expand(rep[..i]) + Repeated(rep[i])
  {
    assert rep[..i + 1][..i] == rep[..i];
  }

  lemma {:induction false} ExpandGrows(rep: seq<byte>, i: nat)
    requires i <= |rep|
    ensures |Expand(rep[..i])| <= |Expand(rep)|
    decreases |rep| - i
  {
    if i < |rep| {
      ExpandFirst(rep, i);
      ExpandGrows(rep, i + 1);
    } else {
      assert rep[..i] == rep;
    }
  }

  lemma ExpandNone()
    ensures Expand([]) == []
  {
  }

  method Lengths(rep: seq<byte>) returns (length: array<nat>, n: nat)
    requires |rep| > 0 && |Expand(rep)| <= 256
    ensures fresh(length) && n <= length.Length && length[..n] == Expand(rep)
  {
    hide Expand;
    ExpandNone();
    length := new nat[256](_ => 0);
    n := 0;
    var k := 0;
    assert rep[..k] == [];
    while k < |rep|
      invariant k <= |rep| && n <= 256 && length[..n] == Expand(rep[..k])
    {
      ExpandFirst(rep, k);
      ExpandGrows(rep, k + 1);
      var len, left := rep[k] % 16, rep[k] / 16 + 1;
      ghost var done := Expand(rep[..k]);
      while left > 0
        invariant 0 <= left <= rep[k] / 16 + 1
        invariant n + left == |Expand(rep[..k + 1])|
        invariant length[..n] == done + seq(rep[k] / 16 + 1 - left, _ => len)
      {
        length[n] := len;
        n, left := n + 1, left - 1;
      }
      assert length[..n] == Expand(rep[..k + 1]);
      k := k + 1;
    }
    assert rep[..k] == rep;
  }

  /** The code-space check: the first negative remainder, or the last one. */
  ghost function Check(ls: seq<nat>, l: nat): int
    requires l <= MAXBITS + 1
    decreases MAXBITS + 1 - l
  {
    if l == MAXBITS + 1 then Left(ls, MAXBITS)
    else if Left(ls, l) < 0 then Left(ls, l)
    else Check(ls, l + 1)
  }

  ghost function Verdict(ls: seq<nat>): int {
    if Count(ls, 0) == |ls| then 0 else Check(ls, 1)
  }

  lemma {:induction false} AllZero(ls: seq<nat>)
    requires Count(ls, 0) == |ls|
    ensures forall i :: 0 <= i < |ls| ==> ls[i] == 0
  {
    if ls != [] {
      AllZero(ls[..|ls| - 1]);
    }
  }

  /** Where the next symbol of length l goes when i symbols are done. */
  ghost function Offset(ls: seq<nat>, i: nat, l: nat): nat
    requires i <= |ls|
  {
    Index(ls, l) + Count(ls[..i], l)
  }

  lemma IndexNext(ls: seq<nat>, l: nat)
    requires l >= 1
    ensures Index(ls, 1) == 0 && Index(ls, l + 1) == Index(ls, l) + Count(ls, l)
  {
  }

  lemma OffsetsOf(ls: seq<nat>)
    ensures Index(ls, 1) == 0 && forall l :: Offset(ls, 0, l) == Index(ls, l)
  {
  }

  lemma OffsetStep(ls: seq<nat>, i: nat)
    requires i < |ls|
    ensures forall l :: Offset(ls, i + 1, l) == Offset(ls, i, l) + if ls[i] == l then 1 else 0
  {
    assert ls[..i + 1][..i] == ls[..i];
  }

  lemma {:induction false} PlaceOf(ls: seq<nat>, i: nat)
    requires i < |ls| && 0 < ls[i] <= MAXBITS
    ensures Place(ls, i) == Offset(ls, i, ls[i]) < Index(ls, MAXBITS + 1)
    ensures forall j :: 0 <= j < i && ls[j] > 0 ==> Place(ls, j) != Place(ls, i)
  {
    PlaceInRange(ls, i);
    forall j | 0 <= j < i && ls[j] > 0 ensures Place(ls, j) != Place(ls, i) {
      PlaceIsStable(ls, j, i);
    }
  }

  lemma {:induction false} PlaceInRange(ls: seq<nat>, i: nat)
    requires i < |ls| && 0 < ls[i] <= MAXBITS
    ensures Place(ls, i) < Index(ls, MAXBITS + 1)
  {
    RankBelowCount(ls, i);
    IndexGrows(ls, ls[i], MAXBITS + 1);
  }

  class Table {
    const count: array<nat>
    const symbol: array<nat>

    constructor (n: nat)
      ensures fresh(this) && fresh(count) && fresh(symbol) && count.Length == MAXBITS + 1 && symbol.Length == n
      ensures count != symbol
    {
      count := new nat[MAXBITS + 1](_ => 0);
      symbol := new nat[n](_ => 0);
    }

    /** The tables of the code with lengths ls. */
    ghost predicate Describes(ls: seq<nat>)
      reads this, count, symbol
    {
      && Bounded(ls) && count != symbol && count.Length == MAXBITS + 1
      && (forall l :: 0 <= l <= MAXBITS ==> count[l] == Count(ls, l))
      && Index(ls, MAXBITS + 1) <= symbol.Length
      && Placed(ls, |ls|)
    }

    /** Fill both tables for the code lengths that rep repeats; the result is
        negative for too many codes, zero for a complete set, positive for an
        incomplete one. */
    method Construct(rep: seq<byte>) returns (left: int)
      requires |rep| > 0 && Bounded(Expand(rep)) && |Expand(rep)| <= 256
      requires count != symbol && count.Length == MAXBITS + 1 && Index(Expand(rep), MAXBITS + 1) <= symbol.Length
      modifies count, symbol
      ensures left == Verdict(Expand(rep))
      ensures left >= 0 ==> Describes(Expand(rep))
    {
      var length, n := Lengths(rep);
      ghost var ls := Expand(rep);
      CountSymbols(length, n, ls);
      if count[0] == n {
        AllZero(ls);
        return 0;
      }
      left := 1;
      for len := 1 to MAXBITS + 1
        invariant left == Left(ls, len - 1) && Verdict(ls) == Check(ls, len)
      {
        left := 2 * left - count[len];
        if left < 0 {
          return left;
        }
      }
      SortSymbols(length, n, ls);
    }

    method CountSymbols(length: array<nat>, n: nat, ghost ls: seq<nat>)
      requires n <= length.Length && length[..n] == ls && Bounded(ls)
      requires count.Length == MAXBITS + 1 && length != count
      modifies count
      ensures forall l :: 0 <= l <= MAXBITS ==> count[l] == Count(ls, l)
    {
      for len := 0 to MAXBITS + 1
        invariant forall l :: 0 <= l < len ==> count[l] == 0
      {
        count[len] := 0;
      }
      for sym := 0 to n
        invariant length[..n] == ls
        invariant forall l :: 0 <= l <= MAXBITS ==> count[l] == Count(ls[..sym], l)
      {
        assert ls[..sym + 1][..sym] == ls[..sym] && length[sym] == ls[sym];
        count[length[sym]] := count[length[sym]] + 1;
      }
      assert ls[..n] == ls;
    }

    method Offsets(ghost ls: seq<nat>) returns (offs: array<nat>)
      requires count.Length == MAXBITS + 1 && forall l :: 0 <= l <= MAXBITS ==> count[l] == Count(ls, l)
      ensures fresh(offs) && offs.Length == MAXBITS + 1
      ensures forall l :: 1 <= l <= MAXBITS ==> offs[l] == Offset(ls, 0, l)
    {
      hide Index, Count, Offset;
      offs := new nat[MAXBITS + 1](_ => 0);
      OffsetsOf(ls);
      for len := 1 to MAXBITS
        invariant forall l :: 1 <= l <= len ==> offs[l] == Index(ls, l)
      {
        IndexNext(ls, len);
        offs[len + 1] := offs[len] + count[len];
      }
    }

    method SortSymbols(length: array<nat>, n: nat, ghost ls: seq<nat>)
      requires n <= length.Length && length[..n] == ls && Bounded(ls)
      requires count.Length == MAXBITS + 1 && count != symbol && length != symbol
      requires forall l :: 0 <= l <= MAXBITS ==> count[l] == Count(ls, l)
      requires Index(ls, MAXBITS + 1) <= symbol.Length
      modifies symbol
      ensures Placed(ls, n)
    {
      hide Index, Place, Rank, Count, Offset;
      var offs := Offsets(ls);
      for sym := 0 to n
        invariant forall l :: 1 <= l <= MAXBITS ==> offs[l] == Offset(ls, sym, l)
        invariant Placed(ls, sym)
      {
        var len := length[sym];
        assert len == ls[sym];
        OffsetStep(ls, sym);
        if len != 0 {
          PlaceOf(ls, sym);
          symbol[offs[len]] := sym;
          assert Placed(ls, sym + 1);
          offs[len] := offs[len] + 1;
        }
      }
    }

    /** The first n symbols are in place. */
    ghost predicate Placed(ls: seq<nat>, n: nat)
      reads symbol
    {
      n <= |ls| && forall j :: 0 <= j < n && ls[j] > 0 ==>
        Place(ls, j) < symbol.Length && symbol[Place(ls, j)] == j
    }

    lemma BoundedBy(ls: seq<nat>)
      requires Describes(ls)
      ensures Bounded(ls)
    {
    }

    lemma CountAt(ls: seq<nat>, l: nat)
      requires Describes(ls) && l <= MAXBITS
      ensures count.Length == MAXBITS + 1 && count[l] == Count(ls, l)
    {
    }

    lemma SymbolAt(ls: seq<nat>, i: nat)
      requires Describes(ls) && i < |ls| && ls[i] > 0
      ensures Place(ls, i) < symbol.Length && symbol[Place(ls, i)] == i
    {
    }

    /** Step through the left buffered bits; Some(i) when they end the code
        of symbol i. */
    method Drain(s: Input, c0: Cursor, left0: nat, ghost ls: seq<nat>, ghost S: seq<bit>, ghost rem: nat)
      returns (r: Option<nat>, c: Cursor)
      requires s.Valid() && Describes(ls) && Walking(ls, S, s.bitcnt, s.Bytes(), rem, c0)
      requires left0 <= rem && c0.len + left0 <= MAXBITS + 1
      modifies s`bitbuf, s`bitcnt
      ensures match r
        case Some(i) => Matches(ls, i, S) && s.Valid() && s.Stream() == S[ls[i]..]
        case None => s.bitcnt == old(s.bitcnt) && s.bitbuf == old(s.bitbuf) && c.len == c0.len + left0 &&
                     Walking(ls, S, s.bitcnt, s.Bytes(), rem - left0, c)
    {
      hide *;
      var left := left0;
      c := c0;
      while left > 0
        invariant s.bitcnt == old(s.bitcnt) && s.bitbuf == old(s.bitbuf) && 0 <= left <= left0 && c.len + left == c0.len + left0
        invariant Walking(ls, S, s.bitcnt, s.Bytes(), rem - (left0 - left), c)
      {
        ghost var now := rem - (left0 - left);
        var read := c.code + 1 - c.bitbuf % 2;
        CountAt(ls, c.len);
        var n := count[c.len];
        if read < c.first + n {
          var i := Found(s, c, ls, S, now, read);
          return Some(i), c;
        }
        Miss(ls, S, s.bitcnt, s.Bytes(), now, c, read);
        c := Cursor(c.bitbuf / 2, 2 * read, 2 * (c.first + n), c.index + n, c.len + 1);
        left := left - 1;
      }
      r := None;
    }

    /** The code read so far is that of a symbol: leave what follows it. */
    method Found(s: Input, c: Cursor, ghost ls: seq<nat>, ghost S: seq<bit>, ghost now: nat, read: nat) returns (i: nat)
      requires Describes(ls) && Walking(ls, S, s.bitcnt, s.Bytes(), now, c) && now > 0 && c.len <= MAXBITS
      requires read == c.code + 1 - c.bitbuf % 2 && read < c.first + Count(ls, c.len)
      modifies s`bitbuf, s`bitcnt
      ensures Matches(ls, i, S) && s.Valid() && s.Stream() == S[ls[i]..]
    {
      hide *;
      ghost var j := Hit(ls, S, s.bitcnt, s.Bytes(), now, c, read);
      SymbolAt(ls, j);
      s.Leave(c.bitbuf / 2, c.len, now - 1);
      i := symbol[c.index + (read - c.first)];
    }

    /** Decode one symbol.  Short stands for running out of input, Invalid for
        MAXBITS bits that are no code. */
    method Decode(s: Input, ghost ls: seq<nat>) returns (r: Decoded)
      requires s.Valid() && Describes(ls)
      modifies s
      ensures match r
        case Symbol(i) => Matches(ls, i, old(s.Stream())) && s.Valid() && s.Stream() == old(s.Stream())[ls[i]..]
        case Short => |old(s.Stream())| < MAXBITS && forall i :: !Matches(ls, i, old(s.Stream()))
        case Invalid => MAXBITS <= |old(s.Stream())| && forall i :: !Matches(ls, i, old(s.Stream()))
    {
      hide BitsOf, ByteBits, Delivered, Pow2, Count, Rank, Inverted, First, Index, Walking, NoneBelow;
      hide Bounded, Describes, Place, Matches, Code;
      ghost var S := s.Stream();
      Begin(ls, s.Bytes(), s.bitbuf, s.bitcnt);
      var c, left: nat := Cursor(s.bitbuf, 0, 0, 0, 1), s.bitcnt;
      ghost var rem: nat := left;
      while true
        invariant s.bitcnt == old(s.bitcnt) < 8 && s.bitbuf == old(s.bitbuf)
        invariant left <= rem && c.len + left <= MAXBITS + 1 && (left == rem || c.len + left == MAXBITS + 1)
        invariant Walking(ls, S, s.bitcnt, s.Bytes(), rem, c)
        decreases MAXBITS + 1 - c.len, if left > 0 then 0 else 1
      {
        var r;
        r, c := Drain(s, c, left, ls, S, rem);
        if r.Some? {
          return Symbol(r.value);
        }
        rem := rem - left;
        left := MAXBITS + 1 - c.len;
        if left == 0 {
          break;
        }
        Refill(ls, S, s.bitcnt, s.Bytes(), c);
        var got, b := s.NextByte();
        if !got {
          return Short;
        }
        c, rem := c.(bitbuf := b), 8;
        if left > 8 {
          left := 8;
        }
      }
      BoundedBy(ls);
      Exhausted(ls, S, s.bitcnt, s.Bytes(), rem, c);
      return Invalid;
    }
  }

  datatype Decoded = Symbol(sym: nat) | Short | Invalid
}
