/**
 The input side of the PKWare DCL decompressor: bits taken from bytes that a
 caller-supplied function delivers in chunks of any size.
 */
module BitStream {
  import opened Basics

  type bit = x: int | 0 <= x < 2

  function Pow2(n: nat): (p: nat)
    ensures p >= 1
  {
    if n == 0 then 1 else 2 * Pow2(n - 1)
  }

  /** The low n bits of v, least significant first. */
  function BitsOf(v: nat, n: nat): (s: seq<bit>)
    ensures |s| == n
  {
    if n == 0 then [] else [v % 2] + BitsOf(v / 2, n - 1)
  }

  /** The number written least significant bit first. */
  function Value(s: seq<bit>): nat {
    if s == [] then 0 else s[0] + 2 * Value(s[1..])
  }

  function ByteBits(bs: seq<byte>): (s: seq<bit>)
    ensures |s| == 8 * |bs|
  {
    if bs == [] then [] else BitsOf(bs[0], 8) + ByteBits(bs[1..])
  }

  /** What the input function delivers in all: an empty chunk ends the input. */
  function Delivered(chunks: seq<seq<byte>>): seq<byte> {
    if chunks == [] || chunks[0] == [] then [] else chunks[0] + Delivered(chunks[1..])
  }

  // ---- shifts on non-negative numbers ----

  function Shl(v: nat, n: nat): nat {
    if n == 0 then v else 2 * Shl(v, n - 1)
  }

  function Shr(v: nat, n: nat): nat {
    if n == 0 then v else Shr(v / 2, n - 1)
  }

  /** The low n bits: v & ((1 << n) - 1). */
  function Low(v: nat, n: nat): nat {
    if n == 0 then 0 else v % 2 + 2 * Low(v / 2, n - 1)
  }

  /** New bits go on top of the old ones; the sum has no carries, so it is the
      bitwise or. */
  lemma {:induction false} BitsOnTop(v: nat, n: nat, b: nat, m: nat)
    requires v < Pow2(n) && b < Pow2(m)
    ensures BitsOf(v + Shl(b, n), n + m) == BitsOf(v, n) + BitsOf(b, m)
    ensures v + Shl(b, n) < Pow2(n + m)
  {
    if n > 0 {
      BitsOnTop(v / 2, n - 1, b, m);
    }
  }

  lemma {:induction false} AbsorbByte(v: nat, n: nat, bs: seq<byte>)
    requires v < Pow2(n) && |bs| > 0
    ensures v + Shl(bs[0], n) < Pow2(n + 8)
    ensures BitsOf(v + Shl(bs[0], n), n + 8) + ByteBits(bs[1..]) == BitsOf(v, n) + ByteBits(bs)
  {
    hide *;
    Octet(bs);
    BitsOnTop(v, n, bs[0], 8);
    Regrouped(BitsOf(v, n), BitsOf(bs[0], 8), ByteBits(bs[1..]));
  }

  lemma Octet(bs: seq<byte>)
    requires |bs| > 0
    ensures Pow2(8) == 256 && ByteBits(bs) == BitsOf(bs[0], 8) + ByteBits(bs[1..])
  {
  }

  lemma Regrouped<T>(a: seq<T>, b: seq<T>, c: seq<T>)
    ensures a + b + c == a + (b + c)
  {
  }

  /** Dropping bits from the bottom. */
  lemma {:induction false} BitsSplit(v: nat, n: nat, k: nat)
    requires k <= n && v < Pow2(n)
    ensures BitsOf(v, n) == BitsOf(v, k) + BitsOf(Shr(v, k), n - k)
    ensures Value(BitsOf(v, k)) == Low(v, k) && Shr(v, k) < Pow2(n - k)
  {
    if k > 0 {
      BitsSplit(v / 2, n - 1, k - 1);
      assert BitsOf(v, k)[1..] == BitsOf(v / 2, k - 1);
    }
  }

  lemma {:induction false} ValueBound(s: seq<bit>)
    ensures Value(s) < Pow2(|s|)
  {
    if s != [] {
      ValueBound(s[1..]);
    }
  }

  // ---- the reader ----

  class Input {
    var chunks: seq<seq<byte>>
    var buf: seq<byte>
    var bitbuf: nat
    var bitcnt: nat

    ghost predicate Valid()
      reads this
    {
      bitcnt < 8 && bitbuf < Pow2(bitcnt)
    }

    /** Bytes not yet moved to the bit buffer. */
    ghost function Bytes(): seq<byte>
      reads this`buf, this`chunks
    {
      buf + Delivered(chunks)
    }

    /** All bits still to come. */
    ghost function Stream(): seq<bit>
      reads this
    {
      BitsOf(bitbuf, bitcnt) + ByteBits(Bytes())
    }

    constructor (chunks: seq<seq<byte>>)
      ensures Valid() && Stream() == ByteBits(Delivered(chunks))
    {
      this.chunks, buf, bitbuf, bitcnt := chunks, [], 0, 0;
      new;
      assert Bytes() == Delivered(chunks);
    }

    /** The next byte, from a new chunk when the present one is used up. */
    method NextByte() returns (ok: bool, b: byte)
      modifies `chunks, `buf
      ensures ok == (|old(Bytes())| > 0)
      ensures ok ==> Bytes() == old(Bytes())[1..] && b == old(Bytes())[0]
      ensures !ok ==> Bytes() == old(Bytes())
    {
      b := 0;
      if buf == [] {
        if chunks != [] {
          buf, chunks := chunks[0], if chunks[0] == [] then [] else chunks[1..];
        }
        if buf == [] {
          return false, 0;
        }
      }
      b, buf := buf[0], buf[1..];
      ok := true;
    }

    /** After used bits were taken apart from bitbuf, keep the rest. */
    method Leave(rest: nat, used: nat, ghost rem: int)
      requires rem == (bitcnt - used) % 8 && rest < Pow2(rem)
      modifies `bitbuf, `bitcnt
      ensures Valid() && Stream() == BitsOf(rest, rem) + ByteBits(Bytes())
    {
      bitbuf := rest;
      bitcnt := (bitcnt - used) % 8;
    }

    /** need bits from the stream; ok is false where the original jumps out
        because the input is exhausted. */
    method Bits(need: nat) returns (ok: bool, val: nat)
      requires Valid()
      modifies this
      ensures ok == (need <= |old(Stream())|)
      ensures ok ==> Valid() && val == Value(old(Stream())[..need]) && Stream() == old(Stream())[need..]
    {
      hide BitsOf, Pow2, Shl, Shr, Low, Value, ByteBits, Delivered;
      val := bitbuf;
      ghost var s := Stream();
      while bitcnt < need
        invariant val < Pow2(bitcnt) && (bitcnt < 8 || bitcnt < need + 8)
        invariant BitsOf(val, bitcnt) + ByteBits(Bytes()) == s
        decreases |Bytes()|
      {
        ghost var bs := Bytes();
        var got, b := NextByte();
        if !got {
          return false, 0;
        }
        AbsorbByte(val, bitcnt, bs);
        val := val + Shl(b, bitcnt);
        bitcnt := bitcnt + 8;
      }
      BitsSplit(val, bitcnt, need);
      assert s[..need] == BitsOf(val, need);
      bitbuf := Shr(val, need);
      bitcnt := bitcnt - need;
      assert s[need..] == Stream();
      return true, Low(val, need);
    }
  }
}
