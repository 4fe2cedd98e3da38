/**
 The archive as a stream: cpio writes it in blocks of one size and reads it in
 blocks of another, from devices that may take or give less than asked for.
 */
module BlockStream {
  import opened Basics

  method Memcpy(dst: array<byte>, at: nat, data: seq<byte>)
    requires at + |data| <= dst.Length
    modifies dst
    ensures dst[..] == old(dst[..at]) + data + old(dst[at + |data|..])
    ensures dst[..at + |data|] == old(dst[..at]) + data
  {
    ghost var b := dst[..];
    for i := 0 to |data|
      invariant forall j :: 0 <= j < dst.Length ==> dst[j] == if at <= j < at + i then data[j - at] else b[j]
    {
      dst[at + i] := data[i];
    }
    assert dst[..at + |data|] == b[..at] + data;
  }

  class Output {
    const blksiz: nat
    const blkbuf: array<byte>
    var curpos: nat
    var nwritten: nat
    var device: seq<byte>

    ghost predicate Valid()
      reads this`curpos, this`device
    {
      blksiz > 0 && blkbuf.Length == blksiz && curpos <= blksiz && |device| % blksiz == 0
    }

    /** Everything written so far. */
    ghost function Stream(): seq<byte>
      reads this`curpos, this`device, blkbuf
      requires Valid()
    {
      device + blkbuf[..curpos]
    }

    constructor (blksiz: nat)
      requires blksiz > 0
      ensures Valid() && Stream() == [] && nwritten == 0 && this.blksiz == blksiz && fresh(blkbuf)
    {
      this.blksiz := blksiz;
      blkbuf := new byte[blksiz](_ => 0);
      curpos, nwritten, device := 0, 0, [];
    }

    /** mwrite: the whole buffer, however little one write takes. */
    method MWrite()
      requires blksiz > 0 && blkbuf.Length == blksiz && |device| % blksiz == 0
      modifies this`device
      ensures device == old(device) + blkbuf[..] && |device| % blksiz == 0
    {
      var wt: nat := 0;
      while wt < blksiz
        invariant wt <= blksiz && device == old(device) + blkbuf[..wt]
      {
        var wo: nat :| 0 < wo <= blksiz - wt;
        device := device + blkbuf[wt..wt + wo];
        wt := wt + wo;
      }
      OneMore(|old(device)|, blksiz);
    }

    /** bwrite. */
    method BWrite(data0: seq<byte>)
      requires Valid()
      modifies this`curpos, this`nwritten, this`device, blkbuf
      ensures Valid() && Stream() == old(Stream()) + data0 && nwritten == old(nwritten) + |data0|
    {
      var data := data0;
      nwritten := nwritten + |data|;
      hide Stream;
      while curpos + |data| > blksiz
        invariant Valid() && nwritten == old(nwritten) + |data0|
        invariant Stream() + data == old(Stream()) + data0
        decreases |data|, curpos
      {
        var di := blksiz - curpos;
        ghost var before := Stream();
        Append(data[..di]);
        MWriteFull();
        assert before + data == before + data[..di] + data[di..];
        data := data[di..];
      }
      Append(data);
    }

    /** memcpy of what fits into the buffer. */
    method Append(data: seq<byte>)
      requires Valid() && curpos + |data| <= blksiz
      modifies this`curpos, blkbuf
      ensures Valid() && Stream() == old(Stream()) + data && curpos == old(curpos) + |data|
    {
      Memcpy(blkbuf, curpos, data);
      curpos := curpos + |data|;
    }

    method MWriteFull()
      requires Valid() && curpos == blksiz
      modifies this`curpos, this`device
      ensures Valid() && Stream() == old(Stream()) && curpos == 0
    {
      assert blkbuf[..curpos] == blkbuf[..];
      MWrite();
      curpos := 0;
    }

    /** bflush: the rest of the last block is zero. */
    method BFlush()
      requires Valid()
      modifies this`curpos, this`device, blkbuf
      ensures Valid() && curpos == 0 && device == old(Stream()) + Zeros(|device| - |old(Stream())|)
      ensures 0 <= |device| - |old(Stream())| < blksiz
    {
      if curpos > 0 {
        ghost var n, before := blksiz - curpos, Stream();
        Memcpy(blkbuf, curpos, Zeros(blksiz - curpos));
        assert blkbuf[..] == blkbuf[..curpos] + Zeros(n);
        MWrite();
        assert device == before + Zeros(n);
      }
      curpos := 0;
    }
  }

  function Zeros(n: int): (s: seq<byte>)
    ensures |s| == if n < 0 then 0 else n
  {
    seq(if n < 0 then 0 else n, _ => 0)
  }

  lemma OneMore(n: nat, m: nat)
    requires m > 0 && n % m == 0
    ensures (n + m) % m == 0
  {
    var k := n / m;
    assert n + m == (k + 1) * m;
    Times(k + 1, m);
  }

  lemma Times(k: nat, m: nat)
    requires m > 0
    ensures (k * m) % m == 0
  {
    var q, r := (k * m) / m, (k * m) % m;
    assert (k - q) * m == r;
    Small(k - q, m);
  }

  lemma Small(d: int, m: int)
    requires m >= 0
    ensures d >= 1 ==> d * m >= m
    ensures d <= -1 ==> d * m <= -m
  {
  }

  class Input {
    const tape: seq<byte>
    const fixed: bool
    const blkbuf: array<byte>
    var blksiz: nat
    var tapeblock: int
    var poffs: nat
    var blktop: nat
    var curpos: nat
    var ended: bool
    var peek: seq<byte>
    var aoffs: int

    ghost predicate Valid()
      reads this`blksiz, this`blktop, this`curpos, this`poffs, this`ended
    {
      0 < blksiz <= blkbuf.Length && curpos <= blktop <= blkbuf.Length && poffs <= |tape| &&
      (ended ==> poffs == |tape|)
    }

    /** Everything still to be read. */
    ghost function Ahead(): seq<byte>
      reads this`peek, this`blksiz, this`blktop, this`curpos, this`poffs, this`ended, blkbuf
      requires Valid()
    {
      peek + blkbuf[curpos..blktop] + tape[poffs..]
    }

    constructor (tape: seq<byte>, blksiz: nat, tapeblock: int, fixed: bool)
      requires blksiz > 0
      ensures Valid() && Ahead() == tape && peek == [] && aoffs == 0 && fresh(blkbuf)
    {
      this.tape, this.blksiz, this.tapeblock, this.fixed := tape, blksiz, tapeblock, fixed;
      blkbuf := new byte[blksiz](_ => 0);
      poffs, blktop, curpos, ended, peek, aoffs := 0, 0, 0, false, [], 0;
    }

    /** read(2): some bytes, and none only at the end. */
    method ReadSome(rt: nat, ghost at: nat) returns (ro: nat)
      requires rt < blksiz <= blkbuf.Length && at <= poffs <= |tape| && blkbuf[..rt] == tape[at..poffs]
      modifies this`poffs, blkbuf
      ensures ro <= blksiz - rt && poffs == old(poffs) + ro <= |tape| && (ro == 0 ==> poffs == |tape|)
      ensures blkbuf[..rt + ro] == tape[at..poffs]
    {
      ro :| ro <= blksiz - rt && poffs + ro <= |tape| && (ro == 0 ==> poffs == |tape|);
      Glue(tape, at, poffs, poffs + ro);
      Memcpy(blkbuf, rt, tape[poffs..poffs + ro]);
      poffs := poffs + ro;
    }

    /** mread: fill the buffer, in as many reads as it takes; on a tape the
        first read tells the block size. */
    method MRead()
      requires Valid() && curpos == blktop && !ended
      modifies this`blksiz, this`tapeblock, this`poffs, this`blktop, this`curpos, this`ended, blkbuf
      ensures Valid() && Ahead() == old(Ahead())
      ensures ended || poffs > old(poffs)
    {
      ghost var at := poffs;
      curpos, blktop := 0, 0;
      blktop := Fill(at);
      Glue(tape, at, poffs, |tape|);
      assert peek + tape[at..] == peek + blkbuf[..blktop] + tape[poffs..];
    }

    /** The loop of mread. */
    method Fill(ghost at: nat) returns (rt: nat)
      requires Valid() && curpos == blktop == 0 && !ended && at == poffs
      modifies this`blksiz, this`tapeblock, this`poffs, this`ended, blkbuf
      ensures Valid() && rt <= blkbuf.Length && poffs == at + rt && blkbuf[..rt] == tape[at..poffs]
      ensures ended || poffs > at
    {
      rt := 0;
      while rt < blksiz
        invariant Valid() && rt <= blkbuf.Length && curpos == blktop == 0
        invariant poffs == at + rt && blkbuf[..rt] == tape[at..poffs] && !ended
        decreases |tape| - poffs
      {
        var ro := ReadSome(rt, at);
        if ro == 0 {
          ended := true;
          break;
        }
        rt := rt + ro;
        if tapeblock == 0 {
          tapeblock := ro;
          if !fixed {
            blksiz := ro;
          }
        }
      }
    }

    /** Up to sz bytes that are in the buffer. */
    method Take(sz: nat) returns (part: seq<byte>)
      requires Valid() && peek == []
      modifies this`curpos
      ensures Valid() && old(Ahead()) == part + Ahead() && |part| == Least(sz, old(blktop - curpos))
      ensures |part| < sz ==> curpos == blktop
    {
      var rd := Least(sz, blktop - curpos);
      part := blkbuf[curpos..curpos + rd];
      curpos := curpos + rd;
      assert part + blkbuf[curpos..blktop] == blkbuf[curpos - rd..blktop];
    }

    /** Up to sz bytes that were given back. */
    method TakeBack(sz: nat) returns (part: seq<byte>)
      requires Valid()
      modifies this`peek
      ensures Valid() && old(Ahead()) == part + Ahead() && |part| == Least(sz, |old(peek)|)
      ensures |part| < sz || old(peek) == [] ==> peek == []
    {
      var rd := Least(sz, |peek|);
      part := peek[..rd];
      ghost var rest := blkbuf[curpos..blktop];
      assert peek + rest + tape[poffs..] == part + (peek[rd..] + rest + tape[poffs..]);
      peek := peek[rd..];
    }

    /** bread: sz bytes, or all that is left. */
    method BRead(sz0: nat) returns (data: seq<byte>)
      requires Valid()
      modifies this`blksiz, this`tapeblock, this`poffs, this`blktop, this`curpos, this`ended, this`peek, this`aoffs, blkbuf
      ensures Valid() && data + Ahead() == old(Ahead()) && |data| == Least(sz0, |old(Ahead())|)
      ensures aoffs == old(aoffs) + |data| && (old(peek) == [] ==> peek == [])
    {
      hide Ahead;
      ghost var all := Ahead();
      data := TakeBack(sz0);
      var sz := sz0 - |data|;
      while sz > 0
        invariant Valid() && data + Ahead() == all && sz >= 0 && |data| + sz == sz0 && (sz > 0 ==> peek == [])
        invariant aoffs == old(aoffs) && (old(peek) == [] ==> peek == [])
        decreases !ended, |tape| - poffs, sz
      {
        ghost var got := data;
        var part := Take(sz);
        data, sz := data + part, sz - |part|;
        assert got + (part + Ahead()) == data + Ahead();
        if sz == 0 {
          break;
        }
        if ended {
          NothingLeft();
          break;
        }
        MRead();
      }
      assert |all| == |data| + |Ahead()|;
      aoffs := aoffs + |data|;
    }

    lemma NothingLeft()
      requires Valid() && ended && curpos == blktop && peek == []
      ensures Ahead() == []
    {
    }

    /** bunread, with nothing else given back. */
    method BUnread(data: seq<byte>)
      requires Valid() && peek == []
      modifies this`peek, this`aoffs
      ensures Valid() && Ahead() == data + old(Ahead()) && aoffs == old(aoffs) - |data|
    {
      ghost var before := Ahead();
      peek, aoffs := data, aoffs - |data|;
      assert Ahead() == data + before;
    }
  }

  lemma Glue<T>(t: seq<T>, a: nat, b: nat, c: nat)
    requires a <= b <= c <= |t|
    ensures t[a..b] + t[b..c] == t[a..c]
  {
  }

  function Least(a: nat, b: nat): nat {
    if a < b then a else b
  }
}
