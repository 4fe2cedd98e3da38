/**
 The output side of the decompressor: a window of MAXWIN bytes that is handed
 to the caller each time it is full.
 */
module Window {
  import opened Basics

  const MAXWIN: nat := 4096

  /** len bytes, each the one dist places back. */
  ghost function Copied(h: seq<byte>, dist: nat, len: nat): (r: seq<byte>)
    requires 1 <= dist <= |h|
    ensures |r| == |h| + len && h <= r
    decreases len
  {
    if len == 0 then h else Copied(h + [h[|h| - dist]], dist, len - 1)
  }

  lemma {:induction false} CopiedSplit(h: seq<byte>, dist: nat, a: nat, b: nat)
    requires 1 <= dist <= |h|
    ensures Copied(h, dist, a + b) == Copied(Copied(h, dist, a), dist, b)
    decreases a
  {
    if a > 0 {
      CopiedSplit(h + [h[|h| - dist]], dist, a - 1, b);
    }
  }

  lemma {:induction false} CopiedLast(h: seq<byte>, dist: nat, a: nat)
    requires 1 <= dist <= |h|
    ensures var r := Copied(h, dist, a); Copied(h, dist, a + 1) == r + [r[|r| - dist]]
  {
    CopiedSplit(h, dist, a, 1);
  }

  /** Behind h every byte equals the one dist places before it, including
      bytes that the same copy has produced. */
  lemma {:induction false} CopiedAt(h: seq<byte>, dist: nat, len: nat, i: nat)
    requires 1 <= dist <= |h| <= i < |h| + len
    ensures Copied(h, dist, len)[i] == Copied(h, dist, len)[i - dist]
    decreases len
  {
    var b := h + [h[|h| - dist]];
    if i == |h| {
      assert b <= Copied(b, dist, len - 1);
    } else {
      CopiedAt(b, dist, len - 1, i);
    }
  }

  /** From place from on, every byte of g equals the one d places before it. */
  ghost predicate Repeats(g: seq<byte>, from: nat, d: nat)
    requires 1 <= d <= from
  {
    forall i :: from <= i < |g| ==> g[i] == g[i - d]
  }

  /** What CopiedAt says fixes the whole output. */
  lemma {:induction false} CopiedIs(h: seq<byte>, d: nat, n: nat, g: seq<byte>)
    requires 1 <= d <= |h| && |g| == |h| + n && h <= g && Repeats(g, |h|, d)
    ensures Copied(h, d, n) == g
    decreases n
  {
    if n > 0 {
      assert h + [h[|h| - d]] <= g;
      CopiedIs(h + [h[|h| - d]], d, n - 1, g);
    }
  }

  lemma CopiedNone(h: seq<byte>, dist: nat)
    requires 1 <= dist <= |h|
    ensures Copied(h, dist, 0) == h
  {
  }

  class Output {
    const out: array<byte>
    var next: nat
    var first: bool
    /** what the output function has received so far */
    var written: seq<byte>
    /** how many more calls it accepts */
    var room: nat

    ghost predicate Aligned()
      reads this
    {
      next <= MAXWIN && |written| % MAXWIN == 0 && (first <==> written == [])
    }

    /** Behind next the window still holds the block written last. */
    ghost predicate Older(from: nat)
      reads this, out
    {
      out.Length == MAXWIN && Aligned() && from <= MAXWIN &&
      (first || (|written| >= MAXWIN && out[from..] == written[|written| - MAXWIN + from..]))
    }

    ghost predicate Valid()
      reads this, out
    {
      next < MAXWIN && Older(next)
    }

    /** All bytes produced so far. */
    ghost function History(): seq<byte>
      reads this, out
      requires out.Length == MAXWIN && next <= MAXWIN
    {
      written + out[..next]
    }

    constructor (room: nat)
      ensures Valid() && History() == [] && this.room == room && fresh(out) && written == []
    {
      out := new byte[MAXWIN](_ => 0);
      next, first, written, this.room := 0, true, [], room;
    }

    /** Hand over the full window. */
    method Flush() returns (failed: bool)
      requires out.Length == MAXWIN && next == MAXWIN && Aligned()
      modifies this
      ensures failed <==> old(room) == 0
      ensures !failed ==> Valid() && History() == old(History()) && room == old(room) - 1 &&
                          |written| == |old(written)| + MAXWIN
      ensures failed ==> written == old(written) && room == 0
    {
      if room == 0 {
        return true;
      }
      room := room - 1;
      written := written + out[..next];
      next := 0;
      first := false;
      failed := false;
    }

    method Put(b: byte) returns (failed: bool)
      requires Valid()
      modifies this, out
      ensures !failed ==> Valid() && History() == old(History()) + [b] &&
                          room * MAXWIN + |written| == old(room) * MAXWIN + |old(written)|
      ensures failed ==> room == 0 == old(room) && written == old(written) &&
                         |old(History())| + 1 == |written| + MAXWIN && written <= old(History())
    {
      Store(b);
      hide Older, History;
      failed := false;
      if next == MAXWIN {
        failed := Flush();
      }
    }

    method Store(b: byte)
      requires Valid()
      modifies this`next, out
      ensures next == old(next) + 1 <= MAXWIN && out.Length == MAXWIN && Aligned() && History() == old(History()) + [b]
      ensures next < MAXWIN ==> Older(next)
    {
      assert first || out[next + 1..] == out[next..][1..];
      assert first || written[|written| - MAXWIN + next..][1..] == written[|written| - MAXWIN + next + 1..];
      ghost var tail := out[next + 1..];
      out[next] := b;
      next := next + 1;
      assert out[next..] == tail;
      assert out[..next] == old(out[..next]) + [b];
    }

    /** The byte dist places back, read at the window index the copy uses. */
    lemma SourceByte(to: nat, from: nat, dist: nat, r: seq<byte>)
      requires out.Length == MAXWIN && to < MAXWIN && Older(to) && r == written + out[..to]
      requires 1 <= dist <= MAXWIN && dist <= |r|
      requires from == if to < dist then to + MAXWIN - dist else to - dist
      ensures from < MAXWIN && out[from] == r[|r| - dist]
    {
      if to < dist {
        assert out[from] == out[to..][from - to];
      }
    }

    method CopyByte(to: nat, from: nat, dist: nat, ghost r: seq<byte>)
      requires out.Length == MAXWIN && to < MAXWIN && Older(to) && r == written + out[..to]
      requires 1 <= dist <= MAXWIN && dist <= |r|
      requires from == if to < dist then to + MAXWIN - dist else to - dist
      modifies out
      ensures Older(to + 1) && written + out[..to + 1] == r + [r[|r| - dist]]
    {
      SourceByte(to, from, dist, r);
      assert first || out[to + 1..] == out[to..][1..];
      assert first || written[|written| - MAXWIN + to..][1..] == written[|written| - MAXWIN + to + 1..];
      ghost var tail := out[to + 1..];
      out[to] := out[from];
      assert out[to + 1..] == tail;
      assert out[..to + 1] == out[..to] + [out[to]];
    }

    /** One run of the inner copy loop: it wraps neither window index. */
    method Run(to0: nat, from0: nat, copy0: nat, dist: nat, ghost h: seq<byte>)
      requires out.Length == MAXWIN && to0 + copy0 <= MAXWIN && Older(to0) && h == written + out[..to0]
      requires 1 <= dist <= MAXWIN && dist <= |h|
      requires from0 == if to0 < dist then to0 + MAXWIN - dist else to0 - dist
      requires to0 < dist ==> to0 + copy0 <= dist
      modifies out
      ensures Older(to0 + copy0) && written + out[..to0 + copy0] == Copied(h, dist, copy0)
    {
      hide Copied, Older;
      CopiedNone(h, dist);
      var to, from, copy: nat := to0, from0, copy0;
      while copy > 0
        invariant copy <= copy0 && to == to0 + (copy0 - copy) && from == from0 + (copy0 - copy)
        invariant Older(to) && written + out[..to] == Copied(h, dist, copy0 - copy)
      {
        CopiedLast(h, dist, copy0 - copy);
        CopyByte(to, from, dist, Copied(h, dist, copy0 - copy));
        to, from, copy := to + 1, from + 1, copy - 1;
      }
    }

    /** The longest run from next: up to the end of the window, or of the
        source when that lies in the older block. */
    method Chunk(len: nat, dist: nat) returns (copy: nat)
      requires Valid() && 1 <= dist <= MAXWIN && dist <= |History()| && 1 <= len
      modifies this`next, out
      ensures 1 <= copy <= len && next == old(next) + copy <= MAXWIN
      ensures Older(next) && History() == Copied(old(History()), dist, copy)
    {
      hide Copied, Valid;
      ChunkStart();
      ghost var h := History();
      var from: int, run: int := next - dist, MAXWIN;
      if next < dist {
        from := from + run;
        run := dist;
      }
      run := run - next;
      if run > len {
        run := len;
      }
      copy := run;
      Run(next, from, copy, dist, h);
      next := next + copy;
    }

    lemma ChunkStart()
      requires Valid()
      ensures out.Length == MAXWIN && next < MAXWIN && Older(next)
    {
    }

    lemma ValidIs()
      requires Valid()
      ensures out.Length == MAXWIN && next <= MAXWIN
    {
    }

    /** One run and, when the window is full, its hand-over. */
    method CopyRun(len: nat, dist: nat, ghost h: seq<byte>, ghost done: nat) returns (copy: nat, failed: bool)
      requires Valid() && 1 <= dist <= MAXWIN && dist <= |h| && 1 <= len && History() == Copied(h, dist, done)
      modifies this, out
      ensures 1 <= copy <= len
      ensures !failed ==> Valid() && History() == Copied(h, dist, done + copy) &&
                          room * MAXWIN + |written| == old(room) * MAXWIN + |old(written)|
      ensures failed ==> room == 0 == old(room) && written == old(written) &&
                         |written| + MAXWIN == |h| + done + copy && written <= Copied(h, dist, done + copy)
    {
      hide Copied;
      copy := Chunk(len, dist);
      CopiedSplit(h, dist, done, copy);
      failed := false;
      if next == MAXWIN {
        failed := Flush();
      }
    }

    /** len bytes from dist bytes back, in runs that end at the window's end. */
    method Copy(len0: nat, dist: nat) returns (failed: bool)
      requires Valid() && 1 <= dist <= MAXWIN && dist <= |History()| && 1 <= len0
      modifies this, out
      ensures !failed ==> Valid() && History() == Copied(old(History()), dist, len0) &&
                          room * MAXWIN + |written| == old(room) * MAXWIN + |old(written)|
      ensures failed ==> room == 0 && |written| == old(room) * MAXWIN + |old(written)| &&
                         |written| + MAXWIN <= |old(History())| + len0 &&
                         written <= Copied(old(History()), dist, len0)
    {
      hide Copied, Older, Valid;
      ValidIs();
      CopiedNone(History(), dist);
      var len := len0;
      ghost var h, done := History(), 0;
      while len != 0
        invariant out.Length == MAXWIN && next <= MAXWIN
        invariant Valid() && 0 <= len && 0 <= done && done + len == len0 && History() == Copied(h, dist, done)
        invariant room * MAXWIN + |written| == old(room) * MAXWIN + |old(written)|
        decreases len
      {
        var copy;
        copy, failed := CopyRun(len, dist, h, done);
        if failed {
          CopiedSplit(h, dist, done + copy, len - copy);
          return;
        }
        ValidIs();
        len, done := len - copy, done + copy;
      }
      failed := false;
    }
  }
}
