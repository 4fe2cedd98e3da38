/**
 bfs reads a big file by line number without keeping it in memory: bigopen
 records the length of every line and the place of every 64th one, bigread
 moves a cursor of block and offset relative to the last line read and keeps
 one block of text.
 */
module LineIndex {

  const BLOCK: nat := 512
  const SEGMENT: nat := 64

  // ---- lines, as a text has them ----

  /** The lines of a text, each with its newline; the last one may lack it. */
  function Lines(s: string): (ls: seq<string>)
    ensures s == [] <==> ls == []
  {
    if s == [] then []
    else
      var n := |s| - 1;
      var ls := Lines(s[..n]);
      if n == 0 || s[n - 1] == '\n' then ls + [[s[n]]]
      else ls[..|ls| - 1] + [ls[|ls| - 1] + [s[n]]]
  }

  function Flat(ls: seq<string>): string {
    if ls == [] then [] else Flat(ls[..|ls| - 1]) + ls[|ls| - 1]
  }

  /** Where line l (counted from 1) starts. */
  function Start(ls: seq<string>, l: nat): nat
    requires 1 <= l <= |ls| + 1
  {
    |Flat(ls[..l - 1])|
  }

  /** A line without its newline. */
  function Chomp(line: string): string {
    if line != [] && line[|line| - 1] == '\n' then line[..|line| - 1] else line
  }

  /** What a line looks like: not empty, a newline at its end only. */
  ghost predicate IsLine(line: string, last: bool) {
    && line != []
    && (forall i :: 0 <= i < |line| - 1 ==> line[i] != '\n')
    && (last || line[|line| - 1] == '\n')
  }

  /** Chomp takes away the newline and nothing else. */
  lemma ChompIs(line: string, last: bool)
    requires IsLine(line, last)
    ensures '\n' !in Chomp(line) && (line == Chomp(line) + "\n" || (last && line == Chomp(line)))
  {
  }

  ghost predicate AreLines(ls: seq<string>) {
    forall i :: 0 <= i < |ls| ==> IsLine(ls[i], i == |ls| - 1)
  }

  function LastOf(line: string): char {
    if line == [] then '\n' else line[|line| - 1]
  }

  lemma OpenLine(ls: seq<string>, c: char)
    requires AreLines(ls) && (ls != [] ==> LastOf(ls[|ls| - 1]) == '\n')
    ensures AreLines(ls + [[c]]) && Flat(ls + [[c]]) == Flat(ls) + [c]
  {
    var ms := ls + [[c]];
    assert ms[..|ms| - 1] == ls;
    forall i | 0 <= i < |ms| ensures IsLine(ms[i], i == |ms| - 1) {
      if i < |ls| {
        assert ms[i] == ls[i];
      }
    }
  }

  lemma GrowLine(ls: seq<string>, c: char)
    requires AreLines(ls) && ls != [] && LastOf(ls[|ls| - 1]) != '\n'
    ensures var m := |ls| - 1; var ms := ls[..m] + [ls[m] + [c]]; AreLines(ms) && Flat(ms) == Flat(ls) + [c]
  {
    var m := |ls| - 1;
    var ms := ls[..m] + [ls[m] + [c]];
    assert ms[..m] == ls[..m];
    forall i | 0 <= i < |ms| ensures IsLine(ms[i], i == |ms| - 1) {
      assert IsLine(ls[i], i == |ls| - 1);
    }
  }

  /** Lines cuts the text into lines and loses nothing. */
  lemma {:induction false} LinesCut(s: string)
    ensures Flat(Lines(s)) == s && AreLines(Lines(s))
    ensures s != [] ==> LastOf(Lines(s)[|Lines(s)| - 1]) == s[|s| - 1]
  {
    hide *;
    LastOne();
    if s != [] {
      var n := |s| - 1;
      LinesStep(s);
      LinesCut(s[..n]);
      if n == 0 || s[n - 1] == '\n' {
        OpenLine(Lines(s[..n]), s[n]);
      } else {
        GrowLine(Lines(s[..n]), s[n]);
      }
      assert s == s[..n] + [s[n]];
    } else {
      NoLines();
    }
  }

  lemma LastOne()
    ensures forall c: char :: LastOf([c]) == c
    ensures forall line: string, c: char :: LastOf(line + [c]) == c
  {
  }

  lemma LinesStep(s: string)
    requires s != []
    ensures var n := |s| - 1; var ls := Lines(s[..n]);
      Lines(s) == if n == 0 || s[n - 1] == '\n' then ls + [[s[n]]] else ls[..|ls| - 1] + [ls[|ls| - 1] + [s[n]]]
  {
  }

  lemma NoLines()
    ensures Flat(Lines([])) == [] && AreLines(Lines([]))
  {
  }

  lemma {:induction false} FlatConcat(a: seq<string>, b: seq<string>)
    ensures Flat(a + b) == Flat(a) + Flat(b)
  {
    if b == [] {
      assert a + b == a;
    } else {
      assert (a + b)[..|a + b| - 1] == a + b[..|b| - 1];
      FlatConcat(a, b[..|b| - 1]);
    }
  }

  /** The next line starts where this one ends. */
  lemma StartNext(ls: seq<string>, l: nat)
    requires 1 <= l <= |ls|
    ensures Start(ls, l + 1) == Start(ls, l) + |ls[l - 1]|
  {
    assert ls[..l][..l - 1] == ls[..l - 1];
  }

  /** Line l stands in the text at Start(l). */
  lemma LineAt(ls: seq<string>, l: nat)
    requires 1 <= l <= |ls|
    ensures var s, p := Flat(ls), Start(ls, l);
      p + |ls[l - 1]| <= |s| && s[p..p + |ls[l - 1]|] == ls[l - 1] && (l == |ls| ==> p + |ls[l - 1]| == |s|)
  {
    assert ls == ls[..l] + ls[l..];
    FlatConcat(ls[..l], ls[l..]);
    assert ls[..l][..l - 1] == ls[..l - 1];
  }

  lemma {:induction false} StartOrder(ls: seq<string>, l: nat, m: nat)
    requires 1 <= l <= m <= |ls| + 1
    ensures Start(ls, l) <= Start(ls, m)
    decreases m
  {
    if l < m {
      StartOrder(ls, l, m - 1);
      StartNext(ls, m - 1);
    }
  }

  /** Lines are stretches of at most this many bytes. */
  ghost predicate NoLongLine(ls: seq<string>, max: nat) {
    forall i :: 0 <= i < |ls| ==> |ls[i]| <= max
  }

  lemma {:induction false} StretchBound(ls: seq<string>, l: nat, m: nat, max: nat)
    requires 1 <= l <= m <= |ls| + 1 && NoLongLine(ls, max)
    ensures Start(ls, m) - Start(ls, l) <= (m - l) * max
    decreases m
  {
    if l < m {
      StretchBound(ls, l, m - 1, max);
      StartNext(ls, m - 1);
      assert (m - l) * max == (m - 1 - l) * max + max;
    }
  }

  // ---- moves ----

  /** Where the move from one line to another is counted from: the line left
      when it is at most 32 lines away, else the first line of the segment. */
  function MoveBase(from: nat, to: nat): nat
    requires to >= 1
  {
    if -32 <= to - from <= 32 then from else (to - 1) / SEGMENT * SEGMENT + 1
  }

  /** The offset sum of a move, from the start of the block it is counted
      from, fits a short. */
  ghost predicate MoveFits(ls: seq<string>, from: nat, to: nat)
    requires 1 <= from <= |ls| + 1 && 1 <= to <= |ls|
  {
    -0x8000 <= Start(ls, to) - Start(ls, MoveBase(from, to)) / BLOCK * BLOCK < 0x8000
  }

  /** Without lines of more than 512 bytes every move fits. */
  lemma ShortLinesFit(ls: seq<string>, from: nat, to: nat)
    requires 1 <= from <= |ls| + 1 && 1 <= to <= |ls| && NoLongLine(ls, 512)
    ensures MoveFits(ls, from, to)
  {
    hide Start;
    var base := MoveBase(from, to);
    if base <= to {
      StretchBound(ls, base, to, 512);
      StartOrder(ls, base, to);
    } else {
      StretchBound(ls, to, base, 512);
      StartOrder(ls, to, base);
    }
  }

  /** A move of up to 32 lines is counted over those lines, any other over the
      lines of the segment before its goal: it fits when so many of the longest
      lines fit a short together with the rest of a block. */
  lemma MoveSpan(ls: seq<string>, from: nat, to: nat, max: nat)
    requires 1 <= from <= |ls| + 1 && 1 <= to <= |ls| && NoLongLine(ls, max)
    requires var span := if to - from > 32 || from - to > 32 then (to - 1) % 64 else if from < to then to - from else from - to;
      span * max + 511 < 0x8000
    ensures MoveFits(ls, from, to)
  {
    hide Start;
    var base := MoveBase(from, to);
    if base <= to {
      StretchBound(ls, base, to, max);
      StartOrder(ls, base, to);
    } else {
      StretchBound(ls, to, base, max);
      StartOrder(ls, to, base);
    }
  }

  /** A line of n bytes. */
  function Row(n: nat): string
    requires n > 0
  {
    seq(n - 1, _ => 'x') + ['\n']
  }

  lemma RowIs(n: nat)
    requires n > 0
    ensures |Row(n)| == n && IsLine(Row(n), false)
  {
  }

  lemma {:induction false} StretchExact(ls: seq<string>, l: nat, m: nat, k: nat)
    requires 1 <= l <= m <= |ls| + 1 && forall i :: l - 1 <= i < m - 1 ==> |ls[i]| == k
    ensures Start(ls, m) - Start(ls, l) == (m - l) * k
    decreases m
  {
    if l < m {
      StretchExact(ls, l, m - 1, k);
      StartNext(ls, m - 1);
      assert (m - l) * k == (m - 1 - l) * k + k;
    }
  }

  /** And 512 is the largest such bound: 64 lines of 513 bytes, the first of
      them a segment that starts on the last byte of a block, and the move from
      line 1 to line 128 does not fit. */
  lemma Largest() returns (ls: seq<string>)
    ensures AreLines(ls) && NoLongLine(ls, 513) && |ls| == 128 && !MoveFits(ls, 1, 128)
  {
    RowIs(448);
    RowIs(1);
    RowIs(513);
    hide *;
    ls := seq(128, i => if i == 0 then Row(448) else if i < 64 then Row(1) else Row(513));
    LargestStarts(ls);
    LargestMoves(ls);
    RowLines(ls);
  }

  lemma RowLines(ls: seq<string>)
    requires |ls| == 128 && forall i :: 0 <= i < 128 ==> IsLine(ls[i], false) && |ls[i]| <= 513
    ensures AreLines(ls) && NoLongLine(ls, 513)
  {
  }

  lemma LargestStarts(ls: seq<string>)
    requires |ls| == 128 && |ls[0]| == 448 && (forall i :: 1 <= i < 64 ==> |ls[i]| == 1)
    requires forall i :: 64 <= i < 128 ==> |ls[i]| == 513
    ensures Start(ls, 65) == 511 && Start(ls, 128) == 511 + 63 * 513
  {
    hide Start;
    AtFirst(ls);
    StartNext(ls, 1);
    StretchExact(ls, 2, 65, 1);
    StretchExact(ls, 65, 128, 513);
  }

  lemma AtFirst(ls: seq<string>)
    ensures Start(ls, 1) == 0
  {
  }

  lemma LargestMoves(ls: seq<string>)
    requires |ls| == 128 && Start(ls, 65) == 511 && Start(ls, 128) == 511 + 63 * 513
    ensures !MoveFits(ls, 1, 128)
  {
    hide Start;
    assert MoveBase(1, 128) == 65;
  }

  // ---- the index ----

  /** A C short holds 16 bits. */
  function ToShort(x: int): (r: int)
    ensures -0x8000 <= r < 0x8000
    ensures r == x <==> -0x8000 <= x < 0x8000
  {
    (x + 0x8000) % 0x1_0000 - 0x8000
  }

  lemma ShortSum(x: int, y: int)
    ensures ToShort(ToShort(x) + y) == ToShort(x + y)
  {
  }

  /** The tables for a text: its lines counted, all but the last one closed. */
  ghost predicate Tables(s: string, lincnt: seq<nat>, segblk: seq<nat>, segoff: seq<nat>, l: nat, cnt: nat, newline: bool) {
    var ls := Lines(s);
    && l == |ls| == |lincnt| && newline == (s == [] || s[|s| - 1] == '\n')
    && (l > 0 ==> lincnt[0] == 0) && cnt == (if l == 0 then 0 else |ls[l - 1]|)
    && (forall j :: 1 <= j < l ==> lincnt[j] == |ls[j - 1]|)
    && |segblk| == |segoff| == (l + SEGMENT - 1) / SEGMENT
    && forall i :: 0 <= i < |segblk| ==>
         segoff[i] < BLOCK && SEGMENT * i < l && BLOCK * segblk[i] + segoff[i] == Start(ls, SEGMENT * i + 1)
  }

  /** One more byte: it opens a line when the last one is closed. */
  lemma ScanByte(s: string, p: nat, lincnt: seq<nat>, segblk: seq<nat>, segoff: seq<nat>, l: nat, cnt: nat, newline: bool,
                 blk: nat, off: nat)
    requires off < BLOCK && p == BLOCK * blk + off < |s| && Tables(s[..p], lincnt, segblk, segoff, l, cnt, newline)
    ensures var seg := newline && l % SEGMENT == 0;
      Tables(s[..p + 1], if newline then lincnt + [cnt] else lincnt, if seg then segblk + [blk] else segblk,
             if seg then segoff + [off] else segoff, if newline then l + 1 else l, if newline then 1 else cnt + 1,
             s[p] == '\n')
  {
    hide Lines, Flat, Start;
    NextByte(s, p);
  }

  class BigFile {
    const file: string
    var lincnt: seq<nat>
    var segblk: seq<nat>
    var segoff: seq<nat>
    var dollar: nat
    var lprev: nat
    var prevblk: int
    var prevoff: int
    var saveblk: int
    const savetxt: array<char>
    var rd: nat
    var pos: nat

    ghost function Ls(): seq<string> {
      Lines(file)
    }

    /** The tables tell the length of every line and the place of each
        segment of 64. */
    ghost predicate Indexed()
      reads this`lincnt, this`segblk, this`segoff, this`dollar
    {
      && dollar == |Ls()| && |lincnt| == dollar + 1 && lincnt[0] == 0
      && (forall j :: 1 <= j <= dollar ==> lincnt[j] == |Ls()[j - 1]|)
      && |segblk| == |segoff| == (dollar + SEGMENT - 1) / SEGMENT
      && forall i :: 0 <= i < |segblk| ==>
           segoff[i] < BLOCK && SEGMENT * i < dollar && BLOCK * segblk[i] + segoff[i] == Start(Ls(), SEGMENT * i + 1)
    }

    /** The cursor stands at the true start of line lprev. */
    ghost predicate Placed()
      reads this`lprev, this`prevblk, this`prevoff
    {
      1 <= lprev <= |Ls()| + 1 && 0 <= prevoff < BLOCK && BLOCK * prevblk + prevoff == Start(Ls(), lprev)
    }

    /** The saved text is block saveblk, and the file is positioned after it. */
    ghost predicate Cached()
      reads this`saveblk, this`rd, this`pos, savetxt
    {
      savetxt.Length == BLOCK && rd <= BLOCK &&
      (saveblk != -1 ==>
        && 0 <= saveblk && 0 < rd <= BLOCK && BLOCK * saveblk + rd <= |file|
        && (rd < BLOCK ==> BLOCK * saveblk + rd == |file|)
        && savetxt[..rd] == file[BLOCK * saveblk..BLOCK * saveblk + rd] && pos == BLOCK * saveblk + rd)
    }

    ghost predicate Valid()
      reads this, savetxt
    {
      Indexed() && Placed() && Cached()
    }

    /** The block that the move to line l is counted from: the one of the last
        line read when l is at most 32 lines away, else the one of the segment. */
    ghost function BaseBlock(l: nat): int
      requires Indexed() && 1 <= l <= dollar
      reads this
    {
      if -32 <= l - lprev <= 32 then prevblk else segblk[(l - 1) / SEGMENT]
    }

    /** The offset sum of that move fits a short. */
    ghost predicate Fits(l: nat)
      requires Indexed() && 1 <= l <= dollar
      reads this
    {
      -0x8000 <= Start(Ls(), l) - BLOCK * BaseBlock(l) < 0x8000
    }

    constructor (file: string)
      ensures Valid() && this.file == file && lprev == 1 && fresh(savetxt)
    {
      this.file := file;
      savetxt := new char[BLOCK];
      lincnt, segblk, segoff := [], [], [];
      dollar, lprev, prevblk, prevoff, saveblk, rd, pos := 0, 1, 0, 0, -1, 0, 0;
      new;
      BigOpen();
    }

    /** bigopen. */
    method BigOpen()
      requires lincnt == [] && segblk == [] && segoff == []
      modifies this`lincnt, this`segblk, this`segoff, this`dollar, this`pos
      ensures Indexed()
    {
      hide Lines, Flat, Start;
      var l: nat, cnt: nat, newline, blk := 0, 0, true, 0;
      pos := 0;
      LinesCut(file[..0]);
      while pos < |file|
        invariant Scanned(pos, l, cnt, newline)
        invariant pos == BLOCK * blk || pos == |file|
      {
        var n := if |file| - pos < BLOCK then |file| - pos else BLOCK;
        for off := 0 to n
          invariant pos == BLOCK * blk && pos + n <= |file| && n <= BLOCK
          invariant Scanned(pos + off, l, cnt, newline)
        {
          l, cnt, newline := OneByte(blk, off, l, cnt, newline);
        }
        pos, blk := pos + n, blk + 1;
      }
      assert file[..pos] == file;
      lincnt := lincnt + [cnt];
      dollar := l;
    }

    /** The tables while the first p bytes have been seen. */
    ghost predicate Scanned(p: nat, l: nat, cnt: nat, newline: bool)
      reads this
    {
      p <= |file| && Tables(file[..p], lincnt, segblk, segoff, l, cnt, newline)
    }

    method OneByte(blk: nat, off: nat, l0: nat, cnt0: nat, newline0: bool) returns (l: nat, cnt: nat, newline: bool)
      requires off < BLOCK && BLOCK * blk + off < |file| && Scanned(BLOCK * blk + off, l0, cnt0, newline0)
      modifies this`lincnt, this`segblk, this`segoff
      ensures Scanned(BLOCK * blk + off + 1, l, cnt, newline)
    {
      hide Lines, Flat, Start, Tables;
      var p := BLOCK * blk + off;
      ScanByte(file, p, lincnt, segblk, segoff, l0, cnt0, newline0, blk, off);
      l, cnt, newline := l0, cnt0, newline0;
      if newline {
        newline := false;
        lincnt := lincnt + [cnt];
        cnt := 0;
        if l % SEGMENT == 0 {
          segblk, segoff := segblk + [blk], segoff + [off];
        }
        l := l + 1;
      }
      if file[p] == '\n' {
        newline := true;
      }
      cnt := cnt + 1;
    }

    /** The cursor part of bigread. */
    method Move(l: nat)
      requires Valid() && 1 <= l <= dollar
      modifies this`lprev, this`prevblk, this`prevoff
      ensures lprev == l && 0 <= prevoff < BLOCK
      ensures (BLOCK * prevblk + prevoff == Start(Ls(), l)) == old(Fits(l))
    {
      hide Lines, Flat, Start, ToShort;
      var i := l - lprev;
      ghost var base, s := BaseBlock(l), Start(Ls(), lprev);
      if 0 <= i <= 32 {
        MoveForward(lprev, l, base);
      } else if -32 <= i < 0 {
        MoveBack(l, base);
      } else {
        i := (l - 1) / SEGMENT;
        prevblk, prevoff := segblk[i], segoff[i];
        MoveForward(SEGMENT * i + 1, l, base);
      }
      assert prevblk == base;
      ShortFits(Start(Ls(), l) - BLOCK * base);
      prevblk, prevoff := prevblk + prevoff / 512, prevoff % 512;
      lprev := l;
    }

    method MoveForward(k: nat, l: nat, ghost base: int)
      requires Indexed() && 1 <= k <= l <= dollar && prevoff == Start(Ls(), k) - BLOCK * base && 0 <= prevoff < BLOCK
      modifies this`prevoff
      ensures prevoff == ToShort(Start(Ls(), l) - BLOCK * base)
    {
      hide Lines, Flat, Start;
      for i := k to l
        invariant prevoff == ToShort(Start(Ls(), i) - BLOCK * base)
      {
        StartNext(Ls(), i);
        ShortSum(Start(Ls(), i) - BLOCK * base, lincnt[i]);
        prevoff := ToShort(prevoff + lincnt[i]);
      }
    }

    method MoveBack(l: nat, ghost base: int)
      requires Indexed() && 1 <= l < lprev <= dollar + 1
      requires prevoff == Start(Ls(), lprev) - BLOCK * base && 0 <= prevoff < BLOCK
      modifies this`prevoff
      ensures prevoff == ToShort(Start(Ls(), l) - BLOCK * base)
    {
      hide Lines, Flat, Start;
      var i := lprev - 1;
      while i >= l
        invariant l - 1 <= i < lprev && prevoff == ToShort(Start(Ls(), i + 1) - BLOCK * base)
      {
        StartNext(Ls(), i);
        ShortSum(Start(Ls(), i + 1) - BLOCK * base, Start(Ls(), i) - Start(Ls(), i + 1));
        prevoff := ToShort(prevoff - lincnt[i]);
        i := i - 1;
      }
    }

    /** read(2) of one block. */
    method ReadBlock() returns (n: nat)
      requires savetxt.Length == BLOCK
      modifies this`pos, savetxt
      ensures n == (if |file| < old(pos) then 0 else if |file| - old(pos) < BLOCK then |file| - old(pos) else BLOCK)
      ensures pos == old(pos) + n && (n > 0 ==> savetxt[..n] == file[old(pos)..pos])
      ensures n == 0 ==> savetxt[..] == old(savetxt[..])
    {
      n := if |file| < pos then 0 else if |file| - pos < BLOCK then |file| - pos else BLOCK;
      if n == 0 {
        return;
      }
      for i := 0 to n
        invariant pos == old(pos) && savetxt[..i] == file[pos..pos + i]
      {
        savetxt[i] := file[pos + i];
      }
      pos := pos + n;
    }

    /** lseek(2) and read(2), when another block is needed. */
    method Fetch()
      requires Cached() && 0 <= prevoff < BLOCK
      modifies this`saveblk, this`rd, this`pos, savetxt
      ensures saveblk == prevblk && rd <= BLOCK == savetxt.Length
      ensures 0 <= prevblk && BLOCK * prevblk + prevoff < |file| ==> Cached() && prevoff < rd
    {
      if prevblk != saveblk {
        saveblk := prevblk;
        if saveblk >= 0 {
          pos := saveblk * 512;
        }
        rd := ReadBlock();
      }
    }

    /** rec is the text from p to q, without a newline. */
    ghost predicate Partial(p: int, q: int, rec: string) {
      0 <= p <= q <= |file| && rec == file[p..q] && '\n' !in rec
    }

    /** The saved text up to a newline. */
    method TakeText(rec0: string, off: nat, ghost p: nat) returns (rec: string, done: bool)
      requires savetxt.Length == BLOCK && rd <= BLOCK
      ensures Cached() && saveblk >= 0 && off <= rd && Partial(p, BLOCK * saveblk + off, rec0) ==>
                if done then EndsLine(file, p, rec) else Partial(p, BLOCK * saveblk + rd, rec)
    {
      rec, done := rec0, false;
      var b := off;
      ghost var known := Cached() && saveblk >= 0 && off <= rd && Partial(p, BLOCK * saveblk + off, rec0);
      while b < rd
        invariant off <= b && (off <= rd ==> b <= rd)
        invariant known ==> Partial(p, BLOCK * saveblk + b, rec)
      {
        assert known ==> savetxt[..rd][b] == file[BLOCK * saveblk + b];
        if savetxt[b] == '\n' {
          return rec, true;
        }
        rec, b := rec + [savetxt[b]], b + 1;
      }
    }

    /** The next block of a line that does not end in this one. */
    method ReadOn() returns (more: bool)
      requires savetxt.Length == BLOCK && rd <= BLOCK
      modifies this`saveblk, this`rd, this`pos, savetxt
      ensures rd <= BLOCK && (more ==> old(pos) < pos <= |file|)
      ensures old(Cached() && saveblk >= 0) ==>
                Cached() && (if more then saveblk >= 0 && rd > 0 && BLOCK * saveblk == old(BLOCK * saveblk + rd)
                             else saveblk == old(saveblk) && rd == old(rd) && BLOCK * saveblk + rd >= |file|)
    {
      var n := ReadBlock();
      more := n != 0;
      if more {
        rd, saveblk := n, saveblk + 1;
      }
    }

    /** bigread: line l, for every state earlier reads may have left. */
    method BigRead(l: nat) returns (rec: string)
      requires Valid() && 1 <= l <= dollar
      modifies this`lprev, this`prevblk, this`prevoff, this`saveblk, this`rd, this`pos, savetxt
      ensures lprev == l && (Placed() <==> old(Fits(l)))
      ensures old(Fits(l)) ==> Valid() && rec == Chomp(Ls()[l - 1])
    {
      hide Lines, Flat, Start, Chomp, EndsLine, Indexed, Fits, Cached;
      Dollar(l);
      ghost var fits, p := Fits(l), Start(Ls(), l);
      Move(l);
      assert fits ==> BLOCK * prevblk + prevoff == p;
      Fetch();
      rec := ReadLine(prevoff, p, fits);
    }

    /** The text from offset off0 of the saved block up to a newline. */
    method ReadLine(off0: nat, ghost p: nat, ghost fits: bool) returns (rec: string)
      requires rd <= BLOCK == savetxt.Length && off0 < BLOCK
      requires fits ==> Cached() && 0 <= saveblk && BLOCK * saveblk + off0 == p < |file| && off0 < rd
      modifies this`saveblk, this`rd, this`pos, savetxt
      ensures fits ==> Cached() && EndsLine(file, p, rec)
    {
      hide EndsLine, Cached;
      rec := [];
      var off := off0;
      while rd > 0
        invariant rd <= BLOCK && savetxt.Length == BLOCK && 0 <= off < BLOCK
        invariant fits ==> Cached() && saveblk >= 0 && off < rd
        invariant fits ==> Partial(p, BLOCK * saveblk + off, rec)
        modifies this`saveblk, this`rd, this`pos, savetxt
        decreases |file| - pos
      {
        var done;
        rec, done := TakeText(rec, off, p);
        if done {
          return;
        }
        var more := ReadOn();
        if !more {
          if fits {
            AtEnd(p, BLOCK * saveblk + rd, rec);
          }
          return;
        }
        off := 0;
      }
    }

    lemma AtEnd(p: nat, q: nat, rec: string)
      requires Partial(p, q, rec) && q >= |file|
      ensures EndsLine(file, p, rec)
    {
    }

    lemma Dollar(l: nat)
      requires Indexed() && 1 <= l <= dollar
      ensures l <= |Ls()|
      ensures Start(Ls(), l) < |file|
      ensures forall rec :: EndsLine(file, Start(Ls(), l), rec) ==> rec == Chomp(Ls()[l - 1])
    {
      LinesCut(file);
      LineAt(Ls(), l);
      forall rec | EndsLine(file, Start(Ls(), l), rec) ensures rec == Chomp(Ls()[l - 1]) {
        EndedLine(file, Start(Ls(), l), Ls()[l - 1], rec);
      }
    }

    /** In a valid state a move fits or not by the lines alone. */
    lemma FitsByLines(l: nat)
      requires Valid() && 1 <= l <= dollar
      ensures Fits(l) <==> MoveFits(Ls(), lprev, l)
    {
      hide Lines, Start;
      if -32 <= l - lprev <= 32 {
        BlockOf(prevblk, prevoff, Start(Ls(), lprev));
      } else {
        var i := (l - 1) / SEGMENT;
        BlockOf(segblk[i], segoff[i], Start(Ls(), SEGMENT * i + 1));
      }
    }

    /** Any lines in any order, one after the other, as long as each move fits. */
    method ReadMany(ls: seq<nat>) returns (recs: seq<string>)
      requires Valid() && forall i :: 0 <= i < |ls| ==> 1 <= ls[i] <= |Ls()|
      requires forall i :: 0 <= i < |ls| ==> MoveFits(Ls(), if i == 0 then lprev else ls[i - 1], ls[i])
      modifies this`lprev, this`prevblk, this`prevoff, this`saveblk, this`rd, this`pos, savetxt
      ensures Valid() && (ls != [] ==> lprev == ls[|ls| - 1])
      ensures |recs| == |ls| && forall i :: 0 <= i < |ls| ==> recs[i] == Chomp(Ls()[ls[i] - 1])
    {
      hide Lines, Flat, Start, Chomp, Placed, Cached, Fits, MoveFits;
      recs := [];
      ghost var first := lprev;
      for i := 0 to |ls|
        invariant Valid() && lprev == (if i == 0 then first else ls[i - 1])
        invariant |recs| == i && forall j :: 0 <= j < i ==> recs[j] == Chomp(Ls()[ls[j] - 1])
      {
        FitsByLines(ls[i]);
        var rec := BigRead(ls[i]);
        recs := recs + [rec];
      }
    }

    /** Without long lines: any lines in any order. */
    method ReadShort(ls: seq<nat>) returns (recs: seq<string>)
      requires Valid() && NoLongLine(Ls(), 512) && forall i :: 0 <= i < |ls| ==> 1 <= ls[i] <= |Ls()|
      modifies this`lprev, this`prevblk, this`prevoff, this`saveblk, this`rd, this`pos, savetxt
      ensures Valid() && |recs| == |ls| && forall i :: 0 <= i < |ls| ==> recs[i] == Chomp(Ls()[ls[i] - 1])
    {
      hide Lines, Flat, Start, Chomp, Cached, Fits, MoveFits, NoLongLine, Indexed;
      forall i | 0 <= i < |ls| ensures MoveFits(Ls(), if i == 0 then lprev else ls[i - 1], ls[i]) {
        ShortLinesFit(Ls(), if i == 0 then lprev else ls[i - 1], ls[i]);
      }
      recs := ReadMany(ls);
    }
  }

  lemma BlockOf(blk: int, off: int, p: int)
    requires 0 <= off < BLOCK && BLOCK * blk + off == p
    ensures p / BLOCK * BLOCK == BLOCK * blk
  {
  }

  /** rec is the text from p up to the next newline or the end. */
  ghost predicate EndsLine(s: string, p: nat, rec: string) {
    var q := p + |rec|;
    q <= |s| && rec == s[p..q] && '\n' !in rec && (q == |s| || s[q] == '\n')
  }

  lemma EndedLine(s: string, p: nat, line: string, rec: string)
    requires p + |line| <= |s| && s[p..p + |line|] == line && IsLine(line, p + |line| == |s|) && EndsLine(s, p, rec)
    ensures rec == Chomp(line)
  {
    var n, q := |line|, p + |rec|;
    assert forall i :: 0 <= i < n ==> s[p + i] == line[i];
    assert forall i :: 0 <= i < |rec| ==> s[p + i] == rec[i];
  }

  /** What one more byte does to the lines. */
  lemma NextByte(s: string, p: nat)
    requires p < |s|
    ensures var ls, ms := Lines(s[..p]), Lines(s[..p + 1]); var l := |ls|;
      && |ms| == (if p == 0 || s[p - 1] == '\n' then l + 1 else l) > 0
      && (forall j {:trigger ms[j - 1]} {:trigger ls[j - 1]} :: 1 <= j < l ==> |ms[j - 1]| == |ls[j - 1]|)
      && (forall j :: 1 <= j <= l ==> Start(ms, j) == Start(ls, j))
      && (|ms| == l ==> |ms[l - 1]| == |ls[l - 1]| + 1)
      && (|ms| == l + 1 ==> |ms[l]| == 1 && Start(ms, l + 1) == p && (l > 0 ==> ms[l - 1] == ls[l - 1]))
  {
    var ls, ms, n := Lines(s[..p]), Lines(s[..p + 1]), |Lines(s[..p])|;
    assert s[..p + 1][..p] == s[..p];
    LinesCut(s[..p]);
    if |ms| == n + 1 {
      assert ms[..n] == ls && ls[..n] == ls;
    }
    forall j | 1 <= j <= n ensures Start(ms, j) == Start(ls, j) {
      assert ms[..j - 1] == ls[..j - 1];
    }
  }

  lemma ShortFits(x: int)
    ensures 512 * (ToShort(x) / 512) + ToShort(x) % 512 == x <==> -0x8000 <= x < 0x8000
  {
  }

  /** A line of 32768 bytes is too much: the next line is not found. */
  lemma LongLine(f: BigFile)
    requires f.Valid() && f.lprev == 1 && f.dollar >= 2 && |f.Ls()[0]| >= 0x8000
    ensures !f.Fits(2)
  {
    assert f.Ls()[..1][..0] == [];
    assert Start(f.Ls(), 1) == 0;
    StartNext(f.Ls(), 1);
  }
}
