/**
 emit writes a line of text to a terminal that moves in half lines and columns.
 What counts is the ink on the paper.
 */
module ColPrinter {
  import opened ColGrid

  /** What col sends: newline, half line forward, carriage return, tab, space,
      backspace, the two shifts, and a printed character. */
  datatype Key = Newline | Half | Return | Tab | Space | Back | ShiftOut | ShiftIn | Put(code: nat)

  datatype Mark = Mark(row: nat, col: nat, code: nat, greek: bool)

  datatype Paper = Paper(row: nat, col: nat, shift: bool, marks: seq<Mark>)

  const BLANK := Paper(0, 0, false, [])

  /** The terminal: a newline is two half lines and goes to column 0. */
  function Typed(p: Paper, k: Key): Paper {
    match k
    case Newline => p.(row := p.row + 2, col := 0)
    case Half => p.(row := p.row + 1)
    case Return => p.(col := 0)
    case Tab => p.(col := (p.col / 8 + 1) * 8)
    case Space => p.(col := p.col + 1)
    case Back => p.(col := if p.col == 0 then 0 else p.col - 1)
    case ShiftOut => p.(shift := true)
    case ShiftIn => p.(shift := false)
    case Put(code) => p.(col := p.col + 1, marks := p.marks + [Mark(p.row, p.col, code, p.shift)])
  }

  /** What the terminal does with the column and the row: a tab goes to the
      least multiple of 8 to the right, a backspace undoes a space, a newline is
      two half lines and a return; none of them leaves a mark. */
  lemma TerminalMoves(p: Paper)
    ensures var t := Typed(p, Tab);
      t.col > p.col && t.col % 8 == 0 && (forall n :: n > p.col && n % 8 == 0 ==> t.col <= n) && t == p.(col := t.col)
    ensures Typed(Typed(p, Space), Back) == p && Typed(p, Newline) == Typed(Typed(Typed(p, Half), Half), Return)
    ensures Typed(p, Half) == p.(row := p.row + 1) && Typed(p, Return) == p.(col := 0)
  {
  }

  function Paged(ks: seq<Key>): Paper {
    if ks == [] then BLANK else Typed(Paged(ks[..|ks| - 1]), ks[|ks| - 1])
  }

  lemma PagedMore(ks: seq<Key>, k: Key)
    ensures Paged(ks + [k]) == Typed(Paged(ks), k)
  {
    assert (ks + [k])[..|ks|] == ks;
  }

  /** A text written from column 0 on a row: where it ends and its ink. */
  datatype Trace = Trace(col: nat, marks: seq<Mark>)

  function Step(t: Trace, c: Ch, row: nat): Trace {
    match c
    case Nul => t
    case Sp => t.(col := t.col + 1)
    case Bs => t.(col := if t.col == 0 then 0 else t.col - 1)
    case Ink(code, greek) => Trace(t.col + 1, t.marks + [Mark(row, t.col, code, greek)])
  }

  function Walk(s: seq<Ch>, row: nat): Trace {
    if s == [] then Trace(0, []) else Step(Walk(s[..|s| - 1], row), s[|s| - 1], row)
  }

  lemma WalkMore(s: seq<Ch>, i: nat, row: nat)
    requires i < |s|
    ensures Walk(s[..i + 1], row) == Step(Walk(s[..i], row), s[i], row)
  {
    assert s[..i + 1][..i] == s[..i];
  }

  // ---- the ink of a grid ----

  function CellMarks(c: seq<Ch>, row: nat, col: nat): seq<Mark> {
    if c == [] then []
    else
      var x := c[|c| - 1];
      CellMarks(c[..|c| - 1], row, col) + if x.Ink? then [Mark(row, col, x.code, x.greek)] else []
  }

  /** Every glyph of every column, on its row and column. */
  function GridMarks(cells: seq<Cell>, row: nat): seq<Mark> {
    if cells == [] then []
    else GridMarks(cells[..|cells| - 1], row) + CellMarks(cells[|cells| - 1], row, |cells| - 1)
  }

  lemma {:induction false} CellCount(c: Cell, row: nat, col: nat)
    requires IsCell(c)
    ensures |CellMarks(c, row, col)| == if c == [Sp] then 0 else |c|
  {
    if c == [Sp] {
      assert c[..0] == [];
      assert CellMarks([], row, col) == [];
    } else {
      AllInk(c, row, col);
    }
  }

  lemma {:induction false} AllInk(c: Cell, row: nat, col: nat)
    requires forall i :: 0 <= i < |c| ==> c[i].Ink?
    ensures |CellMarks(c, row, col)| == |c|
  {
    if c != [] {
      AllInk(c[..|c| - 1], row, col);
    }
  }

  /** How much ink there is on a line of columns. */
  function InkCount(cells: seq<Cell>): nat {
    if cells == [] then 0
    else InkCount(cells[..|cells| - 1]) + if cells[|cells| - 1] == [Sp] then 0 else |cells[|cells| - 1]|
  }

  lemma {:induction false} Counted(cells: seq<Cell>, row: nat)
    requires IsGrid(cells)
    ensures |GridMarks(cells, row)| == InkCount(cells)
  {
    if cells != [] {
      hide CellMarks, IsCell;
      var n := |cells| - 1;
      Counted(cells[..n], row);
      CellCount(cells[n], row, n);
    }
  }

  lemma {:induction false} CountConcat(a: seq<Cell>, b: seq<Cell>)
    ensures InkCount(a + b) == InkCount(a) + InkCount(b)
  {
    if b == [] {
      assert a + b == a;
    } else {
      var n := |b| - 1;
      assert (a + b)[..|a| + n] == a + b[..n];
      CountConcat(a, b[..n]);
    }
  }

  lemma {:induction false} Blanks(n: nat)
    ensures InkCount(seq(n, _ => [Sp])) == 0
  {
    if n > 0 {
      var s: seq<Cell> := seq(n, _ => [Sp]);
      assert s[..n - 1] == seq(n - 1, _ => [Sp]);
      Blanks(n - 1);
    }
  }

  lemma OneCount(c: Cell)
    ensures InkCount([c]) == if c == [Sp] then 0 else |c|
  {
    assert [c][..0] == [];
    assert InkCount([]) == 0;
  }

  lemma CountReplaced(cells: seq<Cell>, n: nat, c: Cell)
    requires n < |cells|
    ensures InkCount(cells[n := c]) + InkCount([cells[n]]) == InkCount(cells) + InkCount([c])
  {
    hide InkCount;
    var a, b := cells[..n], cells[n + 1..];
    CountConcat(a + [cells[n]], b);
    CountConcat(a, [cells[n]]);
    CountConcat(a + [c], b);
    CountConcat(a, [c]);
    assert cells == a + [cells[n]] + b && cells[n := c] == a + [c] + b;
  }

  /** A strike adds one mark to its line. */
  lemma StruckMarks(cells: seq<Cell>, n: nat, c: Ch, row: nat)
    requires IsGrid(cells) && c.Ink?
    ensures |GridMarks(Struck(cells, n, c), row)| == |GridMarks(cells, row)| + 1
  {
    hide GridMarks, InkCount;
    Counted(cells, row);
    Counted(Struck(cells, n, c), row);
    var p := Padded(cells, n);
    CountConcat(cells, p[|cells|..]);
    assert p == cells + p[|cells|..];
    Blanks(|p| - |cells|);
    assert p[|cells|..] == seq(|p| - |cells|, _ => [Sp]);
    if n == |p| {
      CountConcat(p, [[c]]);
      OneCount([c]);
    } else {
      assert IsCell(p[n]);
      var d := if p[n] == [Sp] then [c] else [p[n][0], c] + p[n][1..];
      CountReplaced(p, n, d);
      OneCount(p[n]);
      OneCount(d);
    }
  }

  lemma OneGlyph(c: Ch)
    requires c.Ink?
    ensures |GridMarks([[c]], 0)| == 1
  {
    Counted([[c]], 0);
    OneCount([c]);
  }

  /** One more glyph of a column: a backspace and the glyph. */
  lemma CellMore(c: Cell, m: nat)
    requires IsCell(c) && 2 <= m <= |c|
    ensures |CellText(c)| == 2 * |c| - 1
    ensures CellText(c)[..2 * m - 1] == CellText(c)[..2 * (m - 1) - 1] + [Bs] + [c[m - 1]]
  {
    hide CellText, IsCell;
    IsChar(c, m - 1);
    CellAt(c, 2 * m - 3);
    CellAt(c, 2 * m - 2);
  }

  /** Writing a column from its place ends one column on, with its ink. */
  lemma {:induction false} CellWalk(pre: seq<Ch>, c: Cell, m: nat, row: nat)
    requires IsCell(c) && 1 <= m <= |c|
    ensures |CellText(c)| == 2 * |c| - 1
    ensures var t := Walk(pre, row);
      Walk(pre + CellText(c)[..2 * m - 1], row) == Trace(t.col + 1, t.marks + CellMarks(c[..m], row, t.col))
  {
    hide CellText, IsCell, Walk, CellMarks;
    var t := Walk(pre, row);
    IsChar(c, m - 1);
    MarksMore(c, m - 1, row, t.col);
    if m == 1 {
      CellAt(c, 0);
      assert pre + CellText(c)[..1] == pre + [c[0]];
      WalkSnoc(pre, c[0], row);
    } else {
      CellWalk(pre, c, m - 1, row);
      CellMore(c, m);
      var q := pre + CellText(c)[..2 * (m - 1) - 1];
      assert pre + CellText(c)[..2 * m - 1] == q + [Bs] + [c[m - 1]];
      WalkSnoc(q, Bs, row);
      WalkSnoc(q + [Bs], c[m - 1], row);
    }
  }

  lemma MarksMore(c: seq<Ch>, m: nat, row: nat, col: nat)
    requires m < |c| && (c[m].Ink? || (c[m] == Sp && m == 0))
    ensures CellMarks(c[..m + 1], row, col) ==
            CellMarks(c[..m], row, col) + if c[m].Ink? then [Mark(row, col, c[m].code, c[m].greek)] else []
    ensures m == 0 ==> CellMarks(c[..m], row, col) == []
  {
    assert c[..m + 1][..m] == c[..m];
  }

  lemma IsChar(c: Cell, i: nat)
    requires IsCell(c) && i < |c|
    ensures |c| > 1 ==> c[i].Ink?
    ensures c[i].Ink? || (c[i].Sp? && i == 0)
    ensures |CellText(c)| == 2 * |c| - 1
  {
  }

  lemma WalkSnoc(s: seq<Ch>, c: Ch, row: nat)
    ensures Walk(s + [c], row) == Step(Walk(s, row), c, row)
  {
    assert (s + [c])[..|s|] == s;
  }

  /** Writing the text of a grid puts exactly the ink of the grid on the row. */
  lemma {:induction false} GridWalk(cells: seq<Cell>, row: nat)
    requires IsGrid(cells)
    ensures Walk(Text(cells), row) == Trace(|cells|, GridMarks(cells, row))
  {
    if cells != [] {
      hide Walk, CellText, IsCell, CellMarks;
      var n := |cells| - 1;
      GridWalk(cells[..n], row);
      var c := cells[n];
      assert IsCell(c);
      NotEmpty(c);
      CellWalk(Text(cells[..n]), c, |c|, row);
      assert c[..|c|] == c && CellText(c)[..|CellText(c)|] == CellText(c);
    } else {
      assert Walk([], row) == Trace(0, []);
    }
  }

  lemma NotEmpty(c: Cell)
    requires IsCell(c)
    ensures |c| >= 1 && |CellText(c)| == 2 * |c| - 1
  {
  }

  /** A backspace only ever follows a glyph. */
  ghost predicate Backs(s: seq<Ch>) {
    forall i :: 0 <= i < |s| && s[i] == Bs ==> i > 0 && s[i - 1].Ink?
  }

  lemma CellBacks(c: Cell)
    requires IsCell(c)
    ensures Backs(CellText(c)) && CellText(c)[0] != Bs
  {
    hide CellText;
    NotEmpty(c);
    CellAt(c, 0);
    forall i | 0 <= i < |CellText(c)| && CellText(c)[i] == Bs ensures i > 0 && CellText(c)[i - 1].Ink? {
      CellAt(c, i);
      CellAt(c, i - 1);
      IsChar(c, (i - 1) / 2);
    }
  }

  lemma BacksJoin(a: seq<Ch>, b: seq<Ch>)
    requires Backs(a) && Backs(b) && (b != [] ==> b[0] != Bs)
    ensures Backs(a + b)
  {
    var s := a + b;
    forall i | 0 <= i < |s| && s[i] == Bs ensures i > 0 && s[i - 1].Ink? {
      if i >= |a| {
        assert s[i] == b[i - |a|];
      }
    }
  }

  lemma {:induction false} TextBacks(cells: seq<Cell>)
    requires IsGrid(cells)
    ensures Backs(Text(cells))
  {
    if cells != [] {
      hide CellText, Backs, IsCell;
      var n := |cells| - 1;
      assert IsCell(cells[n]);
      TextBacks(cells[..n]);
      CellBacks(cells[n]);
      BacksJoin(Text(cells[..n]), CellText(cells[n]));
    }
  }

  class Printer {
    const xflag: bool
    var out: seq<Key>
    var cline: nat
    var pcp: nat
    var gflag: bool

    /** The counters are where the terminal really is. */
    ghost predicate Ready()
      reads this
    {
      var p := Paged(out);
      p.row == cline && p.col == pcp && p.shift == gflag
    }

    ghost function Marks(): seq<Mark>
      reads this
    {
      Paged(out).marks
    }

    constructor (xflag: bool)
      ensures Ready() && Marks() == [] && cline == 0 && this.xflag == xflag && out == []
    {
      this.xflag := xflag;
      out, cline, pcp, gflag := [], 0, 0, false;
    }

    method Putchar(k: Key)
      modifies this`out
      ensures out == old(out) + [k] && Paged(out) == Typed(old(Paged(out)), k)
    {
      PagedMore(out, k);
      out := out + [k];
    }

    /** Down to a line, to its first column. */
    method Down(lineno: nat)
      requires Ready() && cline <= lineno
      modifies this
      ensures Ready() && cline == lineno && pcp == 0 && Marks() == old(Marks()) && gflag == old(gflag)
    {
      hide Paged;
      while cline + 1 < lineno
        invariant Ready() && cline <= lineno && Marks() == old(Marks()) && gflag == old(gflag)
      {
        Putchar(Newline);
        pcp, cline := 0, cline + 2;
      }
      if cline != lineno {
        Putchar(Half);
        cline := cline + 1;
      }
      if pcp != 0 {
        Putchar(Return);
      }
      pcp := 0;
    }

    /** Blanks of the text, from index i on: as tabs where they reach one. */
    method Blanks(s: seq<Ch>, i0: nat, lineno: nat) returns (i: nat, ncp: nat)
      requires Ready() && i0 <= |s| && Walk(s[..i0], lineno).col == pcp
      modifies this`out, this`pcp
      ensures Ready() && Marks() == old(Marks()) && i0 <= i <= |s| && (i < |s| ==> s[i] != Sp)
      ensures Walk(s[..i], lineno) == Trace(ncp, Walk(s[..i0], lineno).marks) && pcp <= ncp
    {
      hide Paged, Walk;
      i, ncp := i0, pcp;
      while i < |s| && s[i] == Sp
        invariant Ready() && Marks() == old(Marks()) && i0 <= i <= |s|
        invariant Walk(s[..i], lineno) == Trace(ncp, Walk(s[..i0], lineno).marks) && pcp <= ncp
        invariant xflag ==> pcp / 8 == ncp / 8
      {
        WalkMore(s, i, lineno);
        i, ncp := i + 1, ncp + 1;
        if ncp % 8 == 0 && xflag {
          Putchar(Tab);
          pcp := ncp;
        }
      }
    }

    method Spaces(ncp: nat)
      requires Ready() && pcp <= ncp
      modifies this`out, this`pcp
      ensures Ready() && Marks() == old(Marks()) && pcp == ncp
    {
      hide Paged;
      while pcp < ncp
        invariant Ready() && Marks() == old(Marks()) && pcp <= ncp
      {
        Putchar(Space);
        pcp := pcp + 1;
      }
    }

    /** A glyph with the shift it needs, or a backspace. */
    method Character(c: Ch)
      requires Ready() && (c.Ink? || (c == Bs && pcp > 0))
      modifies this`out, this`pcp, this`gflag
      ensures Ready()
      ensures Trace(pcp, Marks()) == Step(Trace(old(pcp), old(Marks())), c, cline)
    {
      hide Paged;
      if c.Ink? && gflag != c.greek {
        Putchar(if gflag then ShiftIn else ShiftOut);
        gflag := !gflag;
      }
      if c.Ink? {
        Putchar(Put(c.code));
        pcp := pcp + 1;
      } else {
        Putchar(Back);
        pcp := pcp - 1;
      }
    }

    lemma Shifted(a: seq<Mark>, b: seq<Mark>, col: nat, c: Ch, row: nat)
      ensures Step(Trace(col, a + b), c, row) == Trace(Step(Trace(col, b), c, row).col, a + Step(Trace(col, b), c, row).marks)
    {
    }

    /** emit: the ink of the text on its line, and nothing else. */
    method Emit(s: seq<Ch>, lineno: nat)
      requires Ready() && cline <= lineno && Backs(s) && Nul !in s
      modifies this
      ensures Ready() && Marks() == old(Marks()) + Walk(s, lineno).marks
      ensures cline == if s == [] then old(cline) else lineno
    {
      hide Paged, Walk;
      NoWalk(lineno);
      if s != [] {
        Down(lineno);
        var i := 0;
        while i < |s|
          invariant Ready() && cline == lineno && i <= |s| && Walk(s[..i], lineno).col == pcp
          invariant Marks() == old(Marks()) + Walk(s[..i], lineno).marks
        {
          var ncp;
          i, ncp := Blanks(s, i, lineno);
          if i == |s| {
            break;
          }
          Spaces(ncp);
          if s[i] == Bs {
            WalkMore(s, i - 1, lineno);
          }
          WalkMore(s, i, lineno);
          assert s[i] in s;
          Shifted(old(Marks()), Walk(s[..i], lineno).marks, pcp, s[i], lineno);
          Character(s[i]);
          i := i + 1;
        }
        assert s[..|s|] == s;
      }
    }

    lemma NoWalk(row: nat)
      ensures Walk([], row) == Trace(0, [])
    {
    }
  }
}
