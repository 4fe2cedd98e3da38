/**
 The text of a line obeyed as commands: each glyph after its shift, backspaces
 and blanks as they stand.  It writes the line again, glyph for glyph, with the
 glyphs struck over the first of a column in the opposite order.
 */
module ColText {
  import opened Basics
  import opened ColGrid
  import opened ColPage
  import opened ColCommands
  import P = ColPrinter

  function Key(c: Ch): seq<Command> {
    match c
    case Nul => []
    case Bs => [Backspace]
    case Sp => [Blank]
    case Ink(code, greek) => [if greek then ShiftOut else ShiftIn, Printable(code)]
  }

  function Keys(t: seq<Ch>): seq<Command> {
    if t == [] then [] else Keys(t[..|t| - 1]) + Key(t[|t| - 1])
  }

  lemma {:induction false} KeysConcat(a: seq<Ch>, b: seq<Ch>)
    ensures Keys(a + b) == Keys(a) + Keys(b)
  {
    hide Key;
    if b == [] {
      assert a + b == a;
    } else {
      assert (a + b)[..|a + b| - 1] == a + b[..|b| - 1];
      KeysConcat(a, b[..|b| - 1]);
    }
  }

  // ---- what comes back ----

  function Backwards(r: seq<Ch>): (s: seq<Ch>)
    ensures |s| == |r|
  {
    if r == [] then [] else [r[|r| - 1]] + Backwards(r[..|r| - 1])
  }

  lemma {:induction false} BackwardsAt(r: seq<Ch>, i: nat)
    requires i < |r|
    ensures Backwards(r)[i] == r[|r| - 1 - i]
  {
    if i > 0 {
      BackwardsAt(r[..|r| - 1], i - 1);
    }
  }

  lemma TailInk(c: Cell)
    requires IsCell(c)
    ensures forall i :: 0 <= i < |c[1..]| ==> c[1..][i].Ink?
  {
  }

  /** A column struck again: the first glyph stays first, every other goes
      second in its turn. */
  function Again(c: Cell): (d: Cell)
    requires IsCell(c)
    ensures IsCell(d) && |d| == |c| && d[0] == c[0]
  {
    TailInk(c);
    BackwardsInk(c[1..]);
    [c[0]] + Backwards(c[1..])
  }

  lemma {:induction false} BackwardsSame(r: seq<Ch>)
    ensures multiset(Backwards(r)) == multiset(r)
  {
    if r != [] {
      var n := |r| - 1;
      BackwardsSame(r[..n]);
      assert r == r[..n] + [r[n]];
    }
  }

  lemma BackwardsInk(r: seq<Ch>)
    requires forall i :: 0 <= i < |r| ==> r[i].Ink?
    ensures forall i :: 0 <= i < |r| ==> Backwards(r)[i].Ink?
  {
    hide Backwards;
    forall i | 0 <= i < |r| ensures Backwards(r)[i].Ink? {
      BackwardsAt(r, i);
    }
  }

  /** The columns struck again. */
  function AllAgain(cells: seq<Cell>): (r: seq<Cell>)
    requires IsGrid(cells)
    ensures IsGrid(r) && |r| == |cells|
  {
    if cells == [] then [] else AllAgain(cells[..|cells| - 1]) + [Again(cells[|cells| - 1])]
  }

  /** Without blank columns at the end. */
  function Trimmed(cells: seq<Cell>): (r: seq<Cell>)
    requires IsGrid(cells)
    ensures IsGrid(r) && r <= cells
  {
    if cells != [] && cells[|cells| - 1] == [Sp] then Trimmed(cells[..|cells| - 1]) else cells
  }

  lemma {:induction false} PadsBack(cells: seq<Cell>)
    requires IsGrid(cells)
    ensures Padded(Trimmed(cells), |cells|) == cells
  {
    if cells != [] && cells[|cells| - 1] == [Sp] {
      var n := |cells| - 1;
      PadsBack(cells[..n]);
      assert cells == cells[..n] + [cells[n]];
      assert Padded(Trimmed(cells[..n]), n) == cells[..n];
    }
  }

  // ---- obeying a column ----

  /** The page s with another line and column. */
  function Line(s: Sheet, cells: seq<Cell>, col: nat, g: bool): Sheet {
    s.(cur := cells, cp := col, greek := g)
  }

  /** A glyph after its shift. */
  lemma OneGlyph(s: Sheet, c: Ch, fflag: bool)
    requires Proper(s) && c.Ink?
    ensures IsGrid(s.cur) && More(s, Key(c), fflag) == Line(s, Struck(s.cur, s.cp, c), s.cp + 1, c.greek)
  {
    hide Proper, Struck, IsGrid, More;
    ProperGrid(s);
    TwoCommands(s, if c.greek then ShiftOut else ShiftIn, Printable(c.code), fflag);
  }

  lemma {:induction false} StrikesSnoc(r: seq<Ch>, c: Ch)
    ensures Strikes(r + [c]) == Strikes(r) + [Bs, c]
  {
    if r != [] {
      assert (r + [c])[1..] == r[1..] + [c];
      StrikesSnoc(r[1..], c);
    } else {
      assert [c][1..] == [];
      assert r + [c] == [c];
    }
  }

  /** The keys of one more glyph in a column. */
  lemma KeysMore(c: Cell)
    requires |c| >= 2
    ensures var n := |c| - 1; Keys(CellText(c)) == Keys(CellText(c[..n])) + ([Backspace] + Key(c[n]))
  {
    var n := |c| - 1;
    assert c[1..] == c[..n][1..] + [c[n]];
    StrikesSnoc(c[..n][1..], c[n]);
    assert CellText(c) == CellText(c[..n]) + [Bs, c[n]];
    KeysConcat(CellText(c[..n]), [Bs, c[n]]);
    hide CellText;
    TwoKeys(Bs, c[n]);
  }

  lemma TwoKeys(a: Ch, b: Ch)
    ensures Keys([a, b]) == Key(a) + Key(b) && Keys([a]) == Key(a)
  {
    hide Key;
    assert [a, b][..1] == [a] && [a][..0] == [];
    assert Keys([a]) == Keys([]) + Key(a);
  }

  lemma BackwardsMore(c: Cell)
    requires |c| >= 2 && IsCell(c)
    ensures var n := |c| - 1; IsCell(c[..n]) && Again(c) == [Again(c[..n])[0], c[n]] + Again(c[..n])[1..]
  {
    var n := |c| - 1;
    var r := c[1..];
    assert r[..|r| - 1] == c[..n][1..];
  }

  /** Back one, and the glyph goes second. */
  lemma Overstrike(s: Sheet, base: seq<Cell>, d: Cell, c: Ch, fflag: bool)
    requires Proper(s) && c.Ink? && IsGrid(base) && IsCell(d) && d != [Sp]
    requires s.cur == base + [d] && s.cp == |base| + 1
    ensures More(s, [Backspace] + Key(c), fflag) == Line(s, base + [[d[0], c] + d[1..]], |base| + 1, c.greek)
  {
    hide Proper, More, Key;
    OneCommand(s, Backspace, fflag);
    var t := More(s, [Backspace], fflag);
    assert t == s.(cp := |base|);
    MoreJoined(s, [Backspace], Key(c), fflag);
    OneGlyph(t, c, fflag);
    StruckSecond(base, d, c);
  }

  lemma StruckSecond(base: seq<Cell>, d: Cell, c: Ch)
    requires IsGrid(base) && IsCell(d) && d != [Sp] && c.Ink?
    ensures IsGrid(base + [d]) && Struck(base + [d], |base|, c) == base + [[d[0], c] + d[1..]]
  {
    assert Padded(base + [d], |base|) == base + [d];
  }

  lemma StruckFirst(cells: seq<Cell>, base: seq<Cell>, c: Ch)
    requires IsGrid(cells) && |cells| <= |base| && Padded(cells, |base|) == base && c.Ink?
    ensures Struck(cells, |base|, c) == base + [[c]]
  {
  }

  /** A column with ink. */
  lemma {:induction false} InkColumn(s: Sheet, base: seq<Cell>, c: Cell, fflag: bool)
    requires Proper(s) && IsCell(c) && c != [Sp] && s.cp == |base|
    requires IsGrid(s.cur) && |s.cur| <= |base| && Padded(s.cur, |base|) == base
    ensures More(s, Keys(CellText(c)), fflag) == Line(s, base + [Again(c)], |base| + 1, c[|c| - 1].greek)
    decreases |c|
  {
    hide Proper, More, Key, Keys, CellText, Again, IsGrid, Struck, Padded;
    if |c| == 1 {
      SingleColumn(c);
      assert c == [c[0]];
      OneGlyph(s, c[0], fflag);
      StruckFirst(s.cur, base, c[0]);
    } else {
      var n := |c| - 1;
      KeysMore(c);
      BackwardsMore(c);
      InkColumn(s, base, c[..n], fflag);
      MoreJoined(s, Keys(CellText(c[..n])), [Backspace] + Key(c[n]), fflag);
      PaddedGrid(s.cur, |base|);
      Overstrike(More(s, Keys(CellText(c[..n])), fflag), base, Again(c[..n]), c[n], fflag);
    }
  }

  lemma PaddedGrid(cells: seq<Cell>, n: nat)
    requires IsGrid(cells)
    ensures IsGrid(Padded(cells, n))
  {
    hide Padded, IsGrid;
  }

  lemma SingleColumn(c: Cell)
    requires |c| == 1 && IsCell(c)
    ensures CellText(c) == [c[0]] && Keys([c[0]]) == Key(c[0]) && Again(c) == c
  {
    TwoKeys(c[0], c[0]);
    assert c[1..] == [];
  }

  // ---- obeying a line ----

  lemma BlankColumn(s: Sheet, fflag: bool)
    requires Proper(s)
    ensures More(s, Keys(CellText([Sp])), fflag) == s.(cp := s.cp + 1)
  {
    hide Proper, More, Keys;
    SingleColumn([Sp]);
    ProperGrid(s);
    OneCommand(s, Blank, fflag);
  }

  lemma TrimmedMore(cells: seq<Cell>, c: Cell)
    requires IsGrid(cells) && IsCell(c)
    ensures IsGrid(cells + [c])
    ensures Trimmed(cells + [c]) == if c == [Sp] then Trimmed(cells) else cells + [c]
  {
    assert (cells + [c])[..|cells|] == cells;
  }

  lemma TextLast(cells: seq<Cell>)
    requires IsGrid(cells) && cells != []
    ensures var n := |cells| - 1;
      && IsGrid(cells[..n]) && IsCell(cells[n]) && Keys(Text(cells)) == Keys(Text(cells[..n])) + Keys(CellText(cells[n]))
      && AllAgain(cells) == AllAgain(cells[..n]) + [Again(cells[n])]
  {
    hide Keys, CellText, Again;
    KeysConcat(Text(cells[..|cells| - 1]), CellText(cells[|cells| - 1]));
  }

  /** A whole line obeyed on an empty one from the margin. */
  lemma {:induction false} TextAgain(s: Sheet, cells: seq<Cell>, fflag: bool)
    requires Proper(s) && IsGrid(cells) && s.cur == [] && s.cp == 0
    ensures var t := More(s, Keys(Text(cells)), fflag); t == Line(s, Trimmed(AllAgain(cells)), |cells|, t.greek)
  {
    hide *;
    if cells == [] {
      NoText(s, fflag);
      LineIs(s, Trimmed(AllAgain([])), 0, s.greek);
    } else {
      var n := |cells| - 1;
      TextLast(cells);
      TextAgain(s, cells[..n], fflag);
      var base := AllAgain(cells[..n]);
      var t := More(s, Keys(Text(cells[..n])), fflag);
      LineIs(s, Trimmed(base), n, t.greek);
      MoreJoined(s, Keys(Text(cells[..n])), Keys(CellText(cells[n])), fflag);
      PadsBack(base);
      TrimmedMore(base, Again(cells[n]));
      AgainBlank(cells[n]);
      if cells[n] == [Sp] {
        BlankColumn(t, fflag);
        LineIs(s, Trimmed(base), n + 1, t.greek);
      } else {
        InkColumn(t, base, cells[n], fflag);
        LineIs(t, base + [Again(cells[n])], n + 1, cells[n][|cells[n]| - 1].greek);
        LineIs(s, base + [Again(cells[n])], n + 1, cells[n][|cells[n]| - 1].greek);
      }
    }
  }

  lemma NoText(s: Sheet, fflag: bool)
    requires Proper(s) && s.cur == [] && s.cp == 0
    ensures IsGrid([]) && More(s, Keys(Text([])), fflag) == Line(s, Trimmed(AllAgain([])), 0, s.greek)
  {
  }

  lemma LineIs(s: Sheet, cells: seq<Cell>, col: nat, g: bool)
    ensures Line(s, cells, col, g) == s.(cur := cells, cp := col, greek := g)
  {
  }

  lemma AgainBlank(c: Cell)
    requires IsCell(c)
    ensures Again(c) == [Sp] <==> c == [Sp]
    ensures |c| > 0 && (c != [Sp] ==> c[|c| - 1].Ink?)
  {
    assert c == [Sp] ==> Again(c)[0] == Sp;
  }

  /** A line obeyed on an empty one from the margin writes its columns again,
      ends at its last column, and touches no other line. */
  lemma LineAgain(cs: seq<Command>, cells: seq<Cell>, fflag: bool)
    requires IsGrid(cells) && Obeyed(cs, fflag).cur == [] && Obeyed(cs, fflag).cp == 0
    ensures var s, t := Obeyed(cs, fflag), Obeyed(cs + Keys(Text(cells)), fflag);
      && t.cur == Trimmed(AllAgain(cells)) && t.cp == |cells|
      && t.lines == s.lines && t.ll == s.ll && t.top == s.top && t.half == s.half
  {
    hide *;
    var s := Obeyed(cs, fflag);
    ObeyedMore(cs, Keys(Text(cells)), fflag);
    TextAgain(s, cells, fflag);
    var t := Obeyed(cs + Keys(Text(cells)), fflag);
    LineIs(s, Trimmed(AllAgain(cells)), |cells|, t.greek);
  }

  // ---- how it compares ----

  /** The glyphs over the first read the same both ways. */
  ghost predicate Palindrome(c: Cell) {
    forall i :: 1 <= i < |c| ==> c[i] == c[|c| - i]
  }

  lemma AgainAt(c: Cell, i: nat)
    requires IsCell(c) && 1 <= i < |c|
    ensures Again(c)[i] == c[|c| - i]
  {
    BackwardsAt(c[1..], i - 1);
  }

  lemma AgainGlyphs(c: Cell)
    requires IsCell(c)
    ensures multiset(Again(c)) == multiset(c)
  {
    BackwardsSame(c[1..]);
    assert c == [c[0]] + c[1..];
  }

  lemma AgainPalindrome(c: Cell)
    requires IsCell(c)
    ensures Again(c) == c <==> Palindrome(c)
  {
    hide Again;
    forall i | 1 <= i < |c| ensures Again(c)[i] == c[|c| - i] {
      AgainAt(c, i);
    }
  }

  lemma AgainTwice(c: Cell)
    requires IsCell(c)
    ensures Again(Again(c)) == c
  {
    hide Again, IsCell;
    forall i | 1 <= i < |c| ensures Again(Again(c))[i] == c[i] {
      AgainAt(c, |c| - i);
      AgainAt(Again(c), i);
    }
  }

  lemma {:induction false} AllAgainAt(cells: seq<Cell>, k: nat)
    requires IsGrid(cells) && k < |cells|
    ensures AllAgain(cells)[k] == Again(cells[k])
  {
    hide Again, IsCell;
    if k < |cells| - 1 {
      AllAgainAt(cells[..|cells| - 1], k);
    }
  }

  /** Columns cut off are blank. */
  lemma {:induction false} TrimmedGlyphs(cells: seq<Cell>, k: nat)
    requires IsGrid(cells)
    ensures Glyphs(Trimmed(cells), k) == Glyphs(cells, k)
  {
    if cells != [] && cells[|cells| - 1] == [Sp] {
      TrimmedGlyphs(cells[..|cells| - 1], k);
    }
  }

  /** Every column has its glyphs again. */
  lemma LineGlyphs(cells: seq<Cell>, k: nat)
    requires IsGrid(cells)
    ensures Glyphs(Trimmed(AllAgain(cells)), k) == Glyphs(cells, k)
  {
    hide Trimmed, AllAgain, Again;
    TrimmedGlyphs(AllAgain(cells), k);
    if k < |cells| {
      AllAgainAt(cells, k);
      AgainGlyphs(cells[k]);
      AgainBlank(cells[k]);
    }
  }

  /** The line is the same exactly when it does not end in a blank column and
      in every column the glyphs over the first read the same both ways. */
  lemma LineSame(cells: seq<Cell>)
    requires IsGrid(cells)
    ensures Trimmed(AllAgain(cells)) == cells <==>
            (cells == [] || cells[|cells| - 1] != [Sp]) && forall k :: 0 <= k < |cells| ==> Palindrome(cells[k])
  {
    hide AllAgain, Again, Palindrome;
    forall k | 0 <= k < |cells|
      ensures AllAgain(cells)[k] == Again(cells[k]) && (Again(cells[k]) == cells[k] <==> Palindrome(cells[k]))
    {
      AllAgainAt(cells, k);
      AgainPalindrome(cells[k]);
      AgainBlank(cells[k]);
    }
    if cells != [] {
      AgainBlank(cells[|cells| - 1]);
    }
  }

  /** A letter underlined: both glyphs in the first column of the first line,
      and the page on the next line at the margin. */
  lemma Underlined(a: nat, b: nat, fflag: bool)
    ensures var s := Obeyed([Printable(a), Backspace, Printable(b), Newline], fflag);
      LineAt(s.lines, 0) == [[Ink(a, false), Ink(b, false)]] && s.ll == 2 && s.cp == 0 && s.cur == []
  {
    hide Obeyed, Struck, Proper, IsGrid;
    var cs := [Printable(a), Backspace, Printable(b), Newline];
    assert cs[..3] == [Printable(a), Backspace, Printable(b)] && cs[..3][..2] == [Printable(a), Backspace];
    assert [Printable(a), Backspace][..1] == [Printable(a)] && [Printable(a)][..0] == [];
    ObeyedLast([], fflag);
    ObeyedLast([Printable(a)], fflag);
    ObeyedLast([Printable(a), Backspace], fflag);
    ObeyedLast(cs[..3], fflag);
    ObeyedLast(cs, fflag);
    StruckTwice(Ink(a, false), Ink(b, false));
  }

  lemma StruckTwice(a: Ch, b: Ch)
    requires a.Ink? && b.Ink?
    ensures IsGrid([]) && Struck([], 0, a) == [[a]] && IsGrid([[a]]) && Struck([[a]], 0, b) == [[a, b]]
  {
    assert Padded([[a]], 0) == [[a]] && Padded([], 0) == [];
    assert [a, b] + [a][1..] == [a, b];
  }
}
