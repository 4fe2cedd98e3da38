/**
 What the commands of col do to the page over whole inputs: where they leave
 the column and the row, which glyphs they strike, and that the text of a line
 obeyed as commands writes that line again.
 */
module ColCommands {
  import opened Basics
  import opened ColGrid
  import opened ColPage
  import P = ColPrinter

  /** More commands obeyed from a page on. */
  function More(s: Sheet, cs: seq<Command>, fflag: bool): (t: Sheet)
    requires Proper(s)
    ensures Proper(t)
  {
    if cs == [] then s
    else
      var t := More(s, cs[..|cs| - 1], fflag);
      ObeyProper(t, cs[|cs| - 1], fflag);
      Obey(t, cs[|cs| - 1], fflag)
  }

  lemma {:induction false} MoreJoined(s: Sheet, a: seq<Command>, b: seq<Command>, fflag: bool)
    requires Proper(s)
    ensures More(s, a + b, fflag) == More(More(s, a, fflag), b, fflag)
  {
    hide Obey, Proper;
    if b == [] {
      assert a + b == a;
    } else {
      assert (a + b)[..|a + b| - 1] == a + b[..|b| - 1];
      MoreJoined(s, a, b[..|b| - 1], fflag);
    }
  }

  lemma {:induction false} ObeyedMore(a: seq<Command>, b: seq<Command>, fflag: bool)
    ensures Obeyed(a + b, fflag) == More(Obeyed(a, fflag), b, fflag)
  {
    hide Obey, Proper;
    if b == [] {
      assert a + b == a;
    } else {
      assert (a + b)[..|a + b| - 1] == a + b[..|b| - 1];
      ObeyedMore(a, b[..|b| - 1], fflag);
    }
  }

  lemma OneCommand(s: Sheet, c: Command, fflag: bool)
    requires Proper(s)
    ensures IsGrid(s.cur) && More(s, [c], fflag) == Obey(s, c, fflag)
  {
    hide Obey;
    assert [c][..0] == [];
    assert More(s, [], fflag) == s;
  }

  lemma TwoCommands(s: Sheet, c: Command, d: Command, fflag: bool)
    requires Proper(s)
    ensures IsGrid(s.cur) && IsGrid(Obey(s, c, fflag).cur)
    ensures More(s, [c, d], fflag) == Obey(Obey(s, c, fflag), d, fflag)
  {
    hide Obey, IsGrid;
    ObeyProper(s, c, fflag);
    OneCommand(s, c, fflag);
    OneCommand(Obey(s, c, fflag), d, fflag);
    MoreJoined(s, [c], [d], fflag);
    assert [c] + [d] == [c, d];
  }

  // ---- the column ----

  /** Only the column differs. */
  predicate Aside(s: Sheet, t: Sheet) {
    t == s.(cp := t.cp)
  }

  /** A tab goes to the least multiple of 8 to the right. */
  lemma TabStop(cs: seq<Command>, fflag: bool)
    ensures var s, t := Obeyed(cs, fflag), Obeyed(cs + [Tab], fflag);
      && Aside(s, t) && t.cp > s.cp && t.cp % 8 == 0
      && forall n :: n > s.cp && n % 8 == 0 ==> t.cp <= n
  {
    hide Obeyed, Proper, IsGrid;
    ObeyedMore(cs, [Tab], fflag);
    OneCommand(Obeyed(cs, fflag), Tab, fflag);
  }

  /** A backspace goes one to the left, but not over the margin; a blank one to
      the right; a return to the margin.  None touches the line. */
  lemma ColumnMoves(cs: seq<Command>, fflag: bool)
    ensures var s, t := Obeyed(cs, fflag), Obeyed(cs + [Backspace], fflag);
      Aside(s, t) && if s.cp == 0 then t.cp == 0 else t.cp == s.cp - 1
    ensures var s, t := Obeyed(cs, fflag), Obeyed(cs + [Blank], fflag); Aside(s, t) && t.cp == s.cp + 1
    ensures var s, t := Obeyed(cs, fflag), Obeyed(cs + [Return], fflag); Aside(s, t) && t.cp == 0
  {
    hide Obeyed, Proper, IsGrid;
    ObeyedMore(cs, [Backspace], fflag);
    ObeyedMore(cs, [Blank], fflag);
    ObeyedMore(cs, [Return], fflag);
    OneCommand(Obeyed(cs, fflag), Backspace, fflag);
    OneCommand(Obeyed(cs, fflag), Blank, fflag);
    OneCommand(Obeyed(cs, fflag), Return, fflag);
  }

  // ---- shifts ----

  /** The shift in force after an input: that of its last shift command. */
  function Shifted(cs: seq<Command>): bool {
    if cs == [] then false
    else
      var c := cs[|cs| - 1];
      if c == ShiftOut then true else if c == ShiftIn then false else Shifted(cs[..|cs| - 1])
  }

  lemma ObeyShift(s: Sheet, c: Command, fflag: bool)
    requires IsGrid(s.cur)
    ensures Obey(s, c, fflag).greek == if c == ShiftOut then true else if c == ShiftIn then false else s.greek
  {
    hide Struck, IsGrid;
  }

  lemma {:induction false} ShiftKept(cs: seq<Command>, fflag: bool)
    ensures Obeyed(cs, fflag).greek == Shifted(cs)
  {
    if cs != [] {
      hide Obey;
      ShiftKept(cs[..|cs| - 1], fflag);
      ObeyShift(Obeyed(cs[..|cs| - 1], fflag), cs[|cs| - 1], fflag);
    }
  }

  /** A character is struck at the column with the shift of the last shift
      command before it; every other column keeps its glyphs, and the column
      goes one to the right. */
  lemma Strike(cs: seq<Command>, code: nat, fflag: bool, k: nat)
    ensures var s, t := Obeyed(cs, fflag), Obeyed(cs + [Printable(code)], fflag);
      && Glyphs(t.cur, k) == Glyphs(s.cur, k) + (if k == s.cp then multiset{Ink(code, Shifted(cs))} else multiset{})
      && t.cp == s.cp + 1 && t == s.(cur := t.cur, cp := t.cp)
  {
    hide Obeyed, Shifted, Glyphs, Struck;
    ObeyedMore(cs, [Printable(code)], fflag);
    OneCommand(Obeyed(cs, fflag), Printable(code), fflag);
    ShiftKept(cs, fflag);
    StruckGlyphs(Obeyed(cs, fflag).cur, Obeyed(cs, fflag).cp, Ink(code, Shifted(cs)), k);
  }

  // ---- rows ----

  /** What stands on line n of the page. */
  function Content(s: Sheet, n: nat): seq<Cell> {
    if n == s.ll then s.cur else LineAt(s.lines, n)
  }

  /** Nothing on the page has changed. */
  ghost predicate SameLines(s: Sheet, t: Sheet) {
    forall m :: Content(t, m) == Content(s, m)
  }

  ghost predicate SamePage(s: Sheet, t: Sheet) {
    t.greek == s.greek && SameLines(s, t)
  }

  /** From s to line n, with everything on the page kept. */
  ghost predicate Goes(s: Sheet, t: Sheet, n: int) {
    t.ll == n && t.top == (if s.top < n then n else s.top) && SamePage(s, t)
  }

  lemma GoesOn(s: Sheet, t: Sheet, u: Sheet, m: int, n: int)
    requires Goes(s, t, m) && Goes(t, u, n) && m <= n && s.ll <= s.top
    ensures Goes(s, u, n)
  {
    hide Content;
  }

  lemma GoesBack(s: Sheet, t: Sheet, u: Sheet, m: int, n: int)
    requires Goes(s, t, m) && Goes(t, u, n) && n <= m <= s.top
    ensures Goes(s, u, n)
  {
    hide Content;
  }

  /** Two half lines down. */
  lemma DownGoes(s: Sheet)
    requires Proper(s)
    ensures var t := Down(Down(s)); Goes(s, t, s.ll + 2) && t.cp == s.cp && t.half == s.half
    ensures Goes(s, Down(s), s.ll + 1) && Down(s).cp == s.cp && Down(s).half == s.half
  {
    GoesOn(s, Down(s), Down(Down(s)), s.ll + 1, s.ll + 2);
  }

  /** The lowest line still in the ring of 256. */
  function Lowest(top: nat): nat {
    if top < 256 then 0 else top - 255
  }

  function Raised(ll: nat, n: nat, top: nat): int {
    if ll < Lowest(top) + n then Lowest(top) else ll - n
  }

  /** Two half lines up, or as far up as the ring goes. */
  lemma UpGoes(s: Sheet)
    requires Proper(s)
    ensures var t := Up(Up(s)); Goes(s, t, Raised(s.ll, 2, s.top)) && t.cp == s.cp && t.half == s.half
    ensures Goes(s, Up(s), Raised(s.ll, 1, s.top)) && Up(s).cp == s.cp && Up(s).half == s.half
  {
    UpProper(s);
    GoesBack(s, Up(s), Up(Up(s)), Raised(s.ll, 1, s.top), Raised(s.ll, 2, s.top));
  }

  lemma HalfAlone(s: Sheet, h: int, t: Sheet, n: int)
    requires Goes(s, t, n)
    ensures Goes(s, t.(half := h), n) && Goes(s.(half := h), t, n)
  {
    assert forall m :: Content(t.(half := h), m) == Content(t, m) && Content(s.(half := h), m) == Content(s, m);
  }

  lemma ColumnAlone(s: Sheet, c: nat, t: Sheet, n: int)
    requires Goes(s, t, n)
    ensures Goes(s, t.(cp := c), n)
  {
    assert forall m :: Content(t.(cp := c), m) == Content(t, m);
  }

  /** A newline goes two half lines down and to the margin. */
  lemma LineFeed(cs: seq<Command>, fflag: bool)
    ensures var s, t := Obeyed(cs, fflag), Obeyed(cs + [Newline], fflag);
      Goes(s, t, s.ll + 2) && t.cp == 0 && t.half == s.half
  {
    hide Obeyed, Proper, IsGrid, Goes, Down;
    var s := Obeyed(cs, fflag);
    ObeyedMore(cs, [Newline], fflag);
    OneCommand(s, Newline, fflag);
    DownGoes(s);
    ColumnAlone(s, 0, Down(Down(s)), s.ll + 2);
  }

  /** A reverse line feed goes two half lines up in its column. */
  lemma ReverseFeed(cs: seq<Command>, fflag: bool)
    ensures var s, t := Obeyed(cs, fflag), Obeyed(cs + [Reverse], fflag);
      Goes(s, t, Raised(s.ll, 2, s.top)) && t.cp == s.cp && t.half == s.half
  {
    hide Obeyed, Proper, IsGrid, Goes, Up, Raised;
    var s := Obeyed(cs, fflag);
    ObeyedMore(cs, [Reverse], fflag);
    OneCommand(s, Reverse, fflag);
    UpGoes(s);
  }

  /** Without -f the count of half lines is 0 or one half line behind. */
  lemma {:induction false} HalfCount(cs: seq<Command>, fflag: bool)
    ensures var h := Obeyed(cs, fflag).half; if fflag then h == 0 else h == 0 || h == -1
  {
    if cs != [] {
      hide Obey, Proper, IsGrid;
      var s, c := Obeyed(cs[..|cs| - 1], fflag), cs[|cs| - 1];
      HalfCount(cs[..|cs| - 1], fflag);
      CountStep(s, c, fflag);
    }
  }

  lemma CountStep(s: Sheet, c: Command, fflag: bool)
    requires Proper(s) && if fflag then s.half == 0 else s.half == 0 || s.half == -1
    ensures IsGrid(s.cur)
    ensures var h := Obey(s, c, fflag).half; if fflag then h == 0 else h == 0 || h == -1
  {
    hide Proper, Struck, Down, Up, Goes;
    ProperGrid(s);
    DownGoes(s);
    UpGoes(s);
    HalfAside(s, s.half + 1);
    HalfAside(s, s.half - 1);
  }

  /** With -f a half line feed goes one half line. */
  lemma RealHalves(cs: seq<Command>)
    ensures var s, t := Obeyed(cs, true), Obeyed(cs + [HalfForward], true); Goes(s, t, s.ll + 1) && t.cp == s.cp
    ensures var s, t := Obeyed(cs, true), Obeyed(cs + [HalfReverse], true);
      Goes(s, t, Raised(s.ll, 1, s.top)) && t.cp == s.cp
  {
    hide Obeyed, Proper, IsGrid, Goes, Down, Up, Raised;
    var s := Obeyed(cs, true);
    ObeyedMore(cs, [HalfForward], true);
    ObeyedMore(cs, [HalfReverse], true);
    OneCommand(s, HalfForward, true);
    OneCommand(s, HalfReverse, true);
    DownGoes(s);
    UpGoes(s);
  }

  /** The half-line commands without -f, from a page with count h. */
  lemma HalfStep(s: Sheet, down: bool)
    requires Proper(s) && (s.half == 0 || s.half == -1)
    ensures IsGrid(s.cur)
    ensures var t := Obey(s, if down then HalfForward else HalfReverse, false);
      && t.cp == s.cp && t.half == -1 - s.half
      && Goes(s, t, if down == (s.half == -1) then s.ll else if down then s.ll + 2 else Raised(s.ll, 2, s.top))
  {
    hide Proper, Goes, Down, Up, Raised, Struck;
    ProperGrid(s);
    DownGoes(s);
    UpGoes(s);
    HalfAside(s, s.half + 1);
    HalfAside(s, s.half - 1);
    Stays(s);
    HalfAlone(s, 0, s, s.ll);
    HalfAlone(s, -1, s, s.ll);
    HalfAlone(s, -1, Down(Down(s)), s.ll + 2);
    HalfAlone(s, 0, Up(Up(s)), Raised(s.ll, 2, s.top));
  }

  lemma Stays(s: Sheet)
    requires Proper(s)
    ensures Goes(s, s, s.ll)
  {
  }

  lemma TwoHalves(s: Sheet, first: bool, second: bool)
    requires Proper(s) && (s.half == 0 || s.half == -1)
    ensures var t := More(s, [if first then HalfForward else HalfReverse, if second then HalfForward else HalfReverse], false);
      && t.cp == s.cp && t.half == s.half && SamePage(s, t)
      && (first && second ==> Goes(s, t, s.ll + 2))
      && (!first && !second ==> Goes(s, t, Raised(s.ll, 2, s.top)))
      && (first && !second ==> t.ll == s.ll)
  {
    hide Obey, Proper, Goes, More, SamePage;
    var c, d := if first then HalfForward else HalfReverse, if second then HalfForward else HalfReverse;
    TwoCommands(s, c, d, false);
    var t := Obey(s, c, false);
    ObeyProper(s, c, false);
    HalfStep(s, first);
    HalfStep(t, second);
    var u := Obey(t, d, false);
    InReach(s);
    GoesAt(s, t, if first == (s.half == -1) then s.ll else if first then s.ll + 2 else Raised(s.ll, 2, s.top));
    GoesAt(t, u, if second == (t.half == -1) then t.ll else if second then t.ll + 2 else Raised(t.ll, 2, t.top));
    SameBoth(s, t, u);
    if first && second {
      GoesOn(s, t, u, t.ll, u.ll);
    } else if !first && !second {
      GoesBack(s, t, u, t.ll, u.ll);
    } else if first && s.half == 0 {
      BackAgain(s, t);
    }
  }

  lemma GoesAt(s: Sheet, t: Sheet, n: int)
    requires Goes(s, t, n)
    ensures t.ll == n && t.top == if s.top < n then n else s.top
  {
  }

  lemma InReach(s: Sheet)
    requires Proper(s)
    ensures s.ll <= s.top && Lowest(s.top) <= s.ll && Raised(s.ll, 2, s.top) <= s.ll
  {
  }

  /** Up again from two lines below: the ring still has the line. */
  lemma BackAgain(s: Sheet, t: Sheet)
    requires Proper(s) && Goes(s, t, s.ll + 2)
    ensures Raised(t.ll, 2, t.top) == s.ll
  {
    hide SamePage;
  }

  lemma SameBoth(s: Sheet, t: Sheet, u: Sheet)
    requires Goes(s, t, t.ll) && Goes(t, u, u.ll)
    ensures SamePage(s, u)
  {
    hide Content;
  }

  /** Without -f two half line feeds make one full line feed, down as well as
      up, and a half line feed is undone by the reverse one. */
  lemma HalfPairs(cs: seq<Command>)
    ensures var s, t := Obeyed(cs, false), Obeyed(cs + [HalfForward, HalfForward], false);
      Goes(s, t, s.ll + 2) && t.cp == s.cp && t.half == s.half
    ensures var s, t := Obeyed(cs, false), Obeyed(cs + [HalfReverse, HalfReverse], false);
      Goes(s, t, Raised(s.ll, 2, s.top)) && t.cp == s.cp && t.half == s.half
    ensures var s, t := Obeyed(cs, false), Obeyed(cs + [HalfForward, HalfReverse], false);
      SamePage(s, t) && t.ll == s.ll && t.cp == s.cp && t.half == s.half
  {
    hide *;
    HalfCount(cs, false);
    ObeyedMore(cs, [HalfForward, HalfForward], false);
    ObeyedMore(cs, [HalfReverse, HalfReverse], false);
    ObeyedMore(cs, [HalfForward, HalfReverse], false);
    TwoHalves(Obeyed(cs, false), true, true);
    TwoHalves(Obeyed(cs, false), false, false);
    TwoHalves(Obeyed(cs, false), true, false);
  }

  // ---- the whole page ----

  /** The glyphs struck on line n in column k by an input: each printable
      character with the shift before it, where the commands before it lead. */
  function Impressions(cs: seq<Command>, fflag: bool, n: nat, k: nat): multiset<Ch> {
    if cs == [] then multiset{}
    else
      var before, c := cs[..|cs| - 1], cs[|cs| - 1];
      var s := Obeyed(before, fflag);
      Impressions(before, fflag, n, k) +
      if c.Printable? && s.ll == n && s.cp == k then multiset{Ink(c.code, Shifted(before))} else multiset{}
  }

  lemma ThereAnyway(s: Sheet, t: Sheet)
    requires t.lines == s.lines && t.cur == s.cur && t.ll == s.ll
    ensures SameLines(s, t)
  {
  }

  lemma SameSides(s: Sheet, t: Sheet, c: nat, h: int)
    requires SameLines(s, t)
    ensures SameLines(s, t.(cp := c)) && SameLines(s, t.(half := h)) && SameLines(s.(half := h), t)
  {
    assert forall m :: Content(t.(cp := c), m) == Content(t, m) && Content(t.(half := h), m) == Content(t, m);
    assert forall m :: Content(s.(half := h), m) == Content(s, m);
  }

  lemma FeedStays(s: Sheet, c: Command, fflag: bool)
    requires Proper(s) && (c.Newline? || c.Reverse? || c.HalfForward? || c.HalfReverse?)
    ensures IsGrid(s.cur) && SameLines(s, Obey(s, c, fflag))
  {
    hide Proper, Down, Up, SameLines, Raised, Struck;
    ProperGrid(s);
    DownGoes(s);
    UpGoes(s);
    ThereAnyway(s, s);
    if c.Newline? {
      SameSides(s, Down(Down(s)), 0, 0);
    } else if c.HalfForward? || c.HalfReverse? {
      var down := c.HalfForward?;
      var h := if down then s.half + 1 else s.half - 1;
      ObeyHalf(s, down, fflag);
      HalfAside(s, h);
      SameSides(s, s, 0, h);
      SameSides(s, Down(Down(s)), 0, h - 2);
      SameSides(s, Up(Up(s)), 0, h + 2);
    }
  }

  /** Only a character changes what stands on the page. */
  lemma LinesStay(s: Sheet, c: Command, fflag: bool)
    requires Proper(s) && !c.Printable?
    ensures IsGrid(s.cur) && SameLines(s, Obey(s, c, fflag))
  {
    hide Proper, SameLines, Obey;
    if c.Newline? || c.Reverse? || c.HalfForward? || c.HalfReverse? {
      FeedStays(s, c, fflag);
    } else {
      LevelStays(s, c, fflag);
    }
  }

  lemma LevelStays(s: Sheet, c: Command, fflag: bool)
    requires Proper(s) && !c.Printable? && !c.Newline? && !c.Reverse? && !c.HalfForward? && !c.HalfReverse?
    ensures IsGrid(s.cur) && SameLines(s, Obey(s, c, fflag))
  {
    hide Proper, SameLines;
    ProperGrid(s);
    ThereAnyway(s, Obey(s, c, fflag));
  }

  lemma StrikeChanges(s: Sheet, code: nat, fflag: bool, n: nat, k: nat)
    requires Proper(s)
    ensures IsGrid(s.cur)
    ensures Glyphs(Content(Obey(s, Printable(code), fflag), n), k) ==
            Glyphs(Content(s, n), k) + if s.ll == n && s.cp == k then multiset{Ink(code, s.greek)} else multiset{}
  {
    hide Proper, Struck, Glyphs;
    ProperGrid(s);
    StruckGlyphs(s.cur, s.cp, Ink(code, s.greek), k);
  }

  lemma NothingStruck(n: nat, k: nat)
    ensures Glyphs(Content(FRESH, n), k) == multiset{}
  {
  }

  lemma ObeyedLast(cs: seq<Command>, fflag: bool)
    ensures cs == [] ==> Obeyed(cs, fflag) == FRESH
    ensures cs != [] ==> var s := Obeyed(cs[..|cs| - 1], fflag);
      Proper(s) && IsGrid(s.cur) && Obeyed(cs, fflag) == Obey(s, cs[|cs| - 1], fflag)
  {
    hide Obey;
  }

  lemma ImpressionsLast(cs: seq<Command>, fflag: bool, n: nat, k: nat)
    ensures cs == [] ==> Impressions(cs, fflag, n, k) == multiset{}
    ensures cs != [] ==> var before, c := cs[..|cs| - 1], cs[|cs| - 1];
      Impressions(cs, fflag, n, k) == Impressions(before, fflag, n, k) +
        if c.Printable? && Obeyed(before, fflag).ll == n && Obeyed(before, fflag).cp == k
        then multiset{Ink(c.code, Shifted(before))} else multiset{}
  {
    hide Obeyed, Shifted;
  }

  lemma SameAt(s: Sheet, t: Sheet, n: nat)
    requires SameLines(s, t)
    ensures Content(t, n) == Content(s, n)
  {
    hide Content;
  }

  /** The page holds in every place exactly the glyphs struck there, each as
      often as it was struck. */
  lemma {:induction false} PageGlyphs(cs: seq<Command>, fflag: bool, n: nat, k: nat)
    ensures Glyphs(Content(Obeyed(cs, fflag), n), k) == Impressions(cs, fflag, n, k)
  {
    hide *;
    ObeyedLast(cs, fflag);
    ImpressionsLast(cs, fflag, n, k);
    if cs == [] {
      NothingStruck(n, k);
    } else {
      var before, c := cs[..|cs| - 1], cs[|cs| - 1];
      var s := Obeyed(before, fflag);
      PageGlyphs(before, fflag, n, k);
      if c.Printable? {
        ShiftKept(before, fflag);
        StrikeChanges(s, c.code, fflag, n, k);
      } else {
        LinesStay(s, c, fflag);
        SameAt(s, Obey(s, c, fflag), n);
      }
    }
  }

  // ---- the paper ----

  lemma CellLast(c: Cell, row: nat, col: nat)
    ensures c == [] ==> multiset(c) == multiset{} && P.CellMarks(c, row, col) == []
    ensures c != [] ==> var n := |c| - 1;
      && c == c[..n] + [c[n]]
      && P.CellMarks(c, row, col) ==
         P.CellMarks(c[..n], row, col) + if c[n].Ink? then [P.Mark(row, col, c[n].code, c[n].greek)] else []
  {
  }

  /** The number of glyphs of a column with the code and shift of a mark. */
  lemma {:induction false} CellMarked(c: Cell, row: nat, col: nat, m: P.Mark)
    ensures multiset(P.CellMarks(c, row, col))[m] ==
            if m.row == row && m.col == col then multiset(c)[Ink(m.code, m.greek)] else 0
  {
    hide *;
    CellLast(c, row, col);
    if c == [] {
    } else {
      var n := |c| - 1;
      CellMarked(c[..n], row, col, m);
      assert multiset(c) == multiset(c[..n]) + multiset{c[n]};
    }
  }

  lemma GlyphsFront(cells: seq<Cell>, k: nat)
    requires cells != []
    ensures Glyphs(cells, k) == if k == |cells| - 1 then (if cells[k] == [Sp] then multiset{} else multiset(cells[k]))
                                else Glyphs(cells[..|cells| - 1], k)
  {
  }

  lemma {:induction false} GridMarked(cells: seq<Cell>, row: nat, m: P.Mark)
    ensures multiset(P.GridMarks(cells, row))[m] ==
            if m.row == row then Glyphs(cells, m.col)[Ink(m.code, m.greek)] else 0
  {
    hide P.CellMarks;
    if cells == [] {
    } else {
      var n := |cells| - 1;
      GridMarked(cells[..n], row, m);
      CellMarked(cells[n], row, n, m);
      GlyphsFront(cells, m.col);
      hide Glyphs;
      if m.col != n {
        NotYet(cells[..n], m.col, n);
      }
    }
  }

  lemma NotYet(cells: seq<Cell>, k: nat, n: nat)
    requires |cells| == n
    ensures k >= n ==> Glyphs(cells, k) == multiset{}
  {
  }

  lemma {:induction false} InkMarked(lines: map<nat, seq<Cell>>, n: nat, m: P.Mark)
    ensures multiset(InkBelow(lines, n))[m] ==
            if m.row < n then Glyphs(LineAt(lines, m.row), m.col)[Ink(m.code, m.greek)] else 0
  {
    hide P.GridMarks, Glyphs, LineAt;
    if n == 0 {
    } else {
      InkMarked(lines, n - 1, m);
      GridMarked(LineAt(lines, n - 1), n - 1, m);
    }
  }

  /** Every mark is on the page as often as it was struck. */
  lemma PageMarks(cs: seq<Command>, fflag: bool, m: P.Mark)
    ensures multiset(PageInk(Obeyed(cs, fflag)))[m] == Impressions(cs, fflag, m.row, m.col)[Ink(m.code, m.greek)]
  {
    hide Obeyed, Impressions, InkBelow;
    var s := Obeyed(cs, fflag);
    PageGlyphs(cs, fflag, m.row, m.col);
    InkMarked(s.lines[s.ll := s.cur], s.top + 1, m);
  }

  /** The program: when the last line of the input is ended, the paper has every
      glyph of the input in its place as often as it was struck, and no other. */
  method Program(cs: seq<Command>, fflag: bool, xflag: bool) returns (c: Col)
    ensures !Unstored(cs, fflag) ==>
              forall m: P.Mark :: multiset(c.tty.Marks())[m] == Impressions(cs, fflag, m.row, m.col)[Ink(m.code, m.greek)]
  {
    hide Unstored, PageInk, Obeyed, Impressions, P.Printer.Marks;
    c := new Col(fflag, xflag);
    c.Run(cs);
    forall m: P.Mark
      ensures multiset(PageInk(Obeyed(cs, fflag)))[m] == Impressions(cs, fflag, m.row, m.col)[Ink(m.code, m.greek)]
    {
      PageMarks(cs, fflag, m);
    }
  }
}
