/**
 col as a whole: the 256 half lines of the ring stand for a page without an
 end.  A Sheet is that page; the class does on the ring what Obey does on the
 sheet.
 */
module ColPage {
  import opened Basics
  import opened ColGrid
  import opened ColBuffer
  import P = ColPrinter

  const PL: nat := 256

  /** The input as the read loop classifies it. */
  datatype Command =
    | Newline | Reverse | HalfReverse | HalfForward | ShiftOut | ShiftIn | Return | Tab | Backspace | Blank
    | Printable(code: nat) | Ignored

  /** The unbounded page: lines as last stored, the line being written with
      its number, and the highest line reached. */
  datatype Sheet = Sheet(lines: map<nat, seq<Cell>>, cur: seq<Cell>, ll: nat, top: nat,
                         cp: nat, half: int, greek: bool)

  const FRESH := Sheet(map[], [], 0, 0, 0, 0, false)

  predicate Proper(s: Sheet) {
    && IsGrid(s.cur) && s.ll <= s.top && Bottom(s.top) <= s.ll
    && (forall n :: n in s.lines ==> IsGrid(s.lines[n]) && n <= s.top)
    && (forall n :: 0 <= n < s.top ==> n in s.lines)
  }

  /** The lowest line that can still be reached. */
  function Bottom(top: nat): nat {
    if top < PL then 0 else top + 1 - PL
  }

  function LineAt(lines: map<nat, seq<Cell>>, n: nat): seq<Cell> {
    if n in lines then lines[n] else []
  }

  function Down(s: Sheet): Sheet {
    var lines := s.lines[s.ll := s.cur];
    s.(lines := lines, cur := LineAt(lines, s.ll + 1), ll := s.ll + 1,
       top := if s.top < s.ll + 1 then s.ll + 1 else s.top)
  }

  function Up(s: Sheet): Sheet {
    if s.ll > Bottom(s.top) then
      var lines := s.lines[s.ll := s.cur];
      s.(lines := lines, cur := LineAt(lines, s.ll - 1), ll := s.ll - 1)
    else s
  }

  /** What a command does to the page. */
  function Obey(s: Sheet, c: Command, fflag: bool): Sheet
    requires IsGrid(s.cur)
  {
    match c
    case Newline => Down(Down(s)).(cp := 0)
    case Reverse => Up(Up(s))
    case HalfReverse =>
      if fflag then Up(s)
      else if s.half - 1 < -1 then Up(Up(s)).(half := s.half + 1) else s.(half := s.half - 1)
    case HalfForward =>
      if fflag then Down(s)
      else if s.half + 1 > 0 then Down(Down(s)).(half := s.half - 1) else s.(half := s.half + 1)
    case ShiftOut => s.(greek := true)
    case ShiftIn => s.(greek := false)
    case Return => s.(cp := 0)
    case Tab => s.(cp := (s.cp / 8 + 1) * 8)
    case Backspace => s.(cp := if s.cp > 0 then s.cp - 1 else 0)
    case Blank => s.(cp := s.cp + 1)
    case Printable(code) => s.(cur := Struck(s.cur, s.cp, Ink(code, s.greek)), cp := s.cp + 1)
    case Ignored => s
  }

  lemma DownProper(s: Sheet)
    requires Proper(s)
    ensures Proper(Down(s))
  {
  }

  lemma DownKeeps(s: Sheet)
    ensures var t := Down(s);
      t.cur == LineAt(t.lines, t.ll) && t.cp == s.cp && t.half == s.half && t.greek == s.greek
  {
  }

  lemma UpProper(s: Sheet)
    requires Proper(s)
    ensures Proper(Up(s))
  {
  }

  lemma ObeyProper(s: Sheet, c: Command, fflag: bool)
    requires Proper(s)
    ensures Proper(Obey(s, c, fflag))
  {
    hide Down, Up;
    DownProper(s);
    DownProper(Down(s));
    UpProper(s);
    UpProper(Up(s));
  }

  function Obeyed(cs: seq<Command>, fflag: bool): (s: Sheet)
    ensures Proper(s)
  {
    if cs == [] then FRESH
    else
      var s := Obeyed(cs[..|cs| - 1], fflag);
      ObeyProper(s, cs[|cs| - 1], fflag);
      Obey(s, cs[|cs| - 1], fflag)
  }

  /** The ink of all stored lines below n, from the top of the paper down. */
  function InkBelow(lines: map<nat, seq<Cell>>, n: nat): seq<P.Mark> {
    if n == 0 then []
    else InkBelow(lines, n - 1) + P.GridMarks(LineAt(lines, n - 1), n - 1)
  }

  lemma {:induction false} InkSame(a: map<nat, seq<Cell>>, b: map<nat, seq<Cell>>, n: nat)
    requires forall m :: 0 <= m < n ==> LineAt(a, m) == LineAt(b, m)
    ensures InkBelow(a, n) == InkBelow(b, n)
  {
    if n > 0 {
      InkSame(a, b, n - 1);
    }
  }

  // ---- the line that is not ended ----

  /** The ink of the page with the line being written. */
  function PageInk(s: Sheet): seq<P.Mark> {
    InkBelow(s.lines[s.ll := s.cur], s.top + 1)
  }

  /** Whether a command leaves the line, and so stores it. */
  predicate Moves(s: Sheet, c: Command, fflag: bool) {
    match c
    case Newline => true
    case Reverse => s.ll > Bottom(s.top)
    case HalfReverse => (fflag || s.half - 1 < -1) && s.ll > Bottom(s.top)
    case HalfForward => fflag || s.half + 1 > 0
    case _ => false
  }

  /** A character was written after the last command that left its line. */
  predicate Unstored(cs: seq<Command>, fflag: bool) {
    cs != [] &&
    var n := |cs| - 1;
    cs[n].Printable? || (!Moves(Obeyed(cs[..n], fflag), cs[n], fflag) && Unstored(cs[..n], fflag))
  }

  /** The paper has the whole page exactly when the line being written has the
      ink it was last stored with. */
  lemma {:induction false} LastLine(lines: map<nat, seq<Cell>>, ll: nat, cur: seq<Cell>, n: nat)
    requires ll < n
    ensures InkBelow(lines[ll := cur], n) == InkBelow(lines, n) <==>
            P.GridMarks(cur, ll) == P.GridMarks(LineAt(lines, ll), ll)
    decreases n
  {
    hide *;
    var more := lines[ll := cur];
    InkMore(lines, n);
    InkMore(more, n);
    OtherLine(lines, ll, cur, n - 1);
    if n == ll + 1 {
      forall m | 0 <= m < ll ensures LineAt(lines, m) == LineAt(more, m) {
        OtherLine(lines, ll, cur, m);
      }
      InkSame(lines, more, ll);
      Appended(InkBelow(lines, ll), P.GridMarks(cur, ll), P.GridMarks(LineAt(lines, ll), ll));
    } else {
      LastLine(lines, ll, cur, n - 1);
      Extended(InkBelow(more, n - 1), InkBelow(lines, n - 1), P.GridMarks(LineAt(lines, n - 1), n - 1));
    }
  }

  lemma InkMore(lines: map<nat, seq<Cell>>, n: nat)
    requires n > 0
    ensures InkBelow(lines, n) == InkBelow(lines, n - 1) + P.GridMarks(LineAt(lines, n - 1), n - 1)
  {
  }

  lemma OtherLine(lines: map<nat, seq<Cell>>, ll: nat, cur: seq<Cell>, n: nat)
    ensures LineAt(lines[ll := cur], n) == if n == ll then cur else LineAt(lines, n)
  {
  }

  lemma Appended<T>(a: seq<T>, b: seq<T>, c: seq<T>)
    ensures a + b == a + c <==> b == c
  {
    assert (a + b)[|a|..] == b && (a + c)[|a|..] == c;
  }

  lemma Extended<T>(a: seq<T>, b: seq<T>, c: seq<T>)
    ensures a + c == b + c <==> a == b
  {
    if a + c == b + c {
      assert |a + c| == |b + c|;
      assert (a + c)[..|a|] == a && (b + c)[..|b|] == b;
    }
  }

  /** Whether the line being written has been stored as it is; if not, it has
      more ink than what was stored. */
  ghost predicate Current(s: Sheet, unstored: bool) {
    var kept := LineAt(s.lines, s.ll);
    if unstored then |P.GridMarks(s.cur, s.ll)| > |P.GridMarks(kept, s.ll)| else s.cur == kept
  }

  lemma AfterMove(s: Sheet)
    ensures Current(Down(s), false) && (s.ll > Bottom(s.top) ==> Current(Up(s), false))
    ensures Current(s, false) ==> Current(Up(s), false)
  {
    hide P.GridMarks;
  }

  lemma ObeyCurrent(s: Sheet, c: Command, fflag: bool, unstored: bool)
    requires Proper(s) && Current(s, unstored)
    ensures Current(Obey(s, c, fflag), c.Printable? || (!Moves(s, c, fflag) && unstored))
  {
    hide *;
    ProperGrid(s);
    if c.Printable? {
      StrikeCurrent(s, c, fflag, unstored);
    } else if Moves(s, c, fflag) {
      MoveCurrent(s, c, fflag);
    } else {
      StayCurrent(s, c, fflag, unstored);
    }
  }

  lemma ProperGrid(s: Sheet)
    requires Proper(s)
    ensures IsGrid(s.cur)
  {
  }

  lemma StrikeCurrent(s: Sheet, c: Command, fflag: bool, unstored: bool)
    requires IsGrid(s.cur) && Current(s, unstored) && c.Printable?
    ensures Current(Obey(s, c, fflag), true)
  {
    hide P.GridMarks, Struck, Down, Up, Bottom, IsGrid;
    P.StruckMarks(s.cur, s.cp, Ink(c.code, s.greek), s.ll);
  }

  lemma MoveCurrent(s: Sheet, c: Command, fflag: bool)
    requires IsGrid(s.cur) && Moves(s, c, fflag)
    ensures Current(Obey(s, c, fflag), false)
  {
    AfterMove(s);
    AfterMove(Down(s));
    AfterMove(Up(s));
    hide P.GridMarks, Down, Up;
    if c.HalfReverse? || c.HalfForward? {
      ObeyHalf(s, c.HalfForward?, fflag);
      HalfAside(s, s.half + 1);
      HalfAside(s, s.half - 1);
    }
  }

  lemma StayCurrent(s: Sheet, c: Command, fflag: bool, unstored: bool)
    requires IsGrid(s.cur) && Current(s, unstored) && !c.Printable? && !Moves(s, c, fflag)
    ensures Current(Obey(s, c, fflag), unstored)
  {
    hide P.GridMarks, Down;
  }

  lemma {:induction false} ObeyedCurrent(cs: seq<Command>, fflag: bool)
    ensures Current(Obeyed(cs, fflag), Unstored(cs, fflag))
  {
    if cs != [] {
      var n := |cs| - 1;
      ObeyedCurrent(cs[..n], fflag);
      hide Current, Obey, Moves;
      ObeyCurrent(Obeyed(cs[..n], fflag), cs[n], fflag, Unstored(cs[..n], fflag));
    }
  }

  /** All ink of the page is in stored lines exactly when no character was
      written after the last command that left its line. */
  lemma WholePage(cs: seq<Command>, fflag: bool)
    ensures var s := Obeyed(cs, fflag); InkBelow(s.lines, s.top + 1) == PageInk(s) <==> !Unstored(cs, fflag)
  {
    hide Obeyed, Unstored, InkBelow, P.GridMarks;
    var s := Obeyed(cs, fflag);
    ObeyedCurrent(cs, fflag);
    LastLine(s.lines, s.ll, s.cur, s.top + 1);
  }

  /** A page of one character and no line feed: the paper stays empty. */
  lemma LostCharacter(code: nat, fflag: bool)
    ensures var s := Obeyed([Printable(code)], fflag); InkBelow(s.lines, s.top + 1) == [] && |PageInk(s)| == 1
  {
    hide *;
    var c := Ink(code, false);
    FirstCommand(Printable(code), fflag);
    FirstStrike(code, fflag);
    P.OneGlyph(c);
    NoInk(map[], 0);
    OneLine(map[], [[c]]);
  }

  lemma FirstCommand(c: Command, fflag: bool)
    ensures IsGrid(FRESH.cur) && Obeyed([c], fflag) == Obey(FRESH, c, fflag)
  {
    hide Obey;
    assert [c][..0] == [];
    assert Obeyed([], fflag) == FRESH;
  }

  lemma FirstStrike(code: nat, fflag: bool)
    ensures IsGrid(FRESH.cur)
    ensures var s := Obey(FRESH, Printable(code), fflag);
      s.lines == map[] && s.cur == [[Ink(code, false)]] && s.ll == 0 && s.top == 0 && PageInk(s) == InkBelow(map[0 := s.cur], 1)
  {
    assert Struck([], 0, Ink(code, false)) == [[Ink(code, false)]];
    hide InkBelow;
  }

  lemma OneLine(lines: map<nat, seq<Cell>>, cur: seq<Cell>)
    ensures InkBelow(lines, 0) == [] && InkBelow(lines[0 := cur], 1) == P.GridMarks(cur, 0)
  {
    hide P.GridMarks;
    assert InkBelow(lines[0 := cur], 0) == [];
  }

  /** Two lines of one window never share a place in the ring. */
  lemma Places(b: nat, m: nat, n: nat)
    requires b <= m < b + PL && b <= n < b + PL && m % PL == n % PL
    ensures m == n
  {
  }

  /** What the ring has for a line. */
  ghost function Kept(lines: map<nat, seq<Cell>>, n: nat): Option<seq<Ch>>
    requires forall n :: n in lines ==> IsGrid(lines[n])
  {
    if n in lines then Some(Text(lines[n])) else None
  }

  ghost predicate Window(pg: seq<Option<seq<Ch>>>, lines: map<nat, seq<Cell>>, b: nat)
    requires |pg| == PL && forall n :: n in lines ==> IsGrid(lines[n])
  {
    forall n :: b <= n < b + PL ==> pg[n % PL] == Kept(lines, n)
  }

  lemma Rewritten(pg: seq<Option<seq<Ch>>>, lines: map<nat, seq<Cell>>, b: nat, k: nat, cells: seq<Cell>)
    requires |pg| == PL && (forall n :: n in lines ==> IsGrid(lines[n])) && IsGrid(cells)
    requires Window(pg, lines, b) && b <= k < b + PL
    ensures Window(pg[k % PL := Some(Text(cells))], lines[k := cells], b)
  {
    hide Text;
    forall n | b <= n < b + PL ensures pg[k % PL := Some(Text(cells))][n % PL] == Kept(lines[k := cells], n) {
      if n % PL == k % PL {
        Places(b, n, k);
      }
    }
  }

  /** The place of a printed line is free for the line PL above it. */
  lemma Moved(pg: seq<Option<seq<Ch>>>, lines: map<nat, seq<Cell>>, b: nat)
    requires |pg| == PL && (forall n :: n in lines ==> IsGrid(lines[n])) && Window(pg, lines, b) && b + PL !in lines
    ensures Window(pg[b % PL := None], lines, b + 1)
  {
    hide Text;
    forall n | b + 1 <= n < b + 1 + PL ensures pg[b % PL := None][n % PL] == Kept(lines, n) {
      if n < b + PL {
        if n % PL == b % PL {
          Places(b, n, b);
        }
      } else {
        assert n % PL == b % PL;
      }
    }
  }

  class Col {
    const buf: Buffer
    const tty: P.Printer
    const page: array<Option<seq<Ch>>>
    const fflag: bool
    var cp: nat
    var ll: nat
    var llh: nat
    var mustwr: nat
    var half: int
    var greek: bool

    /** The ring holds the window of PL lines from b on. */
    ghost predicate Ring(lines: map<nat, seq<Cell>>, b: nat)
      requires forall n :: n in lines ==> IsGrid(lines[n])
      reads page
    {
      page.Length == PL && Window(page[..], lines, b)
    }

    /** All lines below the window have been printed, in order, as they were
        stored last. */
    ghost predicate Printed(lines: map<nat, seq<Cell>>, b: nat)
      reads tty
    {
      tty.Ready() && tty.Marks() == InkBelow(lines, b) && tty.cline <= b
    }

    ghost predicate Is(s: Sheet)
      reads this, buf, buf.lbuff, tty, page
    {
      && Proper(s) && ll == s.ll && llh == s.top && cp == s.cp && half == s.half && greek == s.greek
      && mustwr == Bottom(s.top) + PL && buf.Shows(s.cur)
      && Ring(s.lines, Bottom(s.top)) && Printed(s.lines, Bottom(s.top))
    }

    constructor (fflag: bool, xflag: bool)
      ensures Is(FRESH) && this.fflag == fflag && fresh(buf) && fresh(buf.lbuff) && fresh(tty) && fresh(page)
    {
      this.fflag := fflag;
      buf := new Buffer();
      tty := new P.Printer(xflag);
      page := new Option<seq<Ch>>[PL](_ => None);
      cp, ll, llh, mustwr, half, greek := 0, 0, 0, PL, 0, false;
    }

    method Store(lno: nat, ghost s: Sheet)
      requires Proper(s) && buf.Shows(s.cur) && Ring(s.lines, Bottom(s.top)) && lno == s.ll
      modifies page
      ensures var lines := s.lines[s.ll := s.cur];
        (forall n :: n in lines ==> IsGrid(lines[n])) && Ring(lines, Bottom(s.top))
    {
      hide Text;
      var t := buf.Copy(Text(s.cur));
      Rewritten(page[..], s.lines, Bottom(s.top), lno, s.cur);
      ghost var pg := page[..][lno % PL := Some(t)];
      page[lno % PL] := Some(t);
      assert page[..] == pg;
    }

    method Fetch(lno: nat, ghost lines: map<nat, seq<Cell>>, ghost b: nat, ghost cur: seq<Cell>)
      requires (forall n :: n in lines ==> IsGrid(lines[n])) && Ring(lines, b) && b <= lno < b + PL
      requires IsGrid(cur) && buf.Holds(Text(cur))
      modifies buf, buf.lbuff
      ensures buf.Shows(LineAt(lines, lno))
      ensures buf.lbuff == old(buf.lbuff) || fresh(buf.lbuff)
    {
      hide Text;
      var p := page[lno % PL];
      assert page[..][lno % PL] == Kept(lines, lno);
      Empty();
      NoNul(LineAt(lines, lno));
      buf.Load(if p == None then [] else p.value, Text(cur));
      NoText(LineAt(lines, lno));
    }

    /** incr: keep the line; when the ring is full, print the lowest line and
        give its place away. */
    method Incr(ghost s: Sheet)
      requires Is(s)
      modifies this`ll, this`llh, this`mustwr, buf, buf.lbuff, tty, page
      ensures Is(Down(s)) && (buf.lbuff == old(buf.lbuff) || fresh(buf.lbuff))
    {
      hide Text, InkBelow, P.GridMarks, Ring, Printed, Down;
      ghost var t := Down(s);
      DownProper(s);
      DownKeeps(s);
      Advance(s);
      FetchHere(t, s.cur);
    }

    /** Everything but the line buffer. */
    ghost predicate IsPage(s: Sheet)
      reads this, tty, page
    {
      && Proper(s) && ll == s.ll && llh == s.top && cp == s.cp && half == s.half && greek == s.greek
      && mustwr == Bottom(s.top) + PL && Ring(s.lines, Bottom(s.top)) && Printed(s.lines, Bottom(s.top))
    }

    /** Keep the line and go down one. */
    method Advance(ghost s: Sheet)
      requires Is(s)
      modifies this`ll, this`llh, this`mustwr, tty, page
      ensures IsPage(Down(s))
    {
      hide Text, InkBelow, P.GridMarks;
      ghost var t, b := Down(s), Bottom(s.top);
      DownProper(s);
      Store(ll, s);
      InkSame(s.lines, t.lines, b);
      ll := ll + 1;
      if ll > llh {
        llh := ll;
      }
      if ll >= mustwr {
        PrintLowest(t.lines, b);
      }
    }

    /** Fetch the line the page is on. */
    method FetchHere(ghost s: Sheet, ghost cur: seq<Cell>)
      requires IsPage(s) && IsGrid(cur) && buf.Holds(Text(cur)) && s.cur == LineAt(s.lines, s.ll)
      modifies buf, buf.lbuff
      ensures Is(s) && (buf.lbuff == old(buf.lbuff) || fresh(buf.lbuff))
    {
      hide Text, InkBelow, P.GridMarks, Printed;
      Fetch(ll, s.lines, Bottom(s.top), cur);
    }

    /** Print the lowest line of the window and clear its place. */
    method PrintLowest(ghost lines: map<nat, seq<Cell>>, ghost b: nat)
      requires (forall n :: n in lines ==> IsGrid(lines[n])) && Ring(lines, b) && b + PL !in lines && b in lines
      requires Printed(lines, b) && ll == b + PL == mustwr
      modifies this`mustwr, tty, page
      ensures Ring(lines, b + 1) && Printed(lines, b + 1) && mustwr == b + 1 + PL
    {
      hide Text, InkBelow;
      assert b % PL == ll % PL && page[..][b % PL] == Kept(lines, b);
      if page[ll % PL] != None {
        PrintLine(page[ll % PL].value, ll - PL, lines);
        mustwr := mustwr + 1;
        Moved(page[..], lines, b);
        ghost var pg := page[..][b % PL := None];
        page[ll % PL] := None;
        assert page[..] == pg;
      }
    }

    method PrintLine(t: seq<Ch>, n: nat, ghost lines: map<nat, seq<Cell>>)
      requires Printed(lines, n) && n in lines && IsGrid(lines[n]) && t == Text(lines[n])
      modifies tty
      ensures Printed(lines, n + 1) && tty.cline <= n
    {
      hide Text, P.GridMarks, P.Walk;
      P.TextBacks(lines[n]);
      NoNul(lines[n]);
      P.GridWalk(lines[n], n);
      tty.Emit(t, n);
    }

    /** decr: back to a line that is still in the ring. */
    method Decr(ghost s: Sheet)
      requires Is(s)
      modifies this`ll, buf, buf.lbuff, page
      ensures Is(Up(s)) && (buf.lbuff == old(buf.lbuff) || fresh(buf.lbuff))
    {
      hide Text, InkBelow, P.GridMarks;
      UpProper(s);
      if ll > mustwr - PL {
        ghost var t := Up(s);
        Store(ll, s);
        ll := ll - 1;
        InkSame(s.lines, t.lines, Bottom(s.top));
        Fetch(ll, t.lines, Bottom(t.top), s.cur);
      }
    }

    method Twice(down: bool, ghost s: Sheet)
      requires Is(s)
      modifies this`ll, this`llh, this`mustwr, buf, buf.lbuff, tty, page
      ensures Is(if down then Down(Down(s)) else Up(Up(s))) && (buf.lbuff == old(buf.lbuff) || fresh(buf.lbuff))
    {
      hide Is, Down, Up;
      if down {
        Incr(s);
        Incr(Down(s));
      } else {
        Decr(s);
        Decr(Up(s));
      }
    }

    method Print(c: Ch, ghost s: Sheet) returns (ghost t: Sheet)
      requires Is(s) && c.Ink?
      modifies buf, buf.lbuff
      ensures t == s.(cur := Struck(s.cur, s.cp, c)) && Is(t) && (buf.lbuff == old(buf.lbuff) || fresh(buf.lbuff))
    {
      hide Text, Struck, InkBelow;
      buf.Outc(c, cp, s.cur);
      t := s.(cur := Struck(s.cur, s.cp, c));
    }

    /** Half a line: with -f really, else two halves make a line. */
    method HalfLine(down: bool, ghost s: Sheet)
      requires Is(s)
      modifies this`ll, this`llh, this`mustwr, this`half, buf, buf.lbuff, tty, page
      ensures Is(Obey(s, if down then HalfForward else HalfReverse, fflag))
      ensures buf.lbuff == old(buf.lbuff) || fresh(buf.lbuff)
    {
      hide *;
      HalfOf(s);
      ObeyHalf(s, down, fflag);
      if fflag {
        if down {
          Incr(s);
        } else {
          Decr(s);
        }
      } else {
        SetHalf(if down then half + 1 else half - 1, s);
        if (down && half > 0) || (!down && half < -1) {
          ghost var t := s.(half := half);
          Twice(down, t);
          SetHalf(if down then half - 2 else half + 2, if down then Down(Down(t)) else Up(Up(t)));
        }
      }
    }

    lemma HalfOf(s: Sheet)
      requires Is(s)
      ensures half == s.half && IsGrid(s.cur)
    {
      hide Window, InkBelow;
    }

    method SetHalf(h: int, ghost s: Sheet)
      requires Is(s)
      modifies this`half
      ensures Is(s.(half := h)) && half == h
    {
      hide Window, InkBelow, Ring, Printed;
      half := h;
    }

    /** The read loop's switch. */
    method Switch(c: Command, ghost s: Sheet)
      requires Is(s)
      modifies this, buf, buf.lbuff, tty, page
      ensures Is(Obey(s, c, fflag)) && (buf.lbuff == old(buf.lbuff) || fresh(buf.lbuff))
    {
      hide Text, Struck, InkBelow, Down, Up, Proper, Window, Ring, Printed;
      ObeyProper(s, c, fflag);
      match c
      case Newline =>
        Twice(true, s);
        cp := 0;
      case Reverse =>
        Twice(false, s);
      case HalfReverse =>
        HalfLine(false, s);
      case HalfForward =>
        HalfLine(true, s);
      case ShiftOut =>
        greek := true;
      case ShiftIn =>
        greek := false;
      case Return =>
        cp := 0;
      case Tab =>
        cp := (cp / 8 + 1) * 8;
      case Backspace =>
        if cp > 0 {
          cp := cp - 1;
        }
      case Blank =>
        cp := cp + 1;
      case Printable(code) =>
        ghost var t := Print(Ink(code, greek), s);
        cp := cp + 1;
      case Ignored =>
    }

    /** The lines still in the ring, and a last move down. */
    method Finish(ghost s: Sheet)
      requires Is(s)
      modifies tty
      ensures tty.Ready() && tty.Marks() == InkBelow(s.lines, s.top + 1) && tty.cline == (s.top + 1) / 2 * 2
    {
      hide *;
      ghost var b := Bottom(s.top);
      FinishFacts(s);
      FinishRing(s);
      PrintedIs(s.lines, b + PL);
      Higher(s.lines, s.top + 1, b + PL);
      LastMove();
    }

    /** Down to the full line below the highest one. */
    method LastMove()
      requires tty.Ready() && tty.cline <= llh
      modifies tty
      ensures tty.Ready() && tty.Marks() == old(tty.Marks()) && tty.cline == (llh + 1) / 2 * 2
    {
      hide *;
      OneBlank((llh + 1) / 2 * 2);
      tty.Emit([Sp], (llh + 1) / 2 * 2);
    }

    lemma PrintedIs(lines: map<nat, seq<Cell>>, b: nat)
      requires Printed(lines, b)
      ensures tty.Ready() && tty.Marks() == InkBelow(lines, b)
    {
    }

    lemma FinishFacts(s: Sheet)
      requires Is(s)
      ensures IsStored(s) && Printed(s.lines, Bottom(s.top)) && tty.cline <= s.top && llh == s.top && s.top < Bottom(s.top) + PL
      ensures forall k :: s.top + 1 <= k < Bottom(s.top) + PL ==> k !in s.lines
    {
      hide InkBelow, Window;
    }

    method FinishRing(ghost s: Sheet)
      requires IsStored(s) && Printed(s.lines, Bottom(s.top)) && tty.cline <= s.top
      modifies tty
      ensures Printed(s.lines, Bottom(s.top) + PL) && tty.cline <= s.top
    {
      hide *;
      for i := 0 to PL
        invariant Printed(s.lines, Bottom(s.top) + i) && tty.cline <= s.top
      {
        FinishLine(i, s);
      }
    }

    /** One place of the ring. */
    method FinishLine(i: nat, ghost s: Sheet)
      requires IsStored(s) && i < PL && Printed(s.lines, Bottom(s.top) + i) && tty.cline <= s.top
      modifies tty
      ensures Printed(s.lines, Bottom(s.top) + i + 1) && tty.cline <= s.top
    {
      hide Text, InkBelow, P.GridMarks, P.Walk, Printed;
      var n := mustwr + i - PL;
      assert (mustwr + i) % PL == n % PL && page[..][n % PL] == Kept(s.lines, n);
      if page[(mustwr + i) % PL] != None {
        PrintLine(page[(mustwr + i) % PL].value, n, s.lines);
      } else {
        NothingThere(s.lines, n);
      }
    }

    /** The ring holds the lines of the page. */
    ghost predicate IsStored(s: Sheet)
      reads this`mustwr, page
    {
      Proper(s) && mustwr == Bottom(s.top) + PL && Ring(s.lines, Bottom(s.top))
    }

    lemma NothingThere(lines: map<nat, seq<Cell>>, n: nat)
      requires Printed(lines, n) && n !in lines
      ensures Printed(lines, n + 1)
    {
      NoInk(lines, n);
      hide InkBelow;
    }

    /** col over a whole input: on paper there is, line by line and in order,
        exactly the ink of the lines stored; and that is all the ink of the
        page exactly when nothing was written after the last move. */
    method Run(cs: seq<Command>)
      requires Is(FRESH)
      modifies this, buf, buf.lbuff, tty, page
      ensures tty.Ready() && tty.Marks() == InkBelow(Obeyed(cs, fflag).lines, Obeyed(cs, fflag).top + 1)
      ensures tty.Marks() == PageInk(Obeyed(cs, fflag)) <==> !Unstored(cs, fflag)
      ensures tty.cline == (Obeyed(cs, fflag).top + 1) / 2 * 2
    {
      hide Is, Obey, InkBelow, PageInk, Unstored;
      WholePage(cs, fflag);
      ghost var s := FRESH;
      for i := 0 to |cs|
        invariant Is(s) && s == Obeyed(cs[..i], fflag) && (buf.lbuff == old(buf.lbuff) || fresh(buf.lbuff))
      {
        assert cs[..i + 1][..i] == cs[..i];
        Switch(cs[i], s);
        s := Obey(s, cs[i], fflag);
      }
      assert cs[..|cs|] == cs;
      Finish(s);
    }
  }

  /** The half-line commands by their cases. */
  lemma ObeyHalf(s: Sheet, down: bool, fflag: bool)
    requires IsGrid(s.cur)
    ensures var h := if down then s.half + 1 else s.half - 1; var t := s.(half := h);
      Obey(s, if down then HalfForward else HalfReverse, fflag) ==
      if fflag then (if down then Down(s) else Up(s))
      else if down && h > 0 then Down(Down(t)).(half := h - 2)
      else if !down && h < -1 then Up(Up(t)).(half := h + 2)
      else t
  {
    HalfAside(s, if down then s.half + 1 else s.half - 1);
    hide Down, Up;
  }

  /** The half-line count of the terminal mode is no matter of the page. */
  lemma HalfAside(s: Sheet, h: int)
    ensures Up(Up(s.(half := h))) == Up(Up(s)).(half := h) && Down(Down(s.(half := h))) == Down(Down(s)).(half := h)
  {
  }

  lemma NoInk(lines: map<nat, seq<Cell>>, n: nat)
    requires n !in lines
    ensures InkBelow(lines, n + 1) == InkBelow(lines, n)
  {
  }

  /** Above the highest line there is nothing. */
  lemma {:induction false} Higher(lines: map<nat, seq<Cell>>, m: nat, n: nat)
    requires m <= n && forall k :: m <= k < n ==> k !in lines
    ensures InkBelow(lines, n) == InkBelow(lines, m)
    decreases n
  {
    if m < n {
      Higher(lines, m, n - 1);
    }
  }

  lemma OneBlank(row: nat)
    ensures P.Walk([Sp], row).marks == [] && P.Backs([Sp])
  {
    assert P.Walk([Sp][..0], row) == P.Trace(0, []);
  }

  lemma Empty()
    ensures Text([]) == []
  {
  }
}
