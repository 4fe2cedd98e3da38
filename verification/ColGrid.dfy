/**
 A line of col as a grid: every column holds the characters struck over each
 other there.  The text of a line writes each column as its characters with
 backspaces between them.
 */
module ColGrid {

  /** The characters of a line buffer; Nul ends the text.  Alternate (greek)
      characters differ from plain ones. */
  datatype Ch = Nul | Bs | Sp | Ink(code: nat, greek: bool)

  type Cell = seq<Ch>

  predicate IsCell(c: Cell) {
    || c == [Sp]
    || (c != [] && forall i :: 0 <= i < |c| ==> c[i].Ink?)
  }

  predicate IsGrid(cells: seq<Cell>) {
    forall k :: 0 <= k < |cells| ==> IsCell(cells[k])
  }

  /** Backspace and character, for each character. */
  function Strikes(r: seq<Ch>): (s: seq<Ch>)
    ensures |s| == 2 * |r|
  {
    if r == [] then [] else [Bs, r[0]] + Strikes(r[1..])
  }

  function CellText(c: Cell): (s: seq<Ch>)
    requires c != []
    ensures |s| == 2 * |c| - 1 && s[0] == c[0]
  {
    [c[0]] + Strikes(c[1..])
  }

  function Text(cells: seq<Cell>): seq<Ch>
    requires IsGrid(cells)
  {
    if cells == [] then [] else Text(cells[..|cells| - 1]) + CellText(cells[|cells| - 1])
  }

  /** Blank columns up to column n. */
  function Padded(cells: seq<Cell>, n: nat): (r: seq<Cell>)
    requires IsGrid(cells)
    ensures IsGrid(r) && |r| == (if |cells| < n then n else |cells|) && r[..|cells|] == cells
    ensures forall k :: |cells| <= k < |r| ==> r[k] == [Sp]
  {
    cells + seq(if |cells| < n then n - |cells| else 0, _ => [Sp])
  }

  /** Strike character c at column n: over a blank it replaces the blank, over
      other characters it goes second. */
  function Struck(cells: seq<Cell>, n: nat, c: Ch): (r: seq<Cell>)
    requires IsGrid(cells) && c.Ink?
    ensures IsGrid(r)
  {
    var p := Padded(cells, n);
    if n == |p| then p + [[c]]
    else if p[n] == [Sp] then p[n := [c]]
    else p[n := [p[n][0], c] + p[n][1..]]
  }

  /** The ink of a column. */
  function Glyphs(cells: seq<Cell>, k: nat): multiset<Ch> {
    if k < |cells| && cells[k] != [Sp] then multiset(cells[k]) else multiset{}
  }

  lemma Second(cell: Cell, c: Ch)
    requires cell != []
    ensures multiset([cell[0], c] + cell[1..]) == multiset(cell) + multiset{c}
  {
    assert cell == [cell[0]] + cell[1..];
    assert [cell[0], c] + cell[1..] == [cell[0]] + [c] + cell[1..];
  }

  /** Striking adds one glyph at its column; every other column keeps all of
      its glyphs, and the line grows only as far as needed. */
  lemma {:induction false} StruckGlyphs(cells: seq<Cell>, n: nat, c: Ch, k: nat)
    requires IsGrid(cells) && c.Ink?
    ensures Glyphs(Struck(cells, n, c), k) == Glyphs(cells, k) + if k == n then multiset{c} else multiset{}
    ensures |Struck(cells, n, c)| == if |cells| <= n then n + 1 else |cells|
  {
    var p, s := Padded(cells, n), Struck(cells, n, c);
    assert k < |cells| ==> p[..|cells|][k] == cells[k];
    assert Glyphs(p, k) == Glyphs(cells, k);
    if k != n {
      assert k < |s| ==> s[k] == p[k];
    } else if n < |p| && p[n] != [Sp] {
      Second(p[n], c);
    } else {
      assert s[n] == [c];
    }
  }

  lemma Divide<T>(t: seq<T>, k: nat)
    requires k < |t|
    ensures t[..k + 1] + t[k + 1..] == t && t[..k + 1] == t[..k] + [t[k]]
  {
  }

  lemma Parts<T>(a: seq<T>, b: seq<T>, c: seq<T>)
    ensures var t := a + b + c;
      && t[..|a|] == a && t[|a|..|a| + |b|] == b && t[|a| + |b|..] == c
  {
  }

  lemma {:induction false} TextSnoc(cells: seq<Cell>, c: Cell)
    requires IsGrid(cells) && IsCell(c)
    ensures IsGrid(cells + [c]) && Text(cells + [c]) == Text(cells) + CellText(c)
  {
    hide CellText, IsCell;
    assert (cells + [c])[..|cells|] == cells;
  }

  lemma {:induction false} TextConcat(a: seq<Cell>, b: seq<Cell>)
    requires IsGrid(a) && IsGrid(b)
    ensures IsGrid(a + b) && Text(a + b) == Text(a) + Text(b)
  {
    hide CellText, IsCell;
    if b == [] {
      assert a + b == a;
    } else {
      var n := |b| - 1;
      assert b == b[..n] + [b[n]];
      assert a + b == a + b[..n] + [b[n]];
      TextConcat(a, b[..n]);
      TextSnoc(a + b[..n], b[n]);
    }
  }

  /** Where column k starts in the text. */
  function Index(cells: seq<Cell>, k: nat): nat
    requires IsGrid(cells) && k <= |cells|
  {
    |Text(cells[..k])|
  }

  /** The text around column k. */
  lemma Around(cells: seq<Cell>, k: nat)
    requires IsGrid(cells) && k < |cells|
    ensures var t, i, m := Text(cells), Index(cells, k), |CellText(cells[k])|;
      && t == Text(cells[..k]) + CellText(cells[k]) + Text(cells[k + 1..])
      && Index(cells, k + 1) == i + m && i + m <= |t| && t[i..i + m] == CellText(cells[k]) && t[i + m..] == Text(cells[k + 1..])
  {
    hide Text, CellText, IsCell;
    Divide(cells, k);
    TextConcat(cells[..k + 1], cells[k + 1..]);
    TextSnoc(cells[..k], cells[k]);
    Parts(Text(cells[..k]), CellText(cells[k]), Text(cells[k + 1..]));
  }

  /** A column that is replaced leaves the text before and after it. */
  lemma Replaced(cells: seq<Cell>, k: nat, c: Cell)
    requires IsGrid(cells) && k < |cells| && IsCell(c)
    ensures IsGrid(cells[k := c])
    ensures Text(cells[k := c]) == Text(cells[..k]) + CellText(c) + Text(cells[k + 1..])
    ensures Index(cells[k := c], k) == Index(cells, k)
  {
    hide Text, CellText, IsCell;
    var ds := cells[k := c];
    Around(ds, k);
    assert ds[..k] == cells[..k] && ds[k + 1..] == cells[k + 1..];
  }

  lemma Appended(cells: seq<Cell>, c: Cell)
    requires IsGrid(cells) && IsCell(c)
    ensures IsGrid(cells + [c]) && Text(cells + [c]) == Text(cells) + CellText(c)
    ensures Index(cells + [c], |cells|) == |Text(cells)| && Index(cells, |cells|) == |Text(cells)|
  {
    hide Text, CellText, IsCell;
    TextSnoc(cells, c);
    assert (cells + [c])[..|cells|] == cells && cells[..|cells|] == cells;
  }

  /** The character at an offset of a column: a backspace at the odd ones. */
  lemma {:induction false} StrikesAt(r: seq<Ch>, o: nat)
    requires o < 2 * |r|
    ensures Strikes(r)[o] == if o % 2 == 0 then Bs else r[o / 2]
  {
    if o >= 2 {
      StrikesAt(r[1..], o - 2);
    }
  }

  lemma CellAt(c: Cell, o: nat)
    requires IsCell(c) && o < |CellText(c)|
    ensures CellText(c)[o] == if o % 2 == 1 then Bs else c[o / 2]
    ensures CellText(c)[o].Bs? <==> o % 2 == 1
    ensures !CellText(c)[o].Nul?
  {
    if o > 0 {
      StrikesAt(c[1..], o - 1);
    }
  }

  lemma {:induction false} NoNul(cells: seq<Cell>)
    requires IsGrid(cells)
    ensures Nul !in Text(cells)
  {
    if cells != [] {
      var c := cells[|cells| - 1];
      NoNul(cells[..|cells| - 1]);
      forall o | 0 <= o < |CellText(c)| ensures CellText(c)[o] != Nul {
        CellAt(c, o);
      }
    }
  }
}
