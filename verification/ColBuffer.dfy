/**
 The line buffer of col for single-width text without -b and -p: outc edits
 the text of the current line in place, and does to it what Struck does to the
 grid.
 */
module ColBuffer {
  import opened ColGrid

  class Buffer {
    var lbuff: array<Ch>
    var line: nat
    var lp: nat

    /** The buffer holds the text t; everything past it is Nul. */
    ghost predicate Holds(t: seq<Ch>)
      reads this`lbuff, lbuff
    {
      && |t| < lbuff.Length && Nul !in t && lbuff[..|t|] == t
      && forall i :: |t| <= i < lbuff.Length ==> lbuff[i] == Nul
    }

    /** The buffer shows the grid; line is where column lp starts. */
    ghost predicate Shows(cells: seq<Cell>)
      reads this, lbuff
    {
      IsGrid(cells) && Holds(Text(cells)) && lp <= |cells| && line == Index(cells, lp)
    }

    constructor ()
      ensures Shows([]) && fresh(lbuff)
    {
      lbuff := new Ch[128](_ => Nul);
      line, lp := 0, 0;
    }

    /** slbuff: room for n characters from line on, and some more. */
    method Slbuff(n: nat)
      modifies this`lbuff
      ensures line + n + 128 <= lbuff.Length && (lbuff == old(lbuff) || fresh(lbuff))
      ensures forall t :: old(Holds(t)) ==> Holds(t)
      ensures old(lbuff.Length) <= lbuff.Length && lbuff[..old(lbuff.Length)] == old(lbuff[..])
    {
      if line + n + 128 >= lbuff.Length {
        var old_, size := lbuff, line + n + 128;
        var grown := new Ch[size](i requires 0 <= i reads old_ => if i < old_.Length then old_[i] else Nul);
        lbuff := grown;
      }
    }

    /** lllen of the text from an index on. */
    method Length(from: nat, ghost t: seq<Ch>) returns (n: nat)
      requires Holds(t) && from <= |t|
      ensures n == |t| - from
    {
      Chars(t);
      n := 0;
      while lbuff[from + n] != Nul
        invariant from + n <= |t|
        decreases |t| - n
      {
        n := n + 1;
      }
    }

    lemma Chars(t: seq<Ch>)
      requires Holds(t)
      ensures forall i :: 0 <= i < |t| ==> lbuff[i] == t[i] && lbuff[i] != Nul
    {
      forall i | 0 <= i < |t| ensures lbuff[i] == t[i] && lbuff[i] != Nul {
        assert lbuff[..|t|][i] == t[i] && t[i] in t;
      }
    }

    /** memmove towards the end. */
    method Memmove(to: nat, from: nat, n: nat)
      requires from <= to && to + n <= lbuff.Length
      modifies lbuff
      ensures lbuff[..] == Spread(old(lbuff[..]), to, from, n)
    {
      var k := n;
      ghost var b, d := lbuff[..], to - from;
      while k > 0
        invariant 0 <= k <= n
        invariant forall i :: 0 <= i < to + k ==> lbuff[i] == b[i]
        invariant forall i :: to + k <= i < to + n ==> lbuff[i] == b[i - d]
        invariant forall i :: to + n <= i < lbuff.Length ==> lbuff[i] == b[i]
      {
        k := k - 1;
        lbuff[to + k] := lbuff[from + k];
      }
    }

    /** Copy the rest of the text d places back, up to the terminator: for
        single-width characters this changes nothing, because behind the end
        of the text there is nothing but Nul. */
    method Close(d: nat, ghost t: seq<Ch>)
      requires Holds(t) && line <= |t| && line + 1 + d < lbuff.Length && (d == 0 || line + 1 == |t|)
      modifies lbuff
      ensures lbuff[..] == old(lbuff[..]) && Holds(t)
    {
      var n := 1;
      while true
        invariant lbuff[..] == old(lbuff[..]) && line + n + d < lbuff.Length && n >= 1 && (d > 0 ==> n == 1)
        decreases lbuff.Length - n
      {
        lbuff[line + n] := lbuff[line + d + n];
        if lbuff[line + n] == Nul {
          return;
        }
        assert lbuff[line + n] == old(lbuff[line + n]);
        assert line + n < |t|;
        n := n + 1;
      }
    }

    /** Where the walk along the text stands: o characters into column k. */
    ghost predicate Within(cells: seq<Cell>, k: nat, o: nat, cp: nat)
      reads this
    {
      && IsGrid(cells) && k <= |cells| && (if k == |cells| then o == 0 else o < |CellText(cells[k])|)
      && line == Index(cells, k) + o && lp == k + o % 2 && (o > 0 && o % 2 == 0 ==> k < cp)
    }

    /** The character there. */
    lemma AtLine(cells: seq<Cell>, k: nat, o: nat, cp: nat)
      requires Within(cells, k, o, cp) && Holds(Text(cells))
      ensures line <= |Text(cells)|
      ensures lbuff[line] == if k == |cells| then Nul else CellText(cells[k])[o]
      ensures k == |cells| ==> line == |Text(cells)| && cells[..k] == cells
      ensures lbuff[line] == Nul <==> k == |cells|
      ensures lbuff[line] == Bs <==> o % 2 == 1
    {
      hide Text, CellText;
      if k < |cells| {
        Around(cells, k);
        CellAt(cells[k], o);
        assert lbuff[..|Text(cells)|][line] == Text(cells)[line];
        assert Text(cells)[Index(cells, k)..Index(cells, k) + |CellText(cells[k])|][o] == CellText(cells[k])[o];
      } else {
        assert cells[..k] == cells;
      }
    }

    /** One or two characters on, perhaps into the next column. */
    ghost function Next(cells: seq<Cell>, k: nat, o: nat): (nat, nat)
      requires IsGrid(cells) && k < |cells|
    {
      if o == |CellText(cells[k])| then (k + 1, 0) else (k, o)
    }

    lemma IntoNext(cells: seq<Cell>, k: nat, o: nat, cp: nat)
      requires IsGrid(cells) && k < |cells| && o <= |CellText(cells[k])|
      requires line == Index(cells, k) + o && lp == k + o % 2 && (o > 0 && o % 2 == 0 ==> k < cp)
      ensures var (k', o') := Next(cells, k, o); Within(cells, k', o', cp)
    {
      hide Text;
      Around(cells, k);
    }

    method Extend(ghost cells: seq<Cell>)
      requires IsGrid(cells) && Holds(Text(cells)) && line == |Text(cells)| && line + 1 < lbuff.Length
      modifies this`line, lbuff
      ensures Holds(Text(cells + [[Sp]])) && line == |Text(cells + [[Sp]])|
    {
      hide Text, CellText;
      Appended(cells, [Sp]);
      NoNul(cells + [[Sp]]);
      Blank();
      lbuff[line] := Sp;
      line := line + 1;
      assert lbuff[..line] == lbuff[..line - 1] + [Sp];
    }

    /** One character of the walk, or a blank column at the end of the text. */
    method Step(cp: nat, ghost cells: seq<Cell>, ghost k: nat, ghost o: nat)
      returns (ghost ds: seq<Cell>, ghost k': nat, ghost o': nat)
      requires Within(cells, k, o, cp) && Holds(Text(cells)) && lp < cp && k <= cp
      modifies this, lbuff
      ensures lbuff == old(lbuff) || fresh(lbuff)
      ensures Within(ds, k', o', cp) && Holds(Text(ds)) && lp <= cp && k' <= cp
      ensures ds == if k == |cells| then cells + [[Sp]] else cells
      ensures k' == k + 1 || (k' == k < |cells| && o' > o)
    {
      hide Text, CellText, Holds;
      ds, k', o' := cells, k, o;
      Slbuff(0);
      AtLine(cells, k, o, cp);
      if lbuff[line] == Nul {
        Extend(cells);
        lp := lp + 1;
        ds, k' := cells + [[Sp]], k + 1;
        assert ds[..k + 1] == ds;
      } else {
        lp := if lbuff[line] == Bs then lp - 1 else lp + 1;
        line := line + 1;
        IntoNext(cells, k, o + 1, cp);
        ghost var next := Next(cells, k, o + 1);
        k', o' := next.0, next.1;
      }
    }

    /** The walk to column cp; columns that are missing become blank. */
    method Seek(cp: nat, ghost cells: seq<Cell>)
      requires Shows(cells)
      modifies this, lbuff
      ensures Shows(Padded(cells, cp)) && lp == cp && line + 128 <= lbuff.Length
      ensures lbuff == old(lbuff) || fresh(lbuff)
    {
      hide Text, CellText, Holds, Padded, IsCell, Index;
      if lp > cp {
        line, lp := 0, 0;
        NoText(cells);
      }
      ghost var ds, k, o: nat := cells, lp, 0;
      PaddedNone(cells);
      while lp < cp
        invariant lbuff == old(lbuff) || fresh(lbuff)
        invariant Within(ds, k, o, cp) && Holds(Text(ds)) && k <= cp && lp <= cp
        invariant ds == Padded(cells, |ds|) && |cells| <= |ds| && (|ds| == |cells| || |ds| <= cp)
        decreases cp - k, if k < |ds| then |CellText(ds[k])| - o else 0
      {
        PaddedMore(cells, |ds|);
        ds, k, o := Step(cp, ds, k, o);
      }
      SkipStrikes(cp, ds, k, o);
      PaddedEnough(cells, |ds|, cp);
    }

    /** Past the backspaces and the characters struck over the column. */
    method SkipStrikes(cp: nat, ghost ds: seq<Cell>, ghost k0: nat, ghost o0: nat)
      requires Within(ds, k0, o0, cp) && Holds(Text(ds)) && lp == cp && k0 <= cp
      modifies this`lbuff, this`line
      ensures Shows(ds) && lp == cp && line + 128 <= lbuff.Length && cp <= |ds|
      ensures lbuff == old(lbuff) || fresh(lbuff)
    {
      hide Text, CellText, Holds, IsCell, Index;
      ghost var k, o := k0, o0;
      Slbuff(0);
      AtLine(ds, k, o, cp);
      while lbuff[line] == Bs
        invariant lbuff == old(lbuff) || fresh(lbuff)
        invariant Within(ds, k, o, cp) && Holds(Text(ds)) && lp == cp && line + 128 <= lbuff.Length
        invariant lbuff[line] == Bs <==> o % 2 == 1
        decreases cp - k, if k < |ds| then |CellText(ds[k])| - o else 0
      {
        line := line + 2;
        IntoNext(ds, k, o + 2, cp);
        ghost var next := Next(ds, k, o + 2);
        k, o := next.0, next.1;
        Slbuff(0);
        AtLine(ds, k, o, cp);
      }
    }

    /** A second character on a column: backspace and character go in behind
        the first. */
    method InsertStrike(c: Ch, ghost t: seq<Ch>)
      requires Holds(t) && line <= |t| && c.Ink?
      modifies this`lbuff, this`line, lbuff
      ensures Holds(t[..old(line)] + [Bs, c] + t[old(line)..]) && line == old(line) + 2 && line < lbuff.Length
      ensures line + 1 < lbuff.Length
      ensures lbuff == old(lbuff) || fresh(lbuff)
    {
      hide *;
      ghost var at := line;
      var n := Length(line, t);
      Slbuff(2 + n + 1);
      HoldsIs(t);
      ghost var b := lbuff[..];
      Memmove(line + 2, line, n + 1);
      lbuff[line] := Bs;
      lbuff[line + 1] := c;
      line := line + 2;
      Inserted(b, t, at, c);
      IsText(lbuff[..], t[..at] + [Bs, c] + t[at..]);
    }

    lemma HoldsIs(t: seq<Ch>)
      requires Holds(t)
      ensures |t| < lbuff.Length && (forall i :: 0 <= i < |t| ==> t[i] != Nul)
      ensures forall i :: 0 <= i < lbuff.Length ==> lbuff[i] == if i < |t| then t[i] else Nul
    {
      Chars(t);
    }

    /** The buffer after the move, character by character. */
    lemma Inserted(b: seq<Ch>, t: seq<Ch>, at: nat, c: Ch)
      requires at <= |t| && |t| + 2 < |b| && c.Ink? && forall i :: 0 <= i < |t| ==> t[i] != Nul
      requires forall i :: 0 <= i < |b| ==> b[i] == if i < |t| then t[i] else Nul
      ensures var u, a := t[..at] + [Bs, c] + t[at..], Spread(b, at + 2, at, |t| - at + 1)[at := Bs][at + 1 := c];
        |u| < |a| && Nul !in u && forall i :: 0 <= i < |a| ==> a[i] == if i < |u| then u[i] else Nul
    {
      var u := t[..at] + [Bs, c] + t[at..];
      forall i | 0 <= i < |u| ensures u[i] != Nul {
        assert u[i] == if i < at then t[i] else if i == at then Bs else if i == at + 1 then c else t[i - 2];
      }
    }

    lemma IsText(a: seq<Ch>, u: seq<Ch>)
      requires a == lbuff[..] && |u| < |a| && Nul !in u
      requires forall i :: 0 <= i < |a| ==> a[i] == if i < |u| then u[i] else Nul
      ensures Holds(u)
    {
      assert forall i :: 0 <= i < |a| ==> a[i] == lbuff[i];
      assert lbuff[..|u|] == u;
    }

    /** outc. */
    method Outc(c: Ch, cp: nat, ghost cells: seq<Cell>)
      requires Shows(cells) && c.Ink?
      modifies this, lbuff
      ensures Shows(Struck(cells, cp, c))
      ensures lbuff == old(lbuff) || fresh(lbuff)
    {
      hide Text, CellText, Holds, Padded;
      ghost var ds, es := Padded(cells, cp), Struck(cells, cp, c);
      Seek(cp, cells);
      assert Within(ds, cp, 0, cp);
      AtLine(ds, cp, 0, cp);
      StruckText(cells, cp, c);
      if lbuff[line] == Nul || lbuff[line] == Sp {
        var w := if lbuff[line] == Nul then 0 else 1;
        Overwrite(c, Text(ds), Text(es));
        Close(1 - w, Text(es));
      } else {
        Slbuff(1);
        line := line + 1;
        InsertStrike(c, Text(ds));
        Close(0, Text(es));
        lp, line := 0, 0;
        NoText(es);
      }
    }

    method Overwrite(c: Ch, ghost t: seq<Ch>, ghost u: seq<Ch>)
      requires Holds(t) && line <= |t| && line + 1 < lbuff.Length && c.Ink?
      requires u == t[..line] + [c] + (if line < |t| then t[line + 1..] else [])
      modifies lbuff
      ensures Holds(u)
    {
      lbuff[line] := c;
      assert lbuff[..|u|] == u;
    }

    /** llcpy out of the buffer. */
    method Copy(ghost t: seq<Ch>) returns (s: seq<Ch>)
      requires Holds(t)
      ensures s == t
    {
      var n := Length(0, t);
      s := lbuff[..n];
    }

    /** Clear the buffer and put another text in. */
    method Load(s: seq<Ch>, ghost t: seq<Ch>)
      requires Holds(t) && Nul !in s
      modifies this, lbuff
      ensures Holds(s) && line == 0 && lp == 0
      ensures lbuff == old(lbuff) || fresh(lbuff)
    {
      Chars(t);
      var p := 0;
      while lbuff[p] != Nul
        invariant lbuff == old(lbuff) && p <= |t| < lbuff.Length && (forall i :: 0 <= i < p ==> lbuff[i] == Nul)
        invariant forall i :: p <= i < lbuff.Length ==> lbuff[i] == old(lbuff[i])
        decreases |t| - p
      {
        lbuff[p] := Nul;
        p := p + 1;
      }
      line, lp := 0, 0;
      assert Holds([]);
      Slbuff(|s| + 1);
      assert Holds([]);
      for i := 0 to |s|
        invariant lbuff == old(lbuff) || fresh(lbuff)
        invariant line == 0 && lp == 0 && |s| + 1 <= lbuff.Length && lbuff[..i] == s[..i]
        invariant forall j :: i <= j < lbuff.Length ==> lbuff[j] == Nul
      {
        lbuff[i] := s[i];
      }
    }
  }

  /** n characters copied from one place to a later one. */
  ghost function Spread(b: seq<Ch>, to: nat, from: nat, n: nat): (a: seq<Ch>)
    requires from <= to && to + n <= |b|
    ensures |a| == |b|
  {
    seq(|b|, i requires 0 <= i < |b| => if to <= i < to + n then b[i - (to - from)] else b[i])
  }

  lemma Blank()
    ensures CellText([Sp]) == [Sp]
  {
  }

  lemma NoText(cells: seq<Cell>)
    requires IsGrid(cells)
    ensures Index(cells, 0) == 0
  {
  }

  lemma PaddedNone(cells: seq<Cell>)
    requires IsGrid(cells)
    ensures Padded(cells, |cells|) == cells
  {
  }

  lemma PaddedMore(cells: seq<Cell>, n: nat)
    requires IsGrid(cells) && |cells| <= n
    ensures Padded(cells, n + 1) == Padded(cells, n) + [[Sp]]
  {
  }

  lemma PaddedEnough(cells: seq<Cell>, n: nat, cp: nat)
    requires IsGrid(cells) && |cells| <= n && cp <= n && (n == |cells| || n <= cp)
    ensures Padded(cells, n) == Padded(cells, cp)
  {
  }

  lemma StruckCell(cell: Cell, c: Ch)
    requires IsCell(cell) && cell != [Sp] && c.Ink?
    ensures CellText(cell) == [cell[0]] + Strikes(cell[1..]) && IsCell([cell[0], c] + cell[1..])
    ensures CellText([cell[0], c] + cell[1..]) == [cell[0]] + ([Bs, c] + Strikes(cell[1..]))
  {
    assert ([cell[0], c] + cell[1..])[1..] == [c] + cell[1..];
  }

  /** The text of the line after a strike, from the padded one. */
  lemma StruckText(cells: seq<Cell>, n: nat, c: Ch)
    requires IsGrid(cells) && c.Ink?
    ensures var p, s := Padded(cells, n), Struck(cells, n, c); var t, i := Text(p), Index(p, n);
      && i <= |t| && Index(s, n) == i && n < |s|
      && (if n == |p| then i == |t| && Text(s) == t + [c]
          else if p[n] == [Sp] then i < |t| && Text(s) == t[..i] + [c] + t[i + 1..]
          else i < |t| && Text(s) == t[..i + 1] + [Bs, c] + t[i + 1..])
  {
    var p := Padded(cells, n);
    hide Text, CellText, IsCell, Padded, Index;
    if n == |p| {
      StruckEnd(p, c);
    } else if p[n] == [Sp] {
      StruckBlank(p, n, c);
    } else {
      StruckOver(p, n, c);
    }
  }

  lemma StruckEnd(p: seq<Cell>, c: Ch)
    requires IsGrid(p) && c.Ink?
    ensures IsGrid(p + [[c]]) && Index(p, |p|) == |Text(p)| == Index(p + [[c]], |p|) && Text(p + [[c]]) == Text(p) + [c]
  {
    Appended(p, [c]);
    One(c);
  }

  lemma StruckBlank(p: seq<Cell>, n: nat, c: Ch)
    requires IsGrid(p) && c.Ink? && n < |p| && p[n] == [Sp]
    ensures var s, t, i := p[n := [c]], Text(p), Index(p, n);
      IsGrid(s) && Index(s, n) == i < |t| && Text(s) == t[..i] + [c] + t[i + 1..]
  {
    hide Text, CellText;
    Around(p, n);
    Replaced(p, n, [c]);
    One(c);
    One(Sp);
    Swapped(Text(p[..n]), Sp, c, Text(p[n + 1..]));
  }

  lemma StruckOver(p: seq<Cell>, n: nat, c: Ch)
    requires IsGrid(p) && c.Ink? && n < |p| && p[n] != [Sp]
    ensures var s, t, i := p[n := [p[n][0], c] + p[n][1..]], Text(p), Index(p, n);
      IsGrid(s) && Index(s, n) == i < |t| && Text(s) == t[..i + 1] + [Bs, c] + t[i + 1..]
  {
    hide Text, CellText, IsCell, Strikes;
    assert IsCell(p[n]);
    StruckCell(p[n], c);
    Around(p, n);
    Replaced(p, n, [p[n][0], c] + p[n][1..]);
    SlippedIn(Text(p[..n]), p[n][0], [Bs, c], Strikes(p[n][1..]), Text(p[n + 1..]));
  }

  lemma One(c: Ch)
    ensures CellText([c]) == [c]
  {
  }

  lemma Swapped(a: seq<Ch>, x: Ch, y: Ch, b: seq<Ch>)
    ensures var t, i := a + [x] + b, |a|;
      i < |t| && a + [y] + b == t[..i] + [y] + t[i + 1..]
  {
  }

  lemma SlippedIn(a: seq<Ch>, x: Ch, m: seq<Ch>, r: seq<Ch>, b: seq<Ch>)
    ensures var t, i := a + ([x] + r) + b, |a|;
      i < |t| && a + ([x] + (m + r)) + b == t[..i + 1] + m + t[i + 1..]
  {
  }
}
