/**
 File names in plain ustar headers: tmkname cuts a long name at a slash into a
 prefix and a name, tnameof joins them again (section 10.1.1 of IEEE Std
 1003.1-1996).
 */
module UstarNames {
  const TNAMSIZ: nat := 100
  const TPFXSIZ: nat := 155
  const NUL: char := 0 as char

  /** A slash where a name may be cut: a prefix before it, a name behind it. */
  predicate Cut(fn: string, i: int) {
    1 <= i <= TPFXSIZ && i + 1 < |fn| && fn[i] == '/'
  }

  /** What the format can hold. */
  ghost predicate Fits(fn: string) {
    |fn| <= TNAMSIZ || exists i :: Cut(fn, i) && |fn| - (i + 1) <= TNAMSIZ
  }

  /** The content of a fixed field, up to a NUL or its end. */
  function Content(s: seq<char>): (c: string)
    ensures |c| <= |s| && c == s[..|c|] && (|c| < |s| ==> s[|c|] == NUL) && NUL !in c
  {
    if s == [] || s[0] == NUL then [] else [s[0]] + Content(s[1..])
  }

  /** The name a header tells. */
  function NameOf(prefix: seq<char>, name: seq<char>): string {
    if Content(prefix) == [] then Content(name) else Content(prefix) + "/" + Content(name)
  }

  lemma {:induction false} ContentIs(s: seq<char>, c: string)
    requires |c| <= |s| && s[..|c|] == c && NUL !in c && (|c| < |s| ==> s[|c|] == NUL)
    ensures Content(s) == c
    decreases |c|
  {
    if c != [] {
      assert s[0] == c[0] && s[1..][..|c| - 1] == c[1..];
      ContentIs(s[1..], c[1..]);
    }
  }

  class Header {
    const name: array<char>
    const prefix: array<char>

    ghost predicate Valid() {
      name.Length == TNAMSIZ && prefix.Length == TPFXSIZ && name != prefix
    }

    constructor ()
      ensures Valid() && fresh(name) && fresh(prefix)
      ensures (forall i :: 0 <= i < TNAMSIZ ==> name[i] == NUL) && forall i :: 0 <= i < TPFXSIZ ==> prefix[i] == NUL
    {
      name := new char[TNAMSIZ](_ => NUL);
      prefix := new char[TPFXSIZ](_ => NUL);
    }

    /** memcpy, and a NUL when there is room for it. */
    method Fill(field: array<char>, part: string)
      requires |part| <= field.Length
      modifies field
      ensures NUL !in part ==> Content(field[..]) == part
    {
      for i := 0 to |part|
        invariant field[..i] == part[..i]
      {
        field[i] := part[i];
      }
      if |part| < field.Length {
        field[|part|] := NUL;
      }
      assert field[..][..|part|] == part;
      if NUL !in part {
        ContentIs(field[..], part);
      }
    }

    /** The last slash where the name may be cut. */
    method LastCut(fn: string) returns (cs: int)
      ensures cs == -1 || Cut(fn, cs)
      ensures forall i :: Cut(fn, i) ==> i <= cs
    {
      cs := -1;
      for cp := 0 to |fn|
        invariant cs == -1 || (Cut(fn, cs) && cs < cp)
        invariant forall i :: Cut(fn, i) && i < cp ==> i <= cs
      {
        if fn[cp] == '/' && cp + 1 < |fn| && cp > 0 && cp <= TPFXSIZ {
          cs := cp;
        }
      }
    }

    /** tmkname on a cleared header: it succeeds exactly when the format can
        hold the name, and then the header tells that name. */
    method MkName(fn: string) returns (ok: bool)
      requires Valid() && NUL !in fn && Content(prefix[..]) == []
      modifies name, prefix
      ensures ok <==> Fits(fn)
      ensures ok ==> NameOf(prefix[..], name[..]) == fn
      ensures !ok ==> name[..] == old(name[..]) && prefix[..] == old(prefix[..])
    {
      hide Content;
      var cs := LastCut(fn);
      if |fn| - (cs + 1) > TNAMSIZ {
        return false;
      }
      ok := true;
      if cs != -1 && |fn| > TNAMSIZ {
        assert fn == fn[..cs] + "/" + fn[cs + 1..];
        Fill(prefix, fn[..cs]);
        Fill(name, fn[cs + 1..]);
      } else {
        Fill(name, fn);
      }
    }

    /** tnameof. */
    method TNameOf() returns (buf: string)
      requires Valid()
      ensures buf == NameOf(prefix[..], name[..])
    {
      hide Content;
      buf := [];
      FirstChar(prefix[..]);
      if prefix[0] != NUL {
        buf := TakeContent(prefix);
        if |buf| > 0 {
          buf := buf + "/";
        }
      }
      var rest := TakeContent(name);
      buf := buf + rest;
    }

    method TakeContent(field: array<char>) returns (c: string)
      ensures c == Content(field[..])
    {
      c := [];
      var cp := 0;
      while cp < field.Length && field[cp] != NUL
        invariant cp <= field.Length && c == field[..cp] && NUL !in c
      {
        c, cp := c + [field[cp]], cp + 1;
      }
      ContentIs(field[..], c);
    }
  }

  lemma FirstChar(s: seq<char>)
    requires s != []
    ensures Content(s) == [] <==> s[0] == NUL
  {
  }

  /** A name with a slash at either end of the limits: 155 bytes, a slash and
      100 bytes are stored; one byte more in either part is not. */
  lemma Limits(p: string, n: string)
    requires '/' !in p && '/' !in n && |p| > 0 && |n| > 0 && |p| + 1 + |n| > 100
    ensures Fits(p + "/" + n) <==> |p| <= 155 && |n| <= 100
  {
    var fn := p + "/" + n;
    assert forall i :: 0 <= i < |p| ==> fn[i] == p[i] && p[i] in p;
    assert forall i {:trigger fn[i]} :: |p| < i < |fn| ==> fn[i] == n[i - |p| - 1] && n[i - |p| - 1] in n;
    if |p| <= TPFXSIZ && |n| <= TNAMSIZ {
      assert Cut(fn, |p|);
    }
  }

  /** Neither part may be empty: a long name whose only slash is its first or its
      last character is not stored. */
  lemma Edges(p: string)
    requires '/' !in p && |p| >= 100
    ensures !Fits(p + "/") && !Fits("/" + p)
  {
    var a, b := p + "/", "/" + p;
    assert forall i :: 0 <= i < |p| ==> a[i] == p[i] && p[i] in p;
    assert forall i :: 1 <= i < |b| ==> b[i] == p[i - 1] && p[i - 1] in p;
  }

  /** A name through a header and back. */
  method Through(fn: string) returns (back: string, ok: bool)
    requires NUL !in fn
    ensures ok <==> Fits(fn)
    ensures ok ==> back == fn
  {
    var h := new Header();
    FirstChar(h.prefix[..]);
    ok := h.MkName(fn);
    back := h.TNameOf();
  }
}
