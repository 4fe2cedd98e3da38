/**
 The self-describing records of pax extended headers: addrec writes a record
 that starts with its own length, tgetrec takes one apart (IEEE Std
 1003.1-2001, Shell and Utilities, pax, extended header).
 */
module PaxRecords {

  // ---- decimal numbers ----

  function DigitOf(d: nat): char
    requires d < 10
  {
    '0' + d as char
  }

  predicate IsDigit(c: char) {
    '0' <= c <= '9'
  }

  function ValueOf(c: char): nat
    requires IsDigit(c)
  {
    c as int - '0' as int
  }

  /** sprintf with %ld. */
  function Decimal(n: nat): (s: string)
    ensures s != [] && forall i :: 0 <= i < |s| ==> IsDigit(s[i])
  {
    if n < 10 then [DigitOf(n)] else Decimal(n / 10) + [DigitOf(n % 10)]
  }

  function Value(s: string): nat
    requires forall i :: 0 <= i < |s| ==> IsDigit(s[i])
  {
    if s == [] then 0 else 10 * Value(s[..|s| - 1]) + ValueOf(s[|s| - 1])
  }

  lemma {:induction false} DecimalValue(n: nat)
    ensures Value(Decimal(n)) == n
  {
    var s := Decimal(n);
    if n < 10 {
      assert s[..0] == [];
    } else {
      DecimalValue(n / 10);
      assert s[..|s| - 1] == Decimal(n / 10);
    }
  }

  lemma {:induction false} LongerForMore(m: nat, n: nat)
    requires m <= n
    ensures |Decimal(m)| <= |Decimal(n)|
  {
    if m >= 10 {
      LongerForMore(m / 10, n / 10);
    }
  }

  lemma {:induction false} ShortDecimal(n: nat)
    ensures |Decimal(n)| <= n / 4 + 1
  {
    if n >= 10 {
      ShortDecimal(n / 10);
    }
  }

  // ---- writing ----

  /** A record whose number takes d digits is d + r bytes long. */
  function Rest(keyword: string, value: string): nat {
    |keyword| + |value| + 3
  }

  /** d digits are just enough for the length of a record with them. */
  predicate Consistent(d: nat, r: nat) {
    d == |Decimal(d + r)|
  }

  function Written(n: nat, keyword: string, value: string): string {
    Decimal(n) + " " + keyword + "=" + value + "\n"
  }

  /** One round of the length loop stays below every consistent length. */
  lemma Onwards(od: nat, r: nat)
    requires r >= 3 && od <= r && od <= |Decimal(od + r)| && forall e: nat :: Consistent(e, r) ==> od <= e
    ensures var d := |Decimal(od + r)|; d <= r && d <= |Decimal(d + r)| && forall e: nat :: Consistent(e, r) ==> d <= e
  {
    forall e: nat | Consistent(e, r) ensures |Decimal(od + r)| <= e {
      LongerForMore(od + r, e + r);
    }
    ShortDecimal(od + r);
    LongerForMore(od + r, |Decimal(od + r)| + r);
  }

  /** The length loop of addrec: it ends, with the least length that is
      consistent. */
  method LengthOf(r: nat) returns (d: nat)
    requires r >= 3
    ensures Consistent(d, r) && forall e: nat :: Consistent(e, r) ==> d <= e
  {
    d := 0;
    var od: nat := 0;
    while true
      invariant d <= |Decimal(d + r)| && d <= r
      invariant forall e: nat :: Consistent(e, r) ==> d <= e
      decreases r - d
    {
      od := d;
      Onwards(od, r);
      hide Decimal;
      d := |Decimal(od + r)|;
      if d == od {
        return;
      }
    }
  }

  /** The record for a keyword and a value: the number at its head is its
      length. */
  ghost predicate IsRecord(rec: string, keyword: string, value: string) {
    rec == Written(|rec|, keyword, value)
  }

  /** addrec: a record of the least length goes behind what is there. */
  method AddRec(pdata: string, keyword: string, value: string) returns (data: string)
    ensures pdata <= data && IsRecord(data[|pdata|..], keyword, value)
    ensures forall e: nat :: Consistent(e, Rest(keyword, value)) ==> |Decimal(|data| - |pdata|)| <= e
  {
    var r := Rest(keyword, value);
    var d := LengthOf(r);
    data := pdata + Written(d + r, keyword, value);
    assert data[|pdata|..] == Written(d + r, keyword, value);
  }

  function Ten(d: nat): nat {
    if d == 0 then 1 else 10 * Ten(d - 1)
  }

  lemma {:induction false} DecimalBounds(n: nat)
    ensures n < Ten(|Decimal(n)|) && (n >= 1 ==> Ten(|Decimal(n)| - 1) <= n)
  {
    if n >= 10 {
      DecimalBounds(n / 10);
    }
  }

  lemma {:induction false} TenGrows(d: nat, e: nat)
    requires d < e
    ensures Ten(e) >= 10 * Ten(d) >= 10 && Ten(e) >= Ten(d) + 9 * (e - d)
    decreases e
  {
    if d + 1 < e {
      TenGrows(d, e - 1);
    } else {
      TenPositive(d);
    }
  }

  lemma {:induction false} TenPositive(d: nat)
    ensures Ten(d) >= 1
  {
    if d > 0 {
      TenPositive(d - 1);
    }
  }

  /** The number of digits, from the bounds. */
  lemma DigitsAre(n: nat, d: nat)
    requires d >= 1 && n < Ten(d) && Ten(d - 1) <= n
    ensures |Decimal(n)| == d
  {
    var k := |Decimal(n)|;
    hide Decimal;
    TenPositive(d - 1);
    DecimalBounds(n);
    if k < d {
      if k < d - 1 {
        TenGrows(k, d - 1);
      }
    } else if d < k {
      if d < k - 1 {
        TenGrows(d, k - 1);
      }
    }
  }

  /** More than one length is consistent exactly when the record, with d digits
      at its head, would have a length of d nines. */
  lemma TwoLengths(r: nat)
    requires r >= 3
    ensures (exists d: nat, e: nat :: d < e && Consistent(d, r) && Consistent(e, r)) <==>
            (exists d: nat :: d >= 1 && r == Ten(d) - 1 - d)
  {
    hide Decimal;
    if d: nat, e: nat :| d < e && Consistent(d, r) && Consistent(e, r) {
      OnlyNines(d, e, r);
    }
    if d: nat :| d >= 1 && r == Ten(d) - 1 - d {
      Nines(d, r);
    }
  }

  lemma OnlyNines(d: nat, e: nat, r: nat)
    requires r >= 3 && d < e && Consistent(d, r) && Consistent(e, r)
    ensures d >= 1 && r == Ten(d) - 1 - d
  {
    hide Decimal;
    DecimalBounds(d + r);
    DecimalBounds(e + r);
    if d + 1 < e {
      TenGrows(d, e - 1);
    }
  }

  lemma Nines(d: nat, r: nat)
    requires d >= 1 && r == Ten(d) - 1 - d
    ensures Consistent(d, r) && Consistent(d + 1, r)
  {
    hide Decimal;
    TenPositive(d - 1);
    DigitsAre(d + r, d);
    DigitsAre(d + 1 + r, d + 1);
  }

  // ---- reading ----

  predicate IsSpace(c: char) {
    c == ' ' || '\t' <= c <= '\r'
  }

  /** The first place from p to e where a test fails, or e. */
  function While(s: string, p: nat, e: nat, test: char -> bool): (q: nat)
    requires p <= e <= |s|
    ensures p <= q <= e && (q < e ==> !test(s[q])) && forall i :: p <= i < q ==> test(s[i])
    decreases e - p
  {
    if p < e && test(s[p]) then While(s, p + 1, e, test) else p
  }

  lemma {:induction false} WhileIs(s: string, p: nat, e: nat, test: char -> bool, q: nat)
    requires p <= q <= e <= |s| && (q < e ==> !test(s[q])) && forall i :: p <= i < q ==> test(s[i])
    ensures While(s, p, e, test) == q
  {
  }

  /** strtol at a place: the number, and where it ends. */
  function StrTol(s: string, p: nat): (r: (int, nat))
    requires p <= |s|
    ensures p <= r.1 <= |s|
  {
    var q := While(s, p, |s|, IsSpace);
    var sign := if q < |s| && (s[q] == '-' || s[q] == '+') then 1 else 0;
    var d := While(s, q + sign, |s|, IsDigit);
    if d == q + sign then (0, p)
    else
      var v: int := Value(s[q + sign..d]);
      (if sign == 1 && s[q] == '-' then -v else v, d)
  }

  /** What tgetrec finds: a record with its keyword and value and where the
      next one starts, nothing more, or a length that does not fit the data
      (where the original would run out of its buffer). */
  datatype Found = Record(keyword: string, value: string, next: nat) | Nothing | Overrun

  function IsBlank(c: char): bool {
    c == ' ' || c == '\t'
  }

  function NotEquals(c: char): bool {
    c != '='
  }

  function NotNewline(c: char): bool {
    c != '\n'
  }

  /** Lines that do not start with a positive number are passed over. */
  function Skipped(s: string, p: nat): (q: nat)
    requires p <= |s|
    ensures p <= q <= |s|
    decreases |s| - p
  {
    if p == |s| || StrTol(s, p).0 > 0 then p else Skipped(s, While(s, p + 1, |s|, NotNewline))
  }

  /** The record that ends at e, whose number ends at x.  Without '=' the
      keyword has no end of its own: as a C string it runs on to the end of the
      data. */
  function Fields(s: string, x: nat, e: nat): Found
    requires x <= e <= |s|
  {
    var y := While(s, x, e, IsBlank);
    if y == e || s[y] == '=' then Record("", "", e)
    else
      var z := While(s, y, e, NotEquals);
      if z == e then Record(s[y..], "", e)
      else Record(s[y..z], if z + 1 < e then s[z + 1..e - 1] else "", e)
  }

  function GetRec(s: string, p0: nat): Found
    requires p0 < |s|
  {
    var p := Skipped(s, p0);
    if p == |s| then Nothing
    else
      var (n, x) := StrTol(s, p);
      if x == |s| then Nothing
      else if n <= 0 || p + n > |s| || x > p + n then Overrun
      else Fields(s, x, p + n)
  }

  /** Past the lines that are no records. */
  method SkipLines(s: string, p0: nat) returns (p: nat, n: int, x: nat)
    requires p0 < |s|
    ensures p == Skipped(s, p0) && (p < |s| ==> (n, x) == StrTol(s, p))
  {
    hide StrTol;
    p, n, x := p0, 0, p0;
    while p < |s|
      invariant p0 <= p <= |s| && Skipped(s, p) == Skipped(s, p0)
    {
      var (m, e) := StrTol(s, p);
      n, x := m, e;
      if n > 0 {
        break;
      }
      ghost var q := While(s, p + 1, |s|, NotNewline);
      p := p + 1;
      while p < |s| && s[p] != '\n'
        invariant p <= |s| && While(s, p, |s|, NotNewline) == q
      {
        p := p + 1;
      }
    }
  }

  /** Blanks, keyword, '=' and value. */
  method TakeFields(s: string, x0: nat, e: nat) returns (f: Found)
    requires x0 <= e <= |s|
    ensures f == Fields(s, x0, e)
  {
    var x := x0;
    while x < e && (s[x] == ' ' || s[x] == '\t')
      invariant x0 <= x <= e && While(s, x, e, IsBlank) == While(s, x0, e, IsBlank)
    {
      x := x + 1;
    }
    if x == e || s[x] == '=' {
      return Record("", "", e);
    }
    var y := x;
    while x < e && s[x] != '='
      invariant y <= x <= e && While(s, x, e, NotEquals) == While(s, y, e, NotEquals)
    {
      x := x + 1;
    }
    if x == e {
      return Record(s[y..], "", e);
    }
    return Record(s[y..x], if x + 1 < e then s[x + 1..e - 1] else "", e);
  }

  /** tgetrec. */
  method TGetRec(s: string, p0: nat) returns (f: Found)
    requires p0 < |s|
    ensures f == GetRec(s, p0)
  {
    hide StrTol, Skipped, Fields;
    var p, n, x := SkipLines(s, p0);
    if p == |s| || x == |s| {
      return Nothing;
    }
    if n <= 0 || p + n > |s| || x > p + n {
      return Overrun;
    }
    f := TakeFields(s, x, p + n);
  }

  // ---- a record read back ----

  /** What a keyword may be: not empty, without '=' and with no blank at its
      start. */
  predicate Proper(keyword: string) {
    keyword != "" && !IsBlank(keyword[0]) && '=' !in keyword
  }

  /** part stands at place p. */
  ghost predicate StandsAt(s: string, p: nat, part: string) {
    p + |part| <= |s| && forall i :: 0 <= i < |part| ==> s[p + i] == part[i]
  }

  lemma Stands(s: string, p: nat, part: string)
    requires StandsAt(s, p, part)
    ensures p + |part| <= |s| && s[p..p + |part|] == part && forall i :: p <= i < p + |part| ==> s[i] == part[i - p]
  {
  }

  lemma StandParts(s: string, p: nat, a: string, b: string)
    requires StandsAt(s, p, a + b)
    ensures StandsAt(s, p, a) && StandsAt(s, p + |a|, b)
  {
    assert forall i :: 0 <= i < |a| ==> (a + b)[i] == a[i];
    assert forall i :: 0 <= i < |b| ==> (a + b)[|a| + i] == b[i];
  }

  /** The number at the head of a record. */
  lemma HeadNumber(s: string, p: nat, n: nat)
    requires n > 0 && StandsAt(s, p, Decimal(n)) && StandsAt(s, p + |Decimal(n)|, " ")
    ensures StrTol(s, p) == (n as int, p + |Decimal(n)|)
  {
    var d := Decimal(n);
    Stands(s, p, d);
    assert s[p + |d|] == ' ' by {
      Stands(s, p + |d|, " ");
    }
    WhileIs(s, p, |s|, IsSpace, p);
    WhileIs(s, p, |s|, IsDigit, p + |d|);
    DecimalValue(n);
    hide While, Decimal, Value;
  }

  /** Keyword and value between the number and the end of the record. */
  lemma FieldsBack(s: string, x: nat, keyword: string, value: string)
    requires Proper(keyword) && |keyword| > 0 && StandsAt(s, x, " ") && StandsAt(s, x + 1, keyword)
    requires StandsAt(s, x + 1 + |keyword|, "=") && StandsAt(s, x + |keyword| + 2, value)
    requires StandsAt(s, x + |keyword| + |value| + 2, "\n")
    ensures Fields(s, x, x + |keyword| + |value| + 3) == Record(keyword, value, x + |keyword| + |value| + 3)
  {
    hide *;
    var k, e := |keyword|, x + |keyword| + |value| + 3;
    Stands(s, x + k + 2, value);
    Stands(s, e - 1, "\n");
    KeywordEnds(s, x, e, keyword);
    Stands(s, x + 1, keyword);
    FieldsFrom(s, x, e, x + 1, x + 1 + k);
  }

  lemma KeywordEnds(s: string, x: nat, e: nat, keyword: string)
    requires Proper(keyword) && StandsAt(s, x, " ") && StandsAt(s, x + 1, keyword) && StandsAt(s, x + 1 + |keyword|, "=")
    requires x + 1 + |keyword| < e <= |s|
    ensures While(s, x, e, IsBlank) == x + 1 && While(s, x + 1, e, NotEquals) == x + 1 + |keyword|
    ensures s[x + 1] != '='
  {
    hide StandsAt, While;
    Stands(s, x, " ");
    Stands(s, x + 1, keyword);
    Stands(s, x + 1 + |keyword|, "=");
    forall i | x + 1 <= i < x + 1 + |keyword| ensures s[i] != '=' {
      assert keyword[i - (x + 1)] in keyword;
    }
    WhileIs(s, x, e, IsBlank, x + 1);
    WhileIs(s, x + 1, e, NotEquals, x + 1 + |keyword|);
  }

  lemma FieldsFrom(s: string, x: nat, e: nat, y: nat, z: nat)
    requires x <= y < z < e <= |s| && z + 1 < e && While(s, x, e, IsBlank) == y && While(s, y, e, NotEquals) == z && s[y] != '='
    ensures Fields(s, x, e) == Record(s[y..z], s[z + 1..e - 1], e)
  {
    hide While;
  }

  lemma WholeRecord(s: string, p: nat, rec: string, keyword: string, value: string)
    requires IsRecord(rec, keyword, value) && StandsAt(s, p, rec)
    ensures var d := Decimal(|rec|); var x, k := p + |d|, |keyword|;
      && p + |rec| <= |s| && |rec| == |d| + k + |value| + 3 && StandsAt(s, p, d) && StandsAt(s, x, " ") && StandsAt(s, x + 1, keyword)
      && StandsAt(s, x + 1 + k, "=") && StandsAt(s, x + k + 2, value) && StandsAt(s, x + k + |value| + 2, "\n")
  {
    hide StandsAt, Decimal;
    var d := Decimal(|rec|);
    StandParts(s, p, d + " " + keyword + "=" + value, "\n");
    StandParts(s, p, d + " " + keyword + "=", value);
    StandParts(s, p, d + " " + keyword, "=");
    StandParts(s, p, d + " ", keyword);
    StandParts(s, p, d, " ");
  }

  /** A record is read back wherever it stands and whatever follows it, also
      when its value has '=' and newlines in it. */
  lemma RecordBack(s: string, p: nat, rec: string, keyword: string, value: string)
    requires IsRecord(rec, keyword, value) && Proper(keyword) && StandsAt(s, p, rec)
    ensures p + |rec| <= |s| && p < |s| && GetRec(s, p) == Record(keyword, value, p + |rec|)
  {
    hide *;
    WholeRecord(s, p, rec, keyword, value);
    HeadNumber(s, p, |rec|);
    NotEmpty(keyword);
    FieldsBack(s, p + |Decimal(|rec|)|, keyword, value);
    GetRecIs(s, p, |rec|, p + |Decimal(|rec|)|);
  }

  lemma NotEmpty(keyword: string)
    requires Proper(keyword)
    ensures |keyword| > 0
  {
  }

  lemma GetRecIs(s: string, p: nat, n: nat, x: nat)
    requires p < |s| && StrTol(s, p) == (n as int, x) && n > 0 && p + n <= |s| && x < p + n
    ensures GetRec(s, p) == Fields(s, x, p + n)
  {
    hide StrTol, Fields;
  }

  // ---- lists of records ----

  datatype Pair = Pair(keyword: string, value: string)

  /** The read loop: all records from p to the end of the data. */
  function GetAll(s: string, p: nat): (ps: seq<Pair>)
    requires p <= |s|
    decreases |s| - p
  {
    if p == |s| then []
    else
      var f := GetRec(s, p);
      if !f.Record? || f.next <= p || f.next > |s| then []
      else [Pair(f.keyword, f.value)] + GetAll(s, f.next)
  }

  ghost predicate AreRecords(recs: seq<string>, ps: seq<Pair>) {
    |recs| == |ps| && forall i :: 0 <= i < |ps| ==> IsRecord(recs[i], ps[i].keyword, ps[i].value)
  }

  ghost function Joined(recs: seq<string>): string {
    if recs == [] then "" else Joined(recs[..|recs| - 1]) + recs[|recs| - 1]
  }

  /** addrec for each pair. */
  method AddAll(ps: seq<Pair>) returns (data: string, ghost recs: seq<string>)
    ensures AreRecords(recs, ps) && data == Joined(recs)
    ensures (forall p :: p in ps ==> Proper(p.keyword)) ==> GetAll(data, 0) == ps
  {
    hide IsRecord, GetAll, Proper;
    data, recs := "", [];
    for i := 0 to |ps|
      invariant AreRecords(recs, ps[..i]) && data == Joined(recs)
    {
      ghost var before := data;
      data := AddRec(data, ps[i].keyword, ps[i].value);
      ghost var rec := data[|before|..];
      recs := recs + [rec];
      assert recs[..i] + [rec] == recs && ps[..i + 1] == ps[..i] + [ps[i]] && data == before + rec;
    }
    assert ps[..|ps|] == ps;
    if forall p :: p in ps ==> Proper(p.keyword) {
      AllBack(recs, ps, 0);
    }
  }

  lemma {:induction false} JoinedSlice(recs: seq<string>, i: nat)
    requires i < |recs|
    ensures var a, b := |Joined(recs[..i])|, |Joined(recs[..i + 1])|;
      a + |recs[i]| == b <= |Joined(recs)| && StandsAt(Joined(recs), a, recs[i])
  {
    assert recs[..i + 1][..i] == recs[..i];
    if i == |recs| - 1 {
      assert recs[..i + 1] == recs;
    } else {
      var n := |recs| - 1;
      JoinedSlice(recs[..n], i);
      assert recs[..n][..i] == recs[..i] && recs[..n][..i + 1] == recs[..i + 1];
    }
  }

  /** Reading any number of records gives the same keywords and values, in
      order. */
  lemma {:induction false} AllBack(recs: seq<string>, ps: seq<Pair>, i: nat)
    requires i <= |ps| && AreRecords(recs, ps) && forall p :: p in ps ==> Proper(p.keyword)
    ensures |Joined(recs[..i])| <= |Joined(recs)| && GetAll(Joined(recs), |Joined(recs[..i])|) == ps[i..]
    decreases |ps| - i
  {
    hide *;
    SameLength(recs, ps);
    var s, a := Joined(recs), |Joined(recs[..i])|;
    if i == |ps| {
      AtEnd(s);
      assert recs[..i] == recs && ps[i..] == [];
    } else {
      OneOf(recs, ps, i);
      JoinedSlice(recs, i);
      RecordBack(s, a, recs[i], ps[i].keyword, ps[i].value);
      AllBack(recs, ps, i + 1);
      AllStep(s, a, |Joined(recs[..i + 1])|, ps[i], ps[i + 1..]);
      assert ps[i..] == [ps[i]] + ps[i + 1..];
    }
  }

  lemma SameLength(recs: seq<string>, ps: seq<Pair>)
    requires AreRecords(recs, ps)
    ensures |recs| == |ps|
  {
  }

  lemma OneOf(recs: seq<string>, ps: seq<Pair>, i: nat)
    requires i < |ps| && AreRecords(recs, ps) && forall p :: p in ps ==> Proper(p.keyword)
    ensures i < |recs| && IsRecord(recs[i], ps[i].keyword, ps[i].value) && Proper(ps[i].keyword) && |recs[i]| > 0
  {
  }

  lemma AtEnd(s: string)
    ensures GetAll(s, |s|) == []
  {
  }

  lemma AllStep(s: string, a: nat, b: nat, p: Pair, more: seq<Pair>)
    requires a < b <= |s| && GetRec(s, a) == Record(p.keyword, p.value, b) && GetAll(s, b) == more
    ensures GetAll(s, a) == [p] + more
  {
    hide GetRec;
  }

  // ---- records behind a line that is none ----

  /** A value without its last character. */
  function Cut(value: string): string {
    if value == "" then "" else value[..|value| - 1]
  }

  lemma NumberBehind(s: string, p: nat, n: nat)
    requires n > 0 && StandsAt(s, p, "\n") && StandsAt(s, p + 1, Decimal(n)) && StandsAt(s, p + 1 + |Decimal(n)|, " ")
    ensures StrTol(s, p) == (n as int, p + 1 + |Decimal(n)|)
  {
    hide While, Decimal, Value;
    Stands(s, p, "\n");
    HeadNumber(s, p + 1, n);
    Stands(s, p + 1, Decimal(n));
    WhileIs(s, p, |s|, IsSpace, p + 1);
    WhileIs(s, p + 1, |s|, IsSpace, p + 1);
  }

  /** The fields of a record when its end is taken one character early. */
  lemma FieldsCut(s: string, x: nat, keyword: string, value: string)
    requires Proper(keyword) && |keyword| > 0 && StandsAt(s, x, " ") && StandsAt(s, x + 1, keyword)
    requires StandsAt(s, x + 1 + |keyword|, "=") && StandsAt(s, x + |keyword| + 2, value)
    ensures Fields(s, x, x + |keyword| + |value| + 2) == Record(keyword, Cut(value), x + |keyword| + |value| + 2)
  {
    hide *;
    var k, e := |keyword|, x + |keyword| + |value| + 2;
    Stands(s, x + k + 2, value);
    KeywordEnds(s, x, e, keyword);
    Stands(s, x + 1, keyword);
    CutFrom(s, x, e, x + 1, x + 1 + k, value);
  }

  lemma CutFrom(s: string, x: nat, e: nat, y: nat, z: nat, value: string)
    requires x <= y < z < e <= |s| && While(s, x, e, IsBlank) == y && While(s, y, e, NotEquals) == z && s[y] != '='
    requires s[z + 1..e] == value
    ensures Fields(s, x, e) == Record(s[y..z], Cut(value), e)
  {
    hide While;
    if z + 1 < e {
      assert s[z + 1..e - 1] == s[z + 1..e][..|value| - 1];
    }
  }

  /** Read from the newline before it, a record loses the last character of its
      value, and the next one is looked for from the newline at its end. */
  lemma RecordCut(s: string, p: nat, rec: string, keyword: string, value: string)
    requires IsRecord(rec, keyword, value) && Proper(keyword) && StandsAt(s, p, "\n") && StandsAt(s, p + 1, rec)
    ensures p + 1 + |rec| <= |s| && GetRec(s, p) == Record(keyword, Cut(value), p + |rec|) && StandsAt(s, p + |rec|, "\n")
  {
    hide *;
    WholeRecord(s, p + 1, rec, keyword, value);
    NumberBehind(s, p, |rec|);
    NotEmpty(keyword);
    FieldsCut(s, p + 1 + |Decimal(|rec|)|, keyword, value);
    GetRecIs(s, p, |rec|, p + 1 + |Decimal(|rec|)|);
  }

  /** A line that starts with no number, space or sign is passed over up to, and
      not including, its newline. */
  lemma JunkSkipped(s: string, p: nat, junk: string)
    requires junk != "" && !IsSpace(junk[0]) && !IsDigit(junk[0]) && junk[0] != '-' && junk[0] != '+' && '\n' !in junk
    requires StandsAt(s, p, junk) && StandsAt(s, p + |junk|, "\n")
    ensures p < |s| && p + |junk| < |s| && GetRec(s, p) == GetRec(s, p + |junk|)
  {
    hide While, Fields, Value, StandsAt;
    var q := p + |junk|;
    Stands(s, p, junk);
    Stands(s, q, "\n");
    WhileIs(s, p, |s|, IsSpace, p);
    WhileIs(s, p, |s|, IsDigit, p);
    forall i | p + 1 <= i < q ensures s[i] != '\n' {
      assert junk[i - p] in junk;
    }
    WhileIs(s, p + 1, |s|, NotNewline, q);
    assert StrTol(s, p).0 == 0;
    hide StrTol;
    assert Skipped(s, p) == Skipped(s, q);
  }

  function CutAll(ps: seq<Pair>): (r: seq<Pair>)
    ensures |r| == |ps|
  {
    if ps == [] then [] else [Pair(ps[0].keyword, Cut(ps[0].value))] + CutAll(ps[1..])
  }

  lemma {:induction false} JoinedFirst(recs: seq<string>)
    requires recs != []
    ensures Joined(recs) == recs[0] + Joined(recs[1..])
  {
    hide *;
    var n := |recs| - 1;
    JoinedLast(recs);
    JoinedLast(recs[1..]);
    if n > 0 {
      JoinedFirst(recs[..n]);
      assert recs[..n][1..] == recs[1..][..n - 1] && recs[1..][n - 1] == recs[n];
      assert recs[0] + Joined(recs[..n][1..]) + recs[n] == recs[0] + (Joined(recs[..n][1..]) + recs[n]);
    } else {
      JoinedLast(recs[..n]);
      assert "" + recs[0] == recs[0] + "";
    }
  }

  lemma JoinedLast(recs: seq<string>)
    ensures recs == [] ==> Joined(recs) == ""
    ensures recs != [] ==> Joined(recs) == Joined(recs[..|recs| - 1]) + recs[|recs| - 1]
  {
  }

  lemma LoneNewline(s: string, p: nat)
    requires StandsAt(s, p, "\n") && p + 1 == |s|
    ensures GetAll(s, p) == []
  {
    Stands(s, p, "\n");
    WhileIs(s, p, |s|, IsSpace, |s|);
    hide While, StandsAt, Fields;
    assert StrTol(s, p).0 == 0;
  }

  /** All records behind such a line, to the end of the data. */
  lemma {:induction false} AllCut(s: string, p: nat, recs: seq<string>, ps: seq<Pair>)
    requires AreRecords(recs, ps) && forall q :: q in ps ==> Proper(q.keyword)
    requires StandsAt(s, p, "\n") && StandsAt(s, p + 1, Joined(recs)) && p + 1 + |Joined(recs)| == |s|
    ensures GetAll(s, p) == CutAll(ps)
    decreases |ps|
  {
    hide *;
    SameLength(recs, ps);
    if ps == [] {
      NoneJoined(recs);
      LoneNewline(s, p);
      CutNone();
    } else {
      OneOf(recs, ps, 0);
      JoinedFirst(recs);
      StandParts(s, p + 1, recs[0], Joined(recs[1..]));
      RecordCut(s, p, recs[0], ps[0].keyword, ps[0].value);
      TailRecords(recs, ps);
      AllCut(s, p + |recs[0]|, recs[1..], ps[1..]);
      AllStep(s, p, p + |recs[0]|, Pair(ps[0].keyword, Cut(ps[0].value)), CutAll(ps[1..]));
      CutFirst(ps);
    }
  }

  lemma NoneJoined(recs: seq<string>)
    requires recs == []
    ensures Joined(recs) == ""
  {
  }

  lemma CutNone()
    ensures CutAll([]) == []
  {
  }

  lemma CutFirst(ps: seq<Pair>)
    requires ps != []
    ensures CutAll(ps) == [Pair(ps[0].keyword, Cut(ps[0].value))] + CutAll(ps[1..])
  {
  }

  lemma TailRecords(recs: seq<string>, ps: seq<Pair>)
    requires AreRecords(recs, ps) && ps != []
    ensures |recs| == |ps| && AreRecords(recs[1..], ps[1..])
  {
    hide IsRecord;
  }

  /** One line before the records that does not start with a number costs every
      record behind it the last character of its value. */
  lemma JunkLine(junk: string, recs: seq<string>, ps: seq<Pair>)
    requires junk != "" && !IsSpace(junk[0]) && !IsDigit(junk[0]) && junk[0] != '-' && junk[0] != '+' && '\n' !in junk
    requires AreRecords(recs, ps) && forall q :: q in ps ==> Proper(q.keyword)
    ensures GetAll(junk + ("\n" + Joined(recs)), 0) == CutAll(ps)
  {
    hide *;
    var s := junk + ("\n" + Joined(recs));
    WholeStands(s);
    StandParts(s, 0, junk, "\n" + Joined(recs));
    StandParts(s, |junk|, "\n", Joined(recs));
    JunkSkipped(s, 0, junk);
    AllCut(s, |junk|, recs, ps);
    NextAfter(s, |junk|);
    SameFromBoth(s, |junk|);
  }

  lemma WholeStands(s: string)
    ensures StandsAt(s, 0, s)
  {
  }

  /** The next record starts behind the place of this one. */
  lemma NextAfter(s: string, p: nat)
    requires p < |s|
    ensures GetRec(s, p).Record? ==> GetRec(s, p).next > p
  {
    hide StrTol, While;
  }

  lemma SameFromBoth(s: string, q: nat)
    requires 0 < q < |s| && GetRec(s, 0) == GetRec(s, q) && (GetRec(s, q).Record? ==> GetRec(s, q).next > q)
    ensures GetAll(s, 0) == GetAll(s, q)
  {
    hide GetRec;
  }

  // ---- other spellings ----

  predicate AllDigits(ds: string) {
    forall i :: 0 <= i < |ds| ==> '0' <= ds[i] <= '9'
  }

  /** Blanks and the characters from tab to carriage return. */
  predicate AllSpaces(ws: string) {
    forall i :: 0 <= i < |ws| ==> ws[i] == ' ' || 9 <= ws[i] as int <= 13
  }

  lemma StandsAs(s: string, p: nat, part: string)
    requires StandsAt(s, p, part)
    ensures p + |part| <= |s| && s[p..p + |part|] == part && (part != [] ==> s[p] == part[0])
  {
    Stands(s, p, part);
  }

  /** White space before the digits, and anything but a digit behind. */
  lemma SpaceForms(s: string, p: nat, ws: string, ds: string)
    requires AllSpaces(ws) && ds != "" && AllDigits(ds)
    requires StandsAt(s, p, ws) && StandsAt(s, p + |ws|, ds)
    requires var e := p + |ws| + |ds|; e == |s| || s[e] < '0' || '9' < s[e]
    ensures p <= |s| && StrTol(s, p) == (Value(ds) as int, p + |ws| + |ds|)
  {
    hide *;
    var d := p + |ws|;
    StandsAs(s, p, ws);
    StandsAs(s, d, ds);
    FirstDigit(ds);
    SpacesEnd(s, p, d, ws);
    DigitsEnd(s, d, d + |ds|, ds);
    StrTolPlain(s, p, d, d + |ds|);
  }

  /** And a sign between them. */
  lemma SignForms(s: string, p: nat, ws: string, sign: char, ds: string)
    requires AllSpaces(ws) && (sign == '-' || sign == '+') && ds != "" && AllDigits(ds)
    requires StandsAt(s, p, ws) && StandsAt(s, p + |ws| + 1, ds) && p + |ws| < |s| && s[p + |ws|] == sign
    requires var e := p + |ws| + 1 + |ds|; e == |s| || s[e] < '0' || '9' < s[e]
    ensures p <= |s|
    ensures var v: int := Value(ds); StrTol(s, p) == (if sign == '-' then -v else v, p + |ws| + 1 + |ds|)
  {
    hide *;
    var q := p + |ws|;
    StandsAs(s, p, ws);
    StandsAs(s, q + 1, ds);
    FirstDigit(ds);
    SpacesEnd(s, p, q, ws);
    DigitsEnd(s, q + 1, q + 1 + |ds|, ds);
    StrTolSigned(s, p, q, q + 1 + |ds|, sign);
  }

  lemma FirstDigit(ds: string)
    requires ds != "" && AllDigits(ds)
    ensures |ds| > 0 && ds[0] != '-' && ds[0] != '+'
    ensures !IsSpace(ds[0]) && !IsSpace('-') && !IsSpace('+')
  {
  }

  lemma SpacesEnd(s: string, p: nat, q: nat, ws: string)
    requires p <= q < |s| && s[p..q] == ws && AllSpaces(ws)
    requires !IsSpace(s[q])
    ensures While(s, p, |s|, IsSpace) == q
  {
    forall i | p <= i < q ensures IsSpace(s[i]) {
      assert s[i] == ws[i - p];
    }
    WhileIs(s, p, |s|, IsSpace, q);
  }

  lemma DigitsEnd(s: string, d: nat, e: nat, ds: string)
    requires d <= e <= |s| && s[d..e] == ds && AllDigits(ds)
    requires e == |s| || s[e] < '0' || '9' < s[e]
    ensures While(s, d, |s|, IsDigit) == e && AllDigits(s[d..e])
  {
    forall i | d <= i < e ensures IsDigit(s[i]) {
      assert s[i] == ds[i - d];
    }
    WhileIs(s, d, |s|, IsDigit, e);
  }

  lemma StrTolPlain(s: string, p: nat, d: nat, e: nat)
    requires p <= d < e <= |s| && While(s, p, |s|, IsSpace) == d && While(s, d, |s|, IsDigit) == e
    requires s[d] != '-' && s[d] != '+' && AllDigits(s[d..e])
    ensures StrTol(s, p) == (Value(s[d..e]) as int, e)
  {
    hide While, Value;
  }

  lemma StrTolSigned(s: string, p: nat, q: nat, e: nat, sign: char)
    requires p <= q && q + 1 < e <= |s| && While(s, p, |s|, IsSpace) == q && While(s, q + 1, |s|, IsDigit) == e
    requires s[q] == sign && (sign == '-' || sign == '+') && AllDigits(s[q + 1..e])
    ensures var v: int := Value(s[q + 1..e]); StrTol(s, p) == (if sign == '-' then -v else v, e)
  {
    hide While, Value;
  }

  /** Any blanks and tabs between the number and the keyword. */
  lemma BlankForms(s: string, x: nat, blanks: string, keyword: string, value: string)
    requires Proper(keyword) && |keyword| > 0 && (forall i :: 0 <= i < |blanks| ==> blanks[i] == ' ' || blanks[i] == '\t')
    requires StandsAt(s, x, blanks) && StandsAt(s, x + |blanks|, keyword) && StandsAt(s, x + |blanks| + |keyword|, "=")
    requires StandsAt(s, x + |blanks| + |keyword| + 1, value) && StandsAt(s, x + |blanks| + |keyword| + 1 + |value|, "\n")
    ensures var e := x + |blanks| + |keyword| + |value| + 2;
      e <= |s| && Fields(s, x, e) == Record(keyword, value, e)
  {
    hide *;
    var y, z := x + |blanks|, x + |blanks| + |keyword|;
    var e := z + |value| + 2;
    Stands(s, z, "=");
    Stands(s, z + 1, value);
    Stands(s, e - 1, "\n");
    BlanksEnd(s, x, e, blanks, keyword);
    Stands(s, y, keyword);
    FieldsFrom(s, x, e, y, z);
  }

  lemma BlanksEnd(s: string, x: nat, e: nat, blanks: string, keyword: string)
    requires Proper(keyword) && (forall i :: 0 <= i < |blanks| ==> blanks[i] == ' ' || blanks[i] == '\t')
    requires StandsAt(s, x, blanks) && StandsAt(s, x + |blanks|, keyword) && StandsAt(s, x + |blanks| + |keyword|, "=")
    requires x + |blanks| + |keyword| < e <= |s|
    ensures var y := x + |blanks|;
      While(s, x, e, IsBlank) == y && While(s, y, e, NotEquals) == y + |keyword| && s[y] != '='
  {
    hide StandsAt, While;
    var y := x + |blanks|;
    Stands(s, x, blanks);
    Stands(s, y, keyword);
    Stands(s, y + |keyword|, "=");
    forall i | y <= i < y + |keyword| ensures s[i] != '=' {
      assert keyword[i - y] in keyword;
    }
    WhileIs(s, x, e, IsBlank, y);
    WhileIs(s, y, e, NotEquals, y + |keyword|);
  }
}
