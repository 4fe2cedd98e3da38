/**
 The bytes of cpio archives in numbers a reader of the format would look for:
 where members and their data start, what the special names and magic numbers
 are, and which other spellings of a header field are read alike.
 */
module CpioLayout {
  import opened Basics
  import opened Numerals
  import opened CpioFormat
  import opened BlockStream
  import opened CpioArchive

  /** Members of newc archives stand on multiples of 4, of binary archives on
      even offsets. */
  function Grain(f: Format): nat {
    if f.Newc? then 4 else if f.Bin? then 2 else 1
  }

  function HeaderLength(f: Format): nat {
    if f.Newc? then 110 else if f.Bin? then 26 else 76
  }

  ghost predicate Fill(z: seq<byte>, n: nat, f: Format) {
    |z| < Grain(f) && (n + |z|) % Grain(f) == 0 && forall i :: 0 <= i < |z| ==> z[i] == 0
  }

  lemma FillIs(n: nat, f: Format)
    ensures Fill(Zeros(PadTo(n, Padding(f))), n, f)
  {
    Multiple(n);
    hide PadTo;
  }

  lemma Multiple(n: nat)
    ensures PadTo(n, 1) == 0
    ensures PadTo(n, 2) < 2 && (n + PadTo(n, 2)) % 2 == 0
    ensures PadTo(n, 4) < 4 && (n + PadTo(n, 4)) % 4 == 0
  {
    Twos(n / 2, n % 2);
    Twos(n / 2 + 1, 0);
    Fours(n / 4, n % 4);
    Fours(n / 4 + 1, 0);
  }

  lemma Twos(q: nat, r: nat)
    requires r < 2
    ensures (2 * q + r) % 2 == r
  {
  }

  lemma Fours(q: nat, r: nat)
    requires r < 4
    ensures (4 * q + r) % 4 == r
  {
  }

  /** A member in one part: the header, the name and its end, zeros up to the
      next multiple, the data, and zeros up to the next multiple again. */
  lemma EntryLayout(f: Format, x: Member) returns (h: seq<byte>, stored: seq<byte>, y: seq<byte>, z: seq<byte>)
    requires Archivable(f, x) && !Split(f, |x.data|)
    ensures Entry(f, x) == h + stored + y + x.data + z
    ensures |h| == HeaderLength(f) && Fill(y, |h| + |stored|, f) && Fill(z, |x.data|, f)
    ensures if f == Newc(true) && |x.data| >= 0x7fff_fe00
            then stored == x.name + [0, 115, 105, 122, 101, 61] + Printed(|x.data|, true, 16) + [0] &&
                 h == Header(f, x.m.(size := 0x7fff_fe00), |stored|)
            else stored == x.name + [0] && h == Header(f, x.m, |stored|)
  {
    hide *;
    PlainFacts(f, x);
    var n := |x.data|;
    var m := x.m.(size := StoredSize(f, n));
    stored := StoredName(f, x.name, n);
    h := Header(f, m, |stored|);
    y, z := Zeros(PadTo(HeaderSize(f) + |stored|, Padding(f))), Zeros(PadTo(n, Padding(f)));
    FillIs(HeaderSize(f) + |stored|, f);
    FillIs(n, f);
    StoredIs(f, x);
    LimitsOfSize(f, x.m.(size := 0), |stored|, StoredSize(f, n));
    MagicFirst(f, m, |stored|);
    HeadParts(f, m, stored);
    EntryIs(f, x);
  }

  lemma EntryIs(f: Format, x: Member)
    requires x.m.size == |x.data| && !Split(f, |x.data|)
    ensures var n := |x.data|;
      Entry(f, x) == HeadBytes(f, x.m.(size := StoredSize(f, n)), StoredName(f, x.name, n)) + x.data + Zeros(PadTo(n, Padding(f)))
  {
    hide HeadBytes, StoredSize, StoredName, Zeros, PadTo, Padding;
  }

  lemma StoredIs(f: Format, x: Member)
    requires x.m.size == |x.data|
    ensures HeaderSize(f) == HeaderLength(f)
    ensures x.m.(size := 0).(size := StoredSize(f, |x.data|)) == x.m.(size := StoredSize(f, |x.data|))
    ensures if f == Newc(true) && |x.data| >= 0x7fff_fe00
            then StoredName(f, x.name, |x.data|) == x.name + [0, 115, 105, 122, 101, 61] + Printed(|x.data|, true, 16) + [0] &&
                 StoredSize(f, |x.data|) == 0x7fff_fe00
            else StoredName(f, x.name, |x.data|) == x.name + [0] && x.m.(size := StoredSize(f, |x.data|)) == x.m
  {
    hide Printed;
  }

  /** A header with its name ends on a multiple. */
  lemma HeadGrain(f: Format, m: Meta, stored: seq<byte>)
    requires WithinLimits(f, m, |stored|)
    ensures |HeadBytes(f, m, stored)| % Grain(f) == 0
  {
    hide WithinLimits, Header, PadTo, Padding, Zeros;
    MagicFirst(f, m, |stored|);
    HeadParts(f, m, stored);
    FillIs(HeaderSize(f) + |stored|, f);
  }

  lemma PlainGrain(f: Format, x: Member)
    requires Archivable(f, x) && !Split(f, |x.data|)
    ensures |Entry(f, x)| % Grain(f) == 0
  {
    hide Archivable, Entry, Split, Header;
    var h, stored, y, z := EntryLayout(f, x);
    Sums(|h| + |stored| + |y|, |x.data| + |z|, Grain(f));
  }

  lemma Sums(a: nat, b: nat, u: nat)
    requires u in {1, 2, 4} && a % u == 0 && b % u == 0
    ensures (a + b) % u == 0
  {
    Remainders(a, b, 0, 0, u);
  }

  /** A large file of the IRIX format: the zero byte after its first part is
      there when the fake size is odd, which has nothing to do with the length
      of that part.  The member has an even length exactly when the number of
      times 2 GB that its size holds is even. */
  lemma SplitGrain(f: Format, x: Member)
    requires Archivable(f, x) && Split(f, |x.data|)
    ensures |Entry(f, x)| % 2 == 0 <==> |x.data| / 0x8000_0000 % 2 == 0
  {
    hide *;
    Described(f, x);
    var n, stored := |x.data|, x.name + [0];
    PartLengths(x, n);
    SplitEntry(f, x, []);
    SplitLimits(f, x);
    HeadGrain(f, x.m.(size := KSize(n)), stored);
    HeadGrain(f, x.m.(size := n % K), stored);
    var a := HeadBytes(f, x.m.(size := KSize(n)), stored);
    var b := HeadBytes(f, x.m.(size := n % K), stored);
    var base := n / K * K;
    var last := x.data[base..] + Zeros(PadTo(n % K, 2));
    assert Entry(f, x) + [] == Entry(f, x) && last + [] == last;
    LastEven(n % K);
    KParity(n);
    assert |Entry(f, x)| == |a| + base + |Zeros(KSize(n) % 2)| + |b| + |last|;
    Parity(|a|, base, |Zeros(KSize(n) % 2)|, |b|, |last|);
  }

  lemma Parity(a: int, b: int, c: int, d: int, e: int)
    requires a % 2 == 0 && b % 2 == 0 && d % 2 == 0 && e % 2 == 0
    ensures (a + b + c + d + e) % 2 == c % 2
  {
  }

  lemma SplitLimits(f: Format, x: Member)
    requires Archivable(f, x) && Split(f, |x.data|)
    ensures var n := |x.data|;
      && WithinLimits(f, x.m.(size := KSize(n)), |x.name + [0]|) && WithinLimits(f, x.m.(size := n % K), |x.name + [0]|)
      && Grain(f) == 2
  {
    FakeSize(|x.data|);
    hide KSize, NoData, FileType, Trailer;
  }

  lemma LastEven(n: nat)
    ensures (n + |Zeros(PadTo(n, 2))|) % 2 == 0
  {
    Multiple(n);
  }

  lemma KParity(n: nat)
    requires K <= n < 0x8000_0000_0000_0000
    ensures n / K * K % 2 == 0 && (|Zeros(KSize(n) % 2)| % 2 == 0 <==> n / 0x8000_0000 % 2 == 0)
  {
    assert n / K * K == 2 * (n / K * 0x4000_0000);
  }

  /** Members that have an odd length. */
  function OddParts(f: Format, xs: seq<Member>): nat {
    if xs == [] then 0
    else
      var x := xs[|xs| - 1];
      OddParts(f, xs[..|xs| - 1]) + if Split(f, |x.data|) && |x.data| / 0x8000_0000 % 2 == 1 then 1 else 0
  }

  lemma OneGrain(f: Format, x: Member)
    requires Archivable(f, x)
    ensures x.m.size == |x.data| && (Split(f, |x.data|) ==> Grain(f) == 2)
    ensures |Entry(f, x)| % Grain(f) ==
            if Split(f, |x.data|) && |x.data| / 0x8000_0000 % 2 == 1 then 1 else 0
  {
    Described(f, x);
    hide Entry, WithinLimits;
    if Split(f, |x.data|) {
      SplitGrain(f, x);
    } else {
      PlainGrain(f, x);
    }
  }

  lemma Remainders(a: nat, b: nat, c: nat, d: nat, u: nat)
    requires u in {1, 2, 4} && a % u == c % u && b % u == d < u
    ensures (a + b) % u == (c + d) % u
  {
    if u == 2 {
      ByTwos(a, b, c, d);
    } else if u == 4 {
      ByFours(a, b, c, d);
    }
  }

  lemma ByTwos(a: nat, b: nat, c: nat, d: nat)
    requires a % 2 == c % 2 && b % 2 == d < 2
    ensures (a + b) % 2 == (c + d) % 2
  {
    SumTwos(a / 2, a % 2, b / 2, d);
    SumTwos(c / 2, c % 2, 0, d);
  }

  lemma SumTwos(p: nat, q: nat, r: nat, s: nat)
    requires q < 2 && s < 2
    ensures (2 * p + q + (2 * r + s)) % 2 == if q + s < 2 then q + s else q + s - 2
  {
    if q + s < 2 {
      Twos(p + r, q + s);
    } else {
      Twos(p + r + 1, q + s - 2);
    }
  }

  lemma ByFours(a: nat, b: nat, c: nat, d: nat)
    requires a % 4 == c % 4 && b % 4 == d < 4
    ensures (a + b) % 4 == (c + d) % 4
  {
    SumFours(a / 4, a % 4, b / 4, d);
    SumFours(c / 4, c % 4, 0, d);
  }

  lemma SumFours(p: nat, q: nat, r: nat, s: nat)
    requires q < 4 && s < 4
    ensures (4 * p + q + (4 * r + s)) % 4 == if q + s < 4 then q + s else q + s - 4
  {
    if q + s < 4 {
      Fours(p + r, q + s);
    } else {
      Fours(p + r + 1, q + s - 4);
    }
  }

  /** Behind any members the next header starts on a multiple of 4 in a newc
      archive; in a binary archive on an even offset exactly when an even
      number of members before it has an odd length. */
  lemma {:induction false} ArchiveGrain(f: Format, xs: seq<Member>)
    requires forall x :: x in xs ==> Archivable(f, x)
    ensures (forall x :: x in xs ==> x.m.size == |x.data|)
    ensures |Entries(f, xs)| % Grain(f) == OddParts(f, xs) % Grain(f)
  {
    hide Entry, Archivable, Split, Grain;
    forall x | x in xs ensures x.m.size == |x.data| {
      OneGrain(f, x);
    }
    GrainIs(f);
    if xs != [] {
      var n := |xs| - 1;
      ArchiveGrain(f, xs[..n]);
      OneGrain(f, xs[n]);
      Remainders(|Entries(f, xs[..n])|, |Entry(f, xs[n])|, OddParts(f, xs[..n]),
                 if Split(f, |xs[n].data|) && |xs[n].data| / 0x8000_0000 % 2 == 1 then 1 else 0, Grain(f));
    }
  }

  lemma GrainIs(f: Format)
    ensures Grain(f) in {1, 2, 4}
  {
  }

  /** The data of a member behind others: on a multiple whenever its header is. */
  lemma DataGrain(f: Format, xs: seq<Member>, x: Member) returns (h: seq<byte>, stored: seq<byte>, y: seq<byte>, z: seq<byte>)
    requires (forall x :: x in xs ==> Archivable(f, x)) && OddParts(f, xs) % Grain(f) == 0
    requires Archivable(f, x) && !Split(f, |x.data|)
    ensures forall x :: x in xs ==> x.m.size == |x.data|
    ensures Entries(f, xs) + Entry(f, x) == Entries(f, xs) + h + stored + y + x.data + z
    ensures |Entries(f, xs) + h + stored + y| % Grain(f) == 0 && |Entries(f, xs) + Entry(f, x)| % Grain(f) == 0
  {
    hide *;
    ArchiveGrain(f, xs);
    GrainIs(f);
    OneGrain(f, x);
    h, stored, y, z := EntryLayout(f, x);
    var e := Entries(f, xs);
    Filled(y, |h| + |stored|, f);
    Filled(z, |x.data|, f);
    Sums(|e|, |h| + |stored| + |y|, Grain(f));
    Sums(|e| + |h| + |stored| + |y|, |x.data| + |z|, Grain(f));
    Chained(e, h, stored, y, x.data, z);
  }

  lemma Filled(z: seq<byte>, n: nat, f: Format)
    requires Fill(z, n, f)
    ensures (n + |z|) % Grain(f) == 0
  {
  }

  lemma Chained<T>(e: seq<T>, a: seq<T>, b: seq<T>, c: seq<T>, d: seq<T>, g: seq<T>)
    ensures e + (a + b + c + d + g) == e + a + b + c + d + g
  {
  }

  // ---- names, magic numbers and sizes ----

  /** A header with the magic number 070702 is read like one with 070701. */
  lemma CrcHeader(f: Format, s: seq<byte>)
    requires f.Newc?
    ensures ReadRaw(f, [48, 55, 48, 55, 48, 50] + s) == ReadRaw(f, [48, 55, 48, 55, 48, 49] + s)
  {
    hide *;
    SumOfWidths(f);
    var a, b := [48, 55, 48, 55, 48, 50] + s, [48, 55, 48, 55, 48, 49] + s;
    assert a[..6] == [48, 55, 48, 55, 48, 50] && b[..6] == [48, 55, 48, 55, 48, 49] && a[6..] == s == b[6..];
    RawBehind(f, a);
    RawBehind(f, b);
  }

  /** What readhdr makes of the bytes behind a magic number. */
  ghost function Behind(f: Format, s: seq<byte>): Option<Raw>
    requires f.Newc?
  {
    SumOfWidths(f);
    if |s| < 104 then None
    else
      var h := HeadOf(f, GetAll(Kinds(f), s));
      if h.m.nlink <= 0 || h.namesize <= 0 || h.namesize >= 65535 || |s| < 104 + h.namesize then None
      else
        var stored, pad := s[104..104 + h.namesize], PadTo(110 + h.namesize, 4);
        if stored[h.namesize - 1] != 0 || |s| < 104 + h.namesize + pad then None
        else Some(Raw(h.m, stored, s[104 + h.namesize + pad..]))
  }

  lemma RawBehind(f: Format, s: seq<byte>)
    requires f.Newc? && |s| >= 6 && s[..6] in {[48, 55, 48, 55, 48, 49], [48, 55, 48, 55, 48, 50]}
    ensures ReadRaw(f, s) == Behind(f, s[6..])
  {
    SumOfWidths(f);
    hide HeadOf, GetAll, PadTo, Kinds, TotalWidth;
    assert forall i :: 110 <= i <= |s| ==> s[i..] == s[6..][i - 6..];
    assert forall i :: 110 <= i <= |s| ==> s[110..i] == s[6..][104..i - 6];
  }

  /** Directories, devices, pipes and special files have no data; regular files
      and symbolic links have, and so has what is none of these. */
  lemma FileKinds(kind: nat, perm: nat)
    requires kind < 16 && perm < 4096
    ensures NoData(4096 * kind + perm) <==> kind == 1 || kind == 2 || kind == 4 || kind == 5 || kind == 6 || kind == 9
    ensures !NoData(0x8000 + perm) && !NoData(0xA000 + perm) && NoData(0x4000 + perm)
  {
  }

  /** The trailer's name. */
  lemma TrailerName()
    ensures |Trailer()| == |"TRAILER!!!"| == 10
    ensures forall i :: 0 <= i < 10 ==> Trailer()[i] == "TRAILER!!!"[i] as int
  {
  }

  // ---- digits ----

  /** Digits are written 0-9 and a-f; capitals are read alike. */
  lemma DigitCharacters(d: nat)
    requires d < 16
    ensures DigitChar(d) == "0123456789abcdef"[d] as int
    ensures DigitValue("0123456789ABCDEF"[d] as int, true) == d == DigitValue("0123456789abcdef"[d] as int, true)
    ensures d < 8 ==> DigitValue("01234567"[d] as int, false) == d
  {
  }

  function Blanks(n: nat): seq<byte> {
    seq(n, _ => 32)
  }

  lemma {:induction false} BlanksLead(n: nat, s: seq<byte>)
    requires s == [] || s[0] != 32
    ensures (Blanks(n) + s)[Leading(Blanks(n) + s)..] == s
  {
    if n == 0 {
      assert Blanks(0) + s == s;
    } else {
      BlanksLead(n - 1, s);
      assert (Blanks(n) + s)[1..] == Blanks(n - 1) + s;
    }
  }

  lemma {:induction false} NumberStops(s: seq<byte>, c: byte, rest: seq<byte>, hex: bool, val: int)
    requires Stops(c) && forall i :: 0 <= i < |s| ==> !Stops(s[i])
    ensures Number(s + [c] + rest, hex, val) == Number(s, hex, val)
  {
    if s == [] {
      assert s + [c] + rest == [c] + rest;
    } else {
      assert (s + [c] + rest)[1..] == s[1..] + [c] + rest;
      NumberStops(s[1..], c, rest, hex, val * Base(hex) + DigitValue(s[0], hex));
    }
  }

  /** Blanks before the digits are passed over, and a blank or NUL ends them,
      whatever follows. */
  lemma FieldForms(n: nat, s: seq<byte>, c: byte, rest: seq<byte>, hex: bool)
    requires (c == 0 || c == 32) && forall i :: 0 <= i < |s| ==> s[i] != 0 && s[i] != 32
    ensures Field(Blanks(n) + s, hex) == Number(s, hex, 0)
    ensures s != [] ==> Field(Blanks(n) + (s + [c] + rest), hex) == Number(s, hex, 0)
  {
    hide Number, Leading;
    BlanksLead(n, s);
    if s != [] {
      BlanksLead(n, s + [c] + rest);
      NumberStops(s, c, rest, hex, 0);
    }
  }

  // ---- byte orders ----

  /** 0x0102 and 0x01020304 in the byte orders of the binary headers: the old
      middle order has the high half first, each half low byte first. */
  lemma ByteOrders()
    ensures Put16(0x0102, Big) == [1, 2] && Put16(0x0102, Little) == [2, 1]
    ensures Put32(0x01020304, Big) == [1, 2, 3, 4] && Put32(0x01020304, Little) == [4, 3, 2, 1]
    ensures Put32(0x01020304, Middle) == [2, 1, 4, 3]
  {
  }
}
