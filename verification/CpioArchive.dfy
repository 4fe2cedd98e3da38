/**
 Whole cpio archives as byte sequences: what addfile writes for a member, and
 what readhdr and the data loops make of a stream.
 */
module CpioArchive {
  import opened Basics
  import opened Numerals
  import opened CpioFormat
  import opened BlockStream

  const MAG_SCO: nat := 0x7ffffe00
  const K: nat := 0x8000_0000

  datatype Member = Member(m: Meta, name: seq<byte>, data: seq<byte>)

  function Trailer(): seq<byte> {
    [84, 82, 65, 73, 76, 69, 82, 33, 33, 33]
  }

  function SizeTag(): seq<byte> {
    [0, 115, 105, 122, 101, 61]
  }

  /** Padding that makes a length a multiple. */
  function PadTo(n: nat, pad: nat): nat
    requires pad > 0
  {
    if n % pad == 0 then 0 else pad - n % pad
  }

  // ---- writing ----

  /** The name as it is stored, with its NUL; for a large file in the
      UnixWare format also the size. */
  function StoredName(f: Format, name: seq<byte>, size: nat): seq<byte> {
    if f == Newc(true) && size >= MAG_SCO then name + SizeTag() + Printed(size, true, 16) + [0]
    else name + [0]
  }

  function StoredSize(f: Format, size: nat): nat {
    if f == Newc(true) && size >= MAG_SCO then MAG_SCO else size
  }

  /** A header, a stored name, and the padding behind them. */
  function HeadBytes(f: Format, m: Meta, stored: seq<byte>): seq<byte> {
    var b := Header(f, m, |stored|) + stored;
    b + Zeros(PadTo(|b|, Padding(f)))
  }

  predicate Split(f: Format, size: nat) {
    f.Bin? && f.sgi && size >= K
  }

  /** The fake size of the first header of a large file. */
  function KSize(size: nat): int {
    0x1_0000_0000 - size / K
  }

  /** All that addfile writes for a member. */
  function Entry(f: Format, x: Member): seq<byte>
    requires x.m.size == |x.data|
  {
    var n := |x.data|;
    if Split(f, n) then
      HeadBytes(f, x.m.(size := KSize(n)), x.name + [0]) + x.data[..n / K * K] + Zeros(KSize(n) % 2)
      + HeadBytes(f, x.m.(size := n % K), x.name + [0]) + x.data[n / K * K..] + Zeros(PadTo(n % K, 2))
    else
      HeadBytes(f, x.m.(size := StoredSize(f, n)), StoredName(f, x.name, n)) + x.data + Zeros(PadTo(n, Padding(f)))
  }

  // ---- reading ----

  /** A header with the name that follows it, and the rest of the stream. */
  datatype Raw = Raw(m: Meta, stored: seq<byte>, rest: seq<byte>)

  /** readhdr up to the name; None is a corrupt or truncated archive. */
  function ReadRaw(f: Format, s: seq<byte>): Option<Raw> {
    SumOfWidths(f);
    var g, hsz := |Magic(f)|, HeaderSize(f);
    if |s| < hsz || (s[..g] != Magic(f) && !(f.Newc? && s[..g] == MagicCrc())) then None
    else
      var h := HeadOf(f, GetAll(Kinds(f), s[g..]));
      if h.m.nlink <= 0 || h.namesize <= 0 || h.namesize >= SANELIMIT || |s| < hsz + h.namesize then None
      else
        var stored, pad := s[hsz..hsz + h.namesize], PadTo(hsz + h.namesize, Padding(f));
        if stored[h.namesize - 1] != 0 || |s| < hsz + h.namesize + pad then None
        else Some(Raw(h.m, stored, s[hsz + h.namesize + pad..]))
  }

  function MagicCrc(): seq<byte> {
    [48, 55, 48, 55, 48, 50]
  }

  /** The characters before the first NUL. */
  function CString(s: seq<byte>): seq<byte> {
    if s == [] || s[0] == 0 then [] else [s[0]] + CString(s[1..])
  }

  predicate HasTag(f: Format, stored: seq<byte>) {
    f == Newc(true) && |stored| >= 24 && stored[|stored| - 23..|stored| - 17] == SizeTag()
  }

  /** The size of a file by its header and stored name. */
  function SizeOf(f: Format, r: Raw): int {
    if HasTag(f, r.stored) then Field(r.stored[|r.stored| - 17..|r.stored| - 1], true) else r.m.size
  }

  function FileType(mode: int): int {
    mode / 4096 % 16
  }

  /** Directories, devices, pipes and the like have no data, whatever their
      header says. */
  predicate NoData(mode: int) {
    FileType(mode) in {4, 2, 6, 1, 5, 9}
  }

  /** The header of the first part of a large file. */
  predicate IsSplit(f: Format, r: Raw) {
    f.Bin? && f.sgi && FileType(r.m.mode) == 8 && r.m.size / K % 2 == 1
  }

  datatype Read<T> = Read(value: T, rest: seq<byte>)

  /** n bytes and the padding after them. */
  function Padded(s: seq<byte>, n: int, pad: nat): Option<Read<seq<byte>>>
    requires pad > 0
  {
    if n < 0 || |s| < n + PadTo(n, pad) then None else Some(Read(s[..n], s[n + PadTo(n, pad)..]))
  }

  /** One member, header and data. */
  function ReadMember(f: Format, s: seq<byte>): Option<Read<Member>> {
    var h := ReadRaw(f, s);
    if h.None? then None
    else
      var r, size := h.value, SizeOf(f, h.value);
      var name := CString(r.stored);
      if name == Trailer() || NoData(r.m.mode) then Some(Read(Member(r.m.(size := size), name, []), r.rest))
      else if IsSplit(f, r) then ReadSplit(f, r, name)
      else
        var d := Padded(r.rest, size, Padding(f));
        if d.None? then None else Some(Read(Member(r.m.(size := size), name, d.value.value), d.value.rest))
  }

  /** A file in two parts: the fake size tells the length of the first, the
      second has a header of its own. */
  function ReadSplit(f: Format, r: Raw, name: seq<byte>): Option<Read<Member>>
    requires f.Bin?
  {
    var base, skip := (0x1_0000_0000 - r.m.size) * K, if r.m.size % 2 == 0 then 0 else 1;
    if base < 0 || |r.rest| < base + skip then None
    else
      var second := ReadRaw(f, r.rest[base + skip..]);
      if second.None? then None
      else
        var krest := if IsSplit(f, second.value) then 0 else second.value.m.size;
        var d := Padded(second.value.rest, krest, 2);
        if d.None? then None
        else Some(Read(Member(r.m.(size := krest + base), name, r.rest[..base] + d.value.value), d.value.rest))
  }

  lemma ReadRawShortens(f: Format, s: seq<byte>)
    ensures ReadRaw(f, s).Some? ==> |ReadRaw(f, s).value.rest| < |s|
  {
  }

  lemma ReadMemberShortens(f: Format, s: seq<byte>)
    ensures ReadMember(f, s).Some? ==> |ReadMember(f, s).value.rest| < |s|
  {
    ReadRawShortens(f, s);
    hide ReadRaw;
    var h := ReadRaw(f, s);
    if h.Some? && IsSplit(f, h.value) {
      ReadSplitShortens(f, h.value, CString(h.value.stored));
      hide ReadSplit;
    }
  }

  lemma ReadSplitShortens(f: Format, r: Raw, name: seq<byte>)
    requires f.Bin?
    ensures var t := ReadSplit(f, r, name); t.Some? ==> |t.value.rest| <= |r.rest|
  {
    hide ReadRaw, IsSplit, PadTo;
    var base, skip := (0x1_0000_0000 - r.m.size) * K, if r.m.size % 2 == 0 then 0 else 1;
    if 0 <= base && base + skip <= |r.rest| {
      ReadRawShortens(f, r.rest[base + skip..]);
    }
  }

  /** The read loop: members up to the trailer. */
  function ReadArchive(f: Format, s: seq<byte>): Option<Read<seq<Member>>>
    decreases |s|
  {
    var x := ReadMember(f, s);
    if x.None? then None
    else if x.value.value.name == Trailer() then Some(Read([], x.value.rest))
    else
      ReadMemberShortens(f, s);
      var more := ReadArchive(f, x.value.rest);
      if more.None? then None else Some(Read([x.value.value] + more.value.value, more.value.rest))
  }

  // ---- reading back what was written ----

  /** fr may read what fw wrote: the same format, extensions enabled. */
  predicate Reads(fr: Format, fw: Format) {
    match fw
    case Odc => fr == Odc
    case Newc(sco) => fr.Newc? && (sco ==> fr.sco)
    case Bin(be, sgi) => fr.Bin? && fr.be == be && (sgi ==> fr.sgi)
  }

  /** The largest size a format can tell, and one more. */
  function SizeLimit(f: Format): nat {
    match f
    case Odc => OLONG
    case Newc(sco) => if sco then 0x8000_0000_0000_0000 else ECUT
    case Bin(_, sgi) => if sgi then 0x4000_0000_8000_0000 else K
  }

  /** What can be archived: numbers within the limits of the format, a name
      without NUL that is not the trailer, data as long as the size says. */
  ghost predicate Archivable(f: Format, x: Member) {
    && WithinLimits(f, x.m.(size := 0), |StoredName(f, x.name, |x.data|)|)
    && 0 !in x.name && x.name != Trailer()
    && x.m.size == |x.data| < SizeLimit(f)
    && (NoData(x.m.mode) ==> x.data == [])
    && (f == Newc(true) && |x.data| >= MAG_SCO ==> x.name != [])
    && (Split(f, |x.data|) ==> FileType(x.m.mode) == 8)
  }

  /** What ReadRaw looks for. */
  lemma RawFrom(f: Format, s: seq<byte>, m: Meta, n: nat)
    requires var g, hsz := |Magic(f)|, HeaderSize(f);
      hsz == g + TotalWidth(Kinds(f)) && |s| >= hsz + n + PadTo(hsz + n, Padding(f)) && s[..g] == Magic(f)
      && HeadOf(f, GetAll(Kinds(f), s[g..])) == Head(m, n)
    requires m.nlink > 0 && 0 < n < SANELIMIT && s[HeaderSize(f) + n - 1] == 0
    ensures var hsz := HeaderSize(f);
      ReadRaw(f, s) == Some(Raw(m, s[hsz..hsz + n], s[hsz + n + PadTo(hsz + n, Padding(f))..]))
  {
    hide PadTo, Kinds, TotalWidth, GetAll, HeadOf, Magic, HeaderSize, Padding, MagicCrc;
  }

  /** A header and name that fit are read back, and the stream then stands
      right behind the padding. */
  lemma HeadBack(fr: Format, fw: Format, m: Meta, stored: seq<byte>, rest: seq<byte>)
    requires Reads(fr, fw) && WithinLimits(fw, m, |stored|) && |stored| > 0 && stored[|stored| - 1] == 0
    ensures ReadRaw(fr, HeadBytes(fw, m, stored) + rest) == Some(Raw(m, stored, rest))
  {
    hide *;
    var h, n := Header(fw, m, |stored|), HeaderSize(fw) + |stored|;
    SameShape(fr, fw);
    Bounded(fw, m, |stored|);
    HeaderRead(fw, m, |stored|, stored + Zeros(PadTo(n, Padding(fw))) + rest);
    HeadParts(fw, m, stored);
    FourParts(h, stored, Zeros(PadTo(n, Padding(fw))), rest);
    RawFrom(fr, HeadBytes(fw, m, stored) + rest, m, |stored|);
  }

  lemma HeadParts(f: Format, m: Meta, stored: seq<byte>)
    requires |Header(f, m, |stored|)| == HeaderSize(f)
    ensures var n := HeaderSize(f) + |stored|;
      |Zeros(PadTo(n, Padding(f)))| == PadTo(n, Padding(f)) &&
      HeadBytes(f, m, stored) == Header(f, m, |stored|) + stored + Zeros(PadTo(n, Padding(f)))
  {
    hide Header, Padding, PadTo;
  }

  lemma Bounded(f: Format, m: Meta, namesize: nat)
    requires WithinLimits(f, m, namesize)
    ensures m.nlink > 0 && 0 < namesize < SANELIMIT
  {
  }

  lemma SameShape(fr: Format, fw: Format)
    requires Reads(fr, fw)
    ensures Magic(fr) == Magic(fw) && Kinds(fr) == Kinds(fw) && HeaderSize(fr) == HeaderSize(fw) && Padding(fr) == Padding(fw)
    ensures forall v :: |v| == |Kinds(fr)| ==> HeadOf(fr, v) == HeadOf(fw, v)
  {
  }

  lemma FourParts(a: seq<byte>, b: seq<byte>, c: seq<byte>, d: seq<byte>)
    ensures var s := a + b + c + d;
      && s == a + (b + c + d) && |s| == |a| + |b| + |c| + |d| && s[|a|..|a| + |b|] == b && s[|a| + |b| + |c|..] == d
      && (b != [] ==> s[|a| + |b| - 1] == b[|b| - 1]) && forall n :: 0 <= n <= |a| ==> s[..n] == a[..n]
  {
  }

  lemma {:induction false} CStringEnds(name: seq<byte>, rest: seq<byte>)
    requires 0 !in name
    ensures CString(name + [0] + rest) == name
  {
    if name == [] {
      assert name + [0] + rest == [0] + rest;
    } else {
      assert (name + [0] + rest)[1..] == name[1..] + [0] + rest;
      CStringEnds(name[1..], rest);
    }
  }

  /** No name without NUL is taken for one with a size tag. */
  lemma NotTagged(f: Format, name: seq<byte>)
    requires 0 !in name
    ensures !HasTag(f, name + [0])
  {
    var s := name + [0];
    if |s| >= 24 {
      assert s[|s| - 23..|s| - 17][0] == name[|s| - 23];
    }
  }

  /** The size tag is seen exactly behind a name that is not empty, and then
      gives every size back. */
  lemma Tagged(name: seq<byte>, size: nat)
    requires size < 0x8000_0000_0000_0000
    ensures var stored := name + SizeTag() + Printed(size, true, 16) + [0];
      && (HasTag(Newc(true), stored) <==> name != [])
      && stored[|stored| - 1] == 0 && |stored| == |name| + 23 && Field(stored[|stored| - 17..|stored| - 1], true) == size
      && (0 !in name ==> CString(stored) == name)
  {
    SixteenDigits();
    hide Pow, Field, Printed, CString;
    FieldRead(size, true, 16);
    var t, d := SizeTag(), Printed(size, true, 16);
    var stored := name + t + d + [0];
    assert name != [] ==> stored[|stored| - 23..|stored| - 17] == t;
    assert stored[|stored| - 17..|stored| - 1] == d;
    if 0 !in name {
      CStringEnds(name, t[1..] + d + [0]);
      assert name + [0] + (t[1..] + d + [0]) == stored;
    }
  }

  lemma SixteenDigits()
    ensures Pow(16, 16) == LONG
  {
    Widths();
    assert Pow(16, 9) == 0x10_0000_0000 && Pow(16, 10) == 0x100_0000_0000 && Pow(16, 11) == 0x1000_0000_0000;
    assert Pow(16, 12) == 0x1_0000_0000_0000 && Pow(16, 13) == 0x10_0000_0000_0000;
    assert Pow(16, 14) == 0x100_0000_0000_0000 && Pow(16, 15) == 0x1000_0000_0000_0000;
  }

  /** What a reader finds in the stored name. */
  lemma NameBack(fr: Format, fw: Format, name: seq<byte>, size: nat)
    requires Reads(fr, fw) && 0 !in name && size < SizeLimit(fw)
    requires fw == Newc(true) && size >= MAG_SCO ==> name != []
    ensures var stored := StoredName(fw, name, size);
      stored != [] && stored[|stored| - 1] == 0 && CString(stored) == name
      && forall r: Raw :: r.m.size == StoredSize(fw, size) && r.stored == stored ==> SizeOf(fr, r) == size
  {
    CStringEnds(name, []);
    assert name + [0] + [] == name + [0];
    NotTagged(fr, name);
    if fw == Newc(true) && size >= MAG_SCO {
      Tagged(name, size);
    }
  }

  lemma LimitsOfSize(f: Format, m: Meta, namesize: nat, size: nat)
    requires WithinLimits(f, m, namesize) && size < if f.Odc? then OLONG else ECUT
    ensures WithinLimits(f, m.(size := size), namesize)
  {
  }

  lemma PaddedBack(data: seq<byte>, pad: nat, rest: seq<byte>)
    requires pad > 0
    ensures Padded(data + Zeros(PadTo(|data|, pad)) + rest, |data|, pad) == Some(Read(data, rest))
  {
    hide Zeros;
    var z := Zeros(PadTo(|data|, pad));
    var s := data + z + rest;
    assert s[..|data|] == data && s[|data| + |z|..] == rest;
  }

  /** A member that is archivable is read back exactly, and the reader then
      stands where the writer stood. */
  lemma EntryBack(fr: Format, fw: Format, x: Member, rest: seq<byte>)
    requires Reads(fr, fw) && Archivable(fw, x)
    ensures ReadMember(fr, Entry(fw, x) + rest) == Some(Read(x, rest))
  {
    if Split(fw, |x.data|) {
      SplitBack(fr, fw, x, rest);
    } else {
      PlainBack(fr, fw, x, rest);
    }
  }

  /** What ReadMember does for a file in one part. */
  lemma MemberFrom(f: Format, s: seq<byte>, r: Raw, name: seq<byte>, size: int, data: seq<byte>, rest: seq<byte>)
    requires ReadRaw(f, s) == Some(r) && CString(r.stored) == name != Trailer() && SizeOf(f, r) == size
    requires !IsSplit(f, r) && Padding(f) > 0 && Padded(r.rest, size, Padding(f)) == Some(Read(data, rest))
    requires NoData(r.m.mode) ==> data == [] && rest == r.rest
    ensures ReadMember(f, s) == Some(Read(Member(r.m.(size := size), name, data), rest))
  {
    hide ReadRaw, CString, SizeOf, IsSplit, Padding, Padded, NoData, Trailer;
  }

  lemma PlainEntry(f: Format, x: Member, rest: seq<byte>)
    requires x.m.size == |x.data| && !Split(f, |x.data|)
    ensures var n := |x.data|; var tail := x.data + Zeros(PadTo(n, Padding(f))) + rest;
      && Entry(f, x) + rest == HeadBytes(f, x.m.(size := StoredSize(f, n)), StoredName(f, x.name, n)) + tail
      && (n == 0 ==> tail == rest)
  {
    hide HeadBytes, StoredSize, StoredName;
    var tail := x.data + Zeros(PadTo(|x.data|, Padding(f))) + rest;
    assert |x.data| == 0 ==> tail == rest;
  }

  lemma PlainBack(fr: Format, fw: Format, x: Member, rest: seq<byte>)
    requires Reads(fr, fw) && Archivable(fw, x) && !Split(fw, |x.data|)
    ensures ReadMember(fr, Entry(fw, x) + rest) == Some(Read(x, rest))
  {
    hide *;
    PlainFacts(fw, x);
    var n := |x.data|;
    var stored, m := StoredName(fw, x.name, n), x.m.(size := StoredSize(fw, n));
    var tail := x.data + Zeros(PadTo(n, Padding(fw))) + rest;
    SmallNotSplit(fr, fw, m, stored, tail);
    NameBack(fr, fw, x.name, n);
    LimitsOfSize(fw, x.m.(size := 0), |stored|, StoredSize(fw, n));
    HeadBack(fr, fw, m, stored, tail);
    PaddedBack(x.data, Padding(fw), rest);
    SameShape(fr, fw);
    PlainEntry(fw, x, rest);
    MemberFrom(fr, Entry(fw, x) + rest, Raw(m, stored, tail), x.name, n, x.data, rest);
  }

  /** What is known of a file stored in one part. */
  lemma PlainFacts(f: Format, x: Member)
    requires Archivable(f, x) && !Split(f, |x.data|)
    ensures var n := |x.data|; var size := StoredSize(f, n);
      && x.name != Trailer() && 0 !in x.name && x.m.size == n < SizeLimit(f) && (NoData(x.m.mode) ==> x.data == [])
      && (f == Newc(true) && n >= MAG_SCO ==> x.name != []) && (f.Bin? ==> size < K)
      && size < (if f.Odc? then OLONG else ECUT) && WithinLimits(f, x.m.(size := 0), |StoredName(f, x.name, n)|)
  {
    hide WithinLimits, StoredName, Trailer, NoData;
  }

  lemma SmallNotSplit(fr: Format, fw: Format, m: Meta, stored: seq<byte>, rest: seq<byte>)
    requires Reads(fr, fw) && 0 <= m.size && (fw.Bin? ==> m.size < K)
    ensures !IsSplit(fr, Raw(m, stored, rest))
  {
  }

  /** The fake size of a large file is told from a real one, and the size is
      recovered, exactly below 2^62 + 2^31. */
  lemma FakeSize(size: nat)
    requires K <= size < 0x8000_0000_0000_0000
    ensures 0 <= KSize(size) < 0x1_0000_0000
    ensures KSize(size) / K % 2 == 1 <==> size < 0x4000_0000_8000_0000
    ensures (0x1_0000_0000 - KSize(size)) * K + size % K == size
  {
  }

  /** Both headers of a large file, each in front of whatever follows. */
  lemma SplitHeads(fr: Format, fw: Format, x: Member, tail: seq<byte>, last: seq<byte>)
    requires Reads(fr, fw) && Archivable(fw, x) && Split(fw, |x.data|)
    ensures var n, stored := |x.data|, x.name + [0];
      var m1, m2 := x.m.(size := KSize(n)), x.m.(size := n % K);
      && ReadRaw(fr, HeadBytes(fw, m1, stored) + tail) == Some(Raw(m1, stored, tail))
      && ReadRaw(fr, HeadBytes(fw, m2, stored) + last) == Some(Raw(m2, stored, last))
      && IsSplit(fr, Raw(m1, stored, tail)) && !IsSplit(fr, Raw(m2, stored, last)) && !NoData(x.m.mode)
      && CString(stored) == x.name && fr.Bin?
  {
    var n, stored := |x.data|, x.name + [0];
    var m1, m2 := x.m.(size := KSize(n)), x.m.(size := n % K);
    FakeSize(n);
    SmallNotSplit(fr, fw, m2, stored, last);
    assert IsSplit(fr, Raw(m1, stored, tail));
    hide ReadRaw, HeadBytes, CString, WithinLimits, IsSplit, KSize;
    NameBack(fr, fw, x.name, n);
    LimitsOfSize(fw, x.m.(size := 0), |stored|, KSize(n));
    LimitsOfSize(fw, x.m.(size := 0), |stored|, n % K);
    HeadBack(fr, fw, m1, stored, tail);
    HeadBack(fr, fw, m2, stored, last);
  }

  lemma SplitBack(fr: Format, fw: Format, x: Member, rest: seq<byte>)
    requires Reads(fr, fw) && Archivable(fw, x) && Split(fw, |x.data|)
    ensures ReadMember(fr, Entry(fw, x) + rest) == Some(Read(x, rest))
  {
    hide *;
    Described(fw, x);
    var n, stored := |x.data|, x.name + [0];
    PartLengths(x, n);
    var base := n / K * K;
    var d1, d2, z1, z2 := x.data[..base], x.data[base..], Zeros(KSize(n) % 2), Zeros(PadTo(n % K, 2));
    var last := d2 + z2 + rest;
    var middle := HeadBytes(fw, x.m.(size := n % K), stored) + last;
    var tail := d1 + z1 + middle;
    var r, second := Raw(x.m.(size := KSize(n)), stored, tail), Raw(x.m.(size := n % K), stored, last);
    SplitHeads(fr, fw, x, tail, last);
    PaddedBack(d2, 2, rest);
    SplitParts(d1, z1, middle);
    SplitRead(fr, r, x.name, d1, middle, second, d2, rest);
    SplitEntry(fw, x, rest);
    SplitJoined(fr, fw, x, rest, base, d1 + d2, r);
  }

  lemma SplitJoined(fr: Format, fw: Format, x: Member, rest: seq<byte>, base: nat, data: seq<byte>, r: Raw)
    requires ReadRaw(fr, HeadBytes(fw, r.m, r.stored) + r.rest) == Some(r) && CString(r.stored) == x.name != Trailer()
    requires x.m.size == |x.data| && Entry(fw, x) + rest == HeadBytes(fw, r.m, r.stored) + r.rest && r.m == x.m.(size := r.m.size)
    requires !NoData(x.m.mode) && fr.Bin? && IsSplit(fr, r)
    requires ReadSplit(fr, r, x.name) == Some(Read(Member(r.m.(size := |x.data|), x.name, data), rest)) && data == x.data
    ensures ReadMember(fr, Entry(fw, x) + rest) == Some(Read(x, rest))
  {
    hide *;
    SplitMember(fr, Entry(fw, x) + rest, r, x.name, Some(Read(x, rest)));
  }

  lemma PartLengths(x: Member, n: nat)
    requires |x.data| == n && K <= n < 0x8000_0000_0000_0000
    ensures var base := n / K * K;
      && base <= n && |Zeros(KSize(n) % 2)| == (if KSize(n) % 2 == 0 then 0 else 1)
      && base == (0x1_0000_0000 - KSize(n)) * K && n - base == n % K
      && |x.data[..base]| == base && |x.data[base..]| == n % K && base + n % K == n
  {
    FakeSize(n);
  }

  lemma Described(f: Format, x: Member)
    requires Archivable(f, x)
    ensures x.name != Trailer() && x.m.size == |x.data|
    ensures K == 0x8000_0000 && (Split(f, |x.data|) ==> K <= |x.data| < 0x8000_0000_0000_0000)
  {
  }

  lemma SplitMember(f: Format, s: seq<byte>, r: Raw, name: seq<byte>, x: Option<Read<Member>>)
    requires ReadRaw(f, s) == Some(r) && CString(r.stored) == name != Trailer() && !NoData(r.m.mode)
    requires f.Bin? && IsSplit(f, r) && ReadSplit(f, r, name) == x
    ensures ReadMember(f, s) == x
  {
    hide ReadRaw, CString, SizeOf, IsSplit, ReadSplit, NoData, Trailer;
  }

  lemma SplitEntry(f: Format, x: Member, rest: seq<byte>)
    requires x.m.size == |x.data| && Split(f, |x.data|)
    ensures var n, stored := |x.data|, x.name + [0];
      var base := n / K * K;
      base <= n && x.data[..base] + x.data[base..] == x.data &&
      var last := x.data[base..] + Zeros(PadTo(n % K, 2)) + rest;
      var middle := HeadBytes(f, x.m.(size := n % K), stored) + last;
      Entry(f, x) + rest ==
      HeadBytes(f, x.m.(size := KSize(n)), stored) + (x.data[..base] + Zeros(KSize(n) % 2) + middle)
  {
    hide HeadBytes, KSize, PadTo, Zeros;
  }

  lemma SplitParts(a: seq<byte>, b: seq<byte>, c: seq<byte>)
    ensures var s := a + b + c; s[..|a|] == a && s[|a| + |b|..] == c && |s| == |a| + |b| + |c|
  {
  }

  lemma SplitRead(f: Format, r: Raw, name: seq<byte>, d1: seq<byte>, middle: seq<byte>, second: Raw, d2: seq<byte>, rest: seq<byte>)
    requires f.Bin? && |d1| == (0x1_0000_0000 - r.m.size) * K
    requires var skip := if r.m.size % 2 == 0 then 0 else 1;
      |r.rest| == |d1| + skip + |middle| && r.rest[..|d1|] == d1 && r.rest[|d1| + skip..] == middle
    requires ReadRaw(f, middle) == Some(second) && !IsSplit(f, second) && second.m.size == |d2|
    requires Padded(second.rest, |d2|, 2) == Some(Read(d2, rest))
    ensures ReadSplit(f, r, name) == Some(Read(Member(r.m.(size := |d1| + |d2|), name, d1 + d2), rest))
  {
    hide ReadRaw, Padded, IsSplit;
  }

  // ---- whole archives ----

  function TrailerMember(dev: nat, ino: nat): Member {
    Member(Meta(dev, ino, 0, 0, 0, 1, 0, 0, 0), Trailer(), [])
  }

  function Entries(f: Format, xs: seq<Member>): seq<byte>
    requires forall x :: x in xs ==> x.m.size == |x.data|
  {
    if xs == [] then [] else Entries(f, xs[..|xs| - 1]) + Entry(f, xs[|xs| - 1])
  }

  lemma TrailerBack(fr: Format, fw: Format, dev: nat, ino: nat, rest: seq<byte>)
    requires Reads(fr, fw) && dev < Narrow(fw) && ino < Narrow(fw)
    ensures ReadArchive(fr, Entry(fw, TrailerMember(dev, ino)) + rest) == Some(Read([], rest))
  {
    hide *;
    TrailerFacts(fw, dev, ino);
    var x, stored := TrailerMember(dev, ino), Trailer() + [0];
    NameBack(fr, fw, Trailer(), 0);
    HeadBack(fr, fw, x.m, stored, rest);
    PlainEntry(fw, x, rest);
    TrailerFrom(fr, Entry(fw, x) + rest, Raw(x.m, stored, rest));
  }

  lemma TrailerFacts(f: Format, dev: nat, ino: nat)
    requires dev < Narrow(f) && ino < Narrow(f)
    ensures var x := TrailerMember(dev, ino);
      && WithinLimits(f, x.m, |Trailer() + [0]|) && 0 !in Trailer() && !Split(f, 0) && 0 < MAG_SCO && 0 < SizeLimit(f)
      && x.data == [] && x.name == Trailer() && x.m.size == 0 && x.m.(size := 0) == x.m
      && StoredName(f, Trailer(), 0) == Trailer() + [0] && StoredSize(f, 0) == 0
  {
  }

  lemma TrailerFrom(f: Format, s: seq<byte>, r: Raw)
    requires ReadRaw(f, s) == Some(r) && CString(r.stored) == Trailer()
    ensures ReadArchive(f, s) == Some(Read([], r.rest))
  {
    hide ReadRaw, CString, Trailer;
  }

  lemma {:induction false} EntriesFirst(f: Format, xs: seq<Member>)
    requires xs != [] && forall x :: x in xs ==> x.m.size == |x.data|
    ensures Entries(f, xs) == Entry(f, xs[0]) + Entries(f, xs[1..])
  {
    hide Entry;
    if |xs| == 1 {
      assert xs[..0] == [] && xs[1..] == [];
    } else {
      var n := |xs| - 1;
      EntriesFirst(f, xs[..n]);
      assert xs[..n][1..] == xs[1..][..n - 1] && xs[1..][n - 1] == xs[n];
      assert Entries(f, xs) == Entry(f, xs[0]) + Entries(f, xs[..n][1..]) + Entry(f, xs[n]);
    }
  }

  /** Any list of archivable members, written and read in any of the formats,
      comes back the same and in order, and reading stops at the trailer. */
  lemma {:induction false} ArchiveBack(fr: Format, fw: Format, xs: seq<Member>, dev: nat, ino: nat, rest: seq<byte>)
    requires Reads(fr, fw) && dev < Narrow(fw) && ino < Narrow(fw)
    requires forall x :: x in xs ==> x.m.size == |x.data| && Archivable(fw, x)
    ensures ReadArchive(fr, Entries(fw, xs) + Entry(fw, TrailerMember(dev, ino)) + rest) == Some(Read(xs, rest))
  {
    hide *;
    TrailerFacts(fw, dev, ino);
    var t := Entry(fw, TrailerMember(dev, ino));
    NoEntries(fw);
    if xs == [] {
      TrailerBack(fr, fw, dev, ino, rest);
      assert Entries(fw, xs) + t + rest == t + rest;
    } else {
      var more := Entries(fw, xs[1..]) + t + rest;
      EntriesFirst(fw, xs);
      Described(fw, xs[0]);
      EntryBack(fr, fw, xs[0], more);
      ArchiveBack(fr, fw, xs[1..], dev, ino, rest);
      assert Entries(fw, xs) + t + rest == Entry(fw, xs[0]) + more;
      assert [xs[0]] + xs[1..] == xs;
      OneRead(fr, Entry(fw, xs[0]) + more, xs[0], more, xs[1..], rest);
    }
  }

  lemma NoEntries(f: Format)
    ensures Entries(f, []) == []
  {
  }

  lemma OneRead(f: Format, s: seq<byte>, x: Member, t: seq<byte>, ys: seq<Member>, rest: seq<byte>)
    requires ReadMember(f, s) == Some(Read(x, t)) && x.name != Trailer() && ReadArchive(f, t) == Some(Read(ys, rest))
    ensures ReadArchive(f, s) == Some(Read([x] + ys, rest))
  {
    hide ReadMember, Trailer;
    ReadMemberShortens(f, s);
  }
}
