/**
 The headers of cpio archives: portable ASCII (odc), SVR4 ASCII (newc) and the
 binary format in both byte orders, with the extensions of UnixWare (sco) and
 IRIX (sgi) for large files.
 */
module CpioFormat {
  import opened Basics
  import opened Numerals

  const OCUT: nat := 0x40000
  const OLONG: nat := 0x2_0000_0000
  const ECUT: nat := 0x1_0000_0000
  const LONG: nat := 0x1_0000_0000_0000_0000
  const SANELIMIT: nat := 65535

  /** For writing: the format.  For reading: sco and sgi say whether the
      extension is looked for. */
  datatype Format = Odc | Newc(sco: bool) | Bin(be: bool, sgi: bool)

  datatype Meta = Meta(dev: int, ino: int, mode: int, uid: int, gid: int, nlink: int, rdev: int, mtime: int, size: int)

  // ---- fields ----

  datatype Kind = Oct(w: nat) | Hex(w: nat) | Half(o: Order) | Full(o: Order)

  function Width(k: Kind): nat {
    match k
    case Oct(w) => w
    case Hex(w) => w
    case Half(_) => 2
    case Full(_) => 4
  }

  ghost predicate FitsKind(k: Kind, v: int) {
    0 <= v < match k
             case Oct(w) => Pow(8, w)
             case Hex(w) => Pow(16, w)
             case Half(_) => 65536
             case Full(_) => 4294967296
  }

  function Put(k: Kind, v: nat): seq<byte> {
    match k
    case Oct(w) => Printed(v, false, w)
    case Hex(w) => Printed(v, true, w)
    case Half(o) => Put16(v, o)
    case Full(o) => Put32(v, o)
  }

  function Get(k: Kind, s: seq<byte>): int
    requires |s| == Width(k)
  {
    match k
    case Oct(w) => Field(s, false)
    case Hex(w) => Field(s, true)
    case Half(o) => Get16(s, o)
    case Full(o) => Get32(s, o)
  }

  lemma PutGet(k: Kind, v: nat)
    requires FitsKind(k, v)
    ensures |Put(k, v)| == Width(k) && Get(k, Put(k, v)) == v
  {
    hide Put16, Put32, Get16, Get32, Printed, Field, Pow;
    match k
    case Oct(w) => FieldRead(v, false, w);
    case Hex(w) => FieldRead(v, true, w);
    case Half(o) => Binary16(v, Put16(v, o), o);
    case Full(o) => Binary32(v, Put32(v, o), o);
  }

  function TotalWidth(ks: seq<Kind>): nat {
    if ks == [] then 0 else Width(ks[0]) + TotalWidth(ks[1..])
  }

  function PutAll(ks: seq<Kind>, vs: seq<nat>): seq<byte>
    requires |ks| == |vs|
  {
    if ks == [] then [] else Put(ks[0], vs[0]) + PutAll(ks[1..], vs[1..])
  }

  function GetAll(ks: seq<Kind>, s: seq<byte>): (vs: seq<int>)
    requires |s| >= TotalWidth(ks)
    ensures |vs| == |ks|
  {
    if ks == [] then []
    else
      var w := Width(ks[0]);
      [Get(ks[0], s[..w])] + GetAll(ks[1..], s[w..])
  }

  /** Fields that fit are read back one by one, whatever follows them. */
  lemma {:induction false} PutGetAll(ks: seq<Kind>, vs: seq<nat>, rest: seq<byte>)
    requires |ks| == |vs| && forall i :: 0 <= i < |ks| ==> FitsKind(ks[i], vs[i])
    ensures |PutAll(ks, vs)| == TotalWidth(ks) && GetAll(ks, PutAll(ks, vs) + rest) == vs
  {
    hide Put, Get, Width, FitsKind;
    if ks != [] {
      PutGet(ks[0], vs[0]);
      PutGetAll(ks[1..], vs[1..], rest);
      Prefixed(Put(ks[0], vs[0]), PutAll(ks[1..], vs[1..]), rest);
    }
  }

  // ---- headers ----

  function Magic(f: Format): seq<byte> {
    match f
    case Odc => [48, 55, 48, 55, 48, 55]
    case Newc(_) => [48, 55, 48, 55, 48, 49]
    case Bin(be, _) => Put16(29127, if be then Big else Little)
  }

  /** The fields after the magic number, in the order of the header. */
  function Kinds(f: Format): seq<Kind> {
    match f
    case Odc => [Oct(6), Oct(6), Oct(6), Oct(6), Oct(6), Oct(6), Oct(6), Oct(11), Oct(6), Oct(11)]
    case Newc(_) => seq(13, _ => Hex(8))
    case Bin(be, _) =>
      var h, w := Half(if be then Big else Little), Full(if be then Big else Middle);
      [h, h, h, h, h, h, h, w, h, w]
  }

  function HeaderSize(f: Format): nat {
    match f
    case Odc => 76
    case Newc(_) => 110
    case Bin(_, _) => 26
  }

  function Padding(f: Format): (pad: nat)
    ensures pad > 0
  {
    match f
    case Odc => 1
    case Newc(_) => 4
    case Bin(_, _) => 2
  }

  // The traditional split of a device number.
  function Major(d: int): int { d / 256 }
  function Minor(d: int): int { d % 256 }
  function MakeDev(maj: int, min: int): int { 256 * maj + min }

  function Values(f: Format, m: Meta, namesize: nat): seq<nat> {
    match f
    case Odc =>
      [m.dev % OCUT, m.ino % OCUT, m.mode % OCUT, m.uid % OCUT, m.gid % OCUT, m.nlink % OCUT, m.rdev % OCUT,
       m.mtime % LONG, namesize, m.size % LONG]
    case Newc(_) =>
      [m.ino % ECUT, m.mode % ECUT, m.uid % ECUT, m.gid % ECUT, m.nlink % ECUT, m.mtime % ECUT, m.size % ECUT,
       Major(m.dev) % ECUT, Minor(m.dev) % ECUT, Major(m.rdev) % ECUT, Minor(m.rdev) % ECUT, namesize, 0]
    case Bin(_, _) =>
      [m.dev % LONG, m.ino % LONG, m.mode % LONG, m.uid % LONG, m.gid % LONG, m.nlink % LONG, m.rdev % LONG,
       m.mtime % LONG, namesize, m.size % LONG]
  }

  function Header(f: Format, m: Meta, namesize: nat): seq<byte> {
    Magic(f) + PutAll(Kinds(f), Values(f, m, namesize))
  }

  datatype Head = Head(m: Meta, namesize: int)

  function HeadOf(f: Format, v: seq<int>): Head
    requires |v| == |Kinds(f)|
  {
    if f.Newc? then
      Head(Meta(MakeDev(v[7], v[8]), v[0], v[1], v[2], v[3], v[4], MakeDev(v[9], v[10]), v[5], v[6]), v[11])
    else Head(Meta(v[0], v[1], v[2], v[3], v[4], v[5], v[6], v[7], v[9]), v[8])
  }

  /** The size of a header field for small numbers. */
  function Narrow(f: Format): nat {
    match f
    case Odc => OCUT
    case Newc(_) => ECUT
    case Bin(_, _) => 65536
  }

  /** What a header can hold. */
  ghost predicate WithinLimits(f: Format, m: Meta, namesize: nat) {
    var n := Narrow(f);
    && 0 <= m.dev < n && 0 <= m.ino < n && 0 <= m.mode < n && 0 <= m.uid < n && 0 <= m.gid < n
    && 1 <= m.nlink < n && 0 <= m.rdev < n && 1 <= namesize < SANELIMIT
    && 0 <= m.mtime < (if f.Odc? then OLONG else ECUT)
    && 0 <= m.size < (if f.Odc? then OLONG else ECUT)
  }

  lemma Widths()
    ensures Pow(8, 6) == OCUT && Pow(8, 11) == OLONG && Pow(16, 8) == ECUT
  {
    var p2, p4 := Pow(8, 2), Pow(8, 4);
    assert Pow(8, 1) == 8 && Pow(8, 3) == 512 && p4 == 4096 && Pow(8, 5) == 32768;
    assert Pow(8, 7) == 0x20_0000 && Pow(8, 8) == 0x100_0000 && Pow(8, 9) == 0x800_0000 && Pow(8, 10) == 0x4000_0000;
    assert Pow(16, 1) == 16 && Pow(16, 2) == 256 && Pow(16, 3) == 4096 && Pow(16, 4) == 65536;
    assert Pow(16, 5) == 0x10_0000 && Pow(16, 6) == 0x100_0000 && Pow(16, 7) == 0x1000_0000;
  }

  lemma SumOfWidths(f: Format)
    ensures |Magic(f)| + TotalWidth(Kinds(f)) == HeaderSize(f) && |Kinds(f)| == if f.Newc? then 13 else 10
  {
    var ks := Kinds(f);
    if f.Newc? {
      EqualFields(ks);
    } else {
      TenFields(ks);
      hide TotalWidth;
    }
  }

  lemma TenFields(ks: seq<Kind>)
    requires |ks| == 10
    ensures TotalWidth(ks) == Width(ks[0]) + Width(ks[1]) + Width(ks[2]) + Width(ks[3]) + Width(ks[4]) +
                              Width(ks[5]) + Width(ks[6]) + Width(ks[7]) + Width(ks[8]) + Width(ks[9])
  {
    hide *;
    NoFields();
    assert ks[0..] == ks && ks[10..] == [];
    Tail(ks, 0);
    Tail(ks, 1);
    Tail(ks, 2);
    Tail(ks, 3);
    Tail(ks, 4);
    Tail(ks, 5);
    Tail(ks, 6);
    Tail(ks, 7);
    Tail(ks, 8);
    Tail(ks, 9);
  }

  lemma NoFields()
    ensures TotalWidth([]) == 0
  {
  }

  lemma Tail(ks: seq<Kind>, i: nat)
    requires i < |ks|
    ensures TotalWidth(ks[i..]) == Width(ks[i]) + TotalWidth(ks[i + 1..])
  {
    assert ks[i..][1..] == ks[i + 1..];
  }

  lemma {:induction false} EqualFields(ks: seq<Kind>)
    requires forall i :: 0 <= i < |ks| ==> ks[i] == Hex(8)
    ensures TotalWidth(ks) == 8 * |ks|
  {
    if ks != [] {
      EqualFields(ks[1..]);
    }
  }

  /** Within the limits of its format a header is read back exactly. */
  lemma HeaderRead(f: Format, m: Meta, namesize: nat, rest: seq<byte>)
    requires WithinLimits(f, m, namesize)
    ensures var h := Header(f, m, namesize);
      |h| == HeaderSize(f) && HeaderSize(f) - |Magic(f)| == TotalWidth(Kinds(f)) && h[..|Magic(f)|] == Magic(f)
      && HeadOf(f, GetAll(Kinds(f), (h + rest)[|Magic(f)|..])) == Head(m, namesize)
  {
    var ks, vs, g := Kinds(f), Values(f, m, namesize), Magic(f);
    SumOfWidths(f);
    FieldsFit(f, m, namesize);
    ValuesHeld(f, m, namesize);
    hide *;
    PutGetAll(ks, vs, rest);
    HeaderIs(f, m, namesize);
    Prefixed(g, PutAll(ks, vs), rest);
  }

  lemma Prefixed<T>(a: seq<T>, b: seq<T>, c: seq<T>)
    ensures (a + b)[..|a|] == a && (a + b + c)[..|a|] == a && (a + b + c)[|a|..] == b + c
  {
  }

  lemma HeaderIs(f: Format, m: Meta, namesize: nat)
    ensures |Kinds(f)| == |Values(f, m, namesize)|
    ensures Header(f, m, namesize) == Magic(f) + PutAll(Kinds(f), Values(f, m, namesize))
  {
  }

  lemma WholeDevice(d: int)
    requires 0 <= d < ECUT
    ensures MakeDev(Major(d), Minor(d)) == d && Major(d) % ECUT == Major(d) >= 0 && Minor(d) % ECUT == Minor(d) >= 0
  {
  }

  lemma Keep(x: int, n: nat)
    requires 0 <= x < n
    ensures x % n == x
  {
  }

  /** Within the limits nothing is cut off. */
  lemma NothingCut(f: Format, m: Meta, namesize: nat)
    requires WithinLimits(f, m, namesize)
    ensures Values(f, m, namesize) ==
            if f.Newc? then
              [m.ino, m.mode, m.uid, m.gid, m.nlink, m.mtime, m.size,
               Major(m.dev), Minor(m.dev), Major(m.rdev), Minor(m.rdev), namesize, 0]
            else [m.dev, m.ino, m.mode, m.uid, m.gid, m.nlink, m.rdev, m.mtime, namesize, m.size]
  {
    WholeDevice(m.dev);
    WholeDevice(m.rdev);
    hide MakeDev, Major, Minor;
    var n := if f.Odc? then OCUT else if f.Newc? then ECUT else LONG;
    Keep(m.dev, n);
    Keep(m.ino, n);
    Keep(m.mode, n);
    Keep(m.uid, n);
    Keep(m.gid, n);
    Keep(m.nlink, n);
    Keep(m.rdev, n);
    Keep(m.mtime, if f.Newc? then ECUT else LONG);
    Keep(m.size, if f.Newc? then ECUT else LONG);
  }

  lemma ValuesHeld(f: Format, m: Meta, namesize: nat)
    requires WithinLimits(f, m, namesize)
    ensures |Values(f, m, namesize)| == |Kinds(f)| && HeadOf(f, Values(f, m, namesize)) == Head(m, namesize)
  {
    NothingCut(f, m, namesize);
    WholeDevice(m.dev);
    WholeDevice(m.rdev);
    KindCount(f);
    hide MakeDev, Major, Minor, Values, Kinds;
  }

  lemma KindCount(f: Format)
    ensures |Kinds(f)| == if f.Newc? then 13 else 10
  {
  }

  lemma FieldsFit(f: Format, m: Meta, namesize: nat)
    requires WithinLimits(f, m, namesize)
    ensures var ks, vs := Kinds(f), Values(f, m, namesize);
      |ks| == |vs| && forall i :: 0 <= i < |ks| ==> FitsKind(ks[i], vs[i])
  {
    if f.Odc? {
      OdcFits(f, m, namesize);
    } else if f.Newc? {
      NewcFits(f, m, namesize);
    } else {
      BinFits(f, m, namesize);
    }
  }

  lemma OdcFits(f: Format, m: Meta, namesize: nat)
    requires WithinLimits(f, m, namesize) && f.Odc?
    ensures var ks, vs := Kinds(f), Values(f, m, namesize);
      |ks| == |vs| && forall i :: 0 <= i < |ks| ==> FitsKind(ks[i], vs[i])
  {
    Widths();
    hide Pow;
    var ks, vs := Kinds(f), Values(f, m, namesize);
    forall i | 0 <= i < |ks| ensures FitsKind(ks[i], vs[i]) {
      assert ks[i] == if i == 7 || i == 9 then Oct(11) else Oct(6);
    }
  }

  lemma NewcFits(f: Format, m: Meta, namesize: nat)
    requires WithinLimits(f, m, namesize) && f.Newc?
    ensures var ks, vs := Kinds(f), Values(f, m, namesize);
      |ks| == |vs| && forall i :: 0 <= i < |ks| ==> FitsKind(ks[i], vs[i])
  {
    Widths();
    hide Pow, MakeDev, Major, Minor;
    var ks, vs := Kinds(f), Values(f, m, namesize);
    forall i | 0 <= i < |ks| ensures FitsKind(ks[i], vs[i]) {
      assert ks[i] == Hex(8);
    }
  }

  lemma BinFits(f: Format, m: Meta, namesize: nat)
    requires WithinLimits(f, m, namesize) && f.Bin?
    ensures var ks, vs := Kinds(f), Values(f, m, namesize);
      |ks| == |vs| && forall i :: 0 <= i < |ks| ==> FitsKind(ks[i], vs[i])
  {
    NothingCut(f, m, namesize);
    hide Values;
  }

  // ---- where the fields are ----

  /** The offset of field i behind the magic number. */
  function Offset(ks: seq<Kind>, i: nat): nat
    requires i <= |ks|
  {
    if i == 0 then 0 else Offset(ks, i - 1) + Width(ks[i - 1])
  }

  lemma {:induction false} OffsetTail(ks: seq<Kind>, i: nat)
    requires 0 < i <= |ks|
    ensures Offset(ks, i) == Width(ks[0]) + Offset(ks[1..], i - 1)
  {
    if i > 1 {
      OffsetTail(ks, i - 1);
    }
  }

  /** Each field stands at its offset. */
  lemma {:induction false} FieldAt(ks: seq<Kind>, vs: seq<nat>, i: nat)
    requires |ks| == |vs| && i < |ks| && forall j :: 0 <= j < |ks| ==> FitsKind(ks[j], vs[j])
    ensures var o, w := Offset(ks, i), Width(ks[i]);
      o + w <= |PutAll(ks, vs)| && PutAll(ks, vs)[o..o + w] == Put(ks[i], vs[i])
  {
    hide Put, Width, FitsKind;
    PutGet(ks[0], vs[0]);
    if i > 0 {
      FieldAt(ks[1..], vs[1..], i - 1);
      OffsetTail(ks, i);
      Behind(Put(ks[0], vs[0]), PutAll(ks[1..], vs[1..]), Offset(ks[1..], i - 1), Width(ks[i]));
    }
  }

  lemma Behind<T>(a: seq<T>, b: seq<T>, o: nat, w: nat)
    requires o + w <= |b|
    ensures (a + b)[|a| + o..|a| + o + w] == b[o..o + w]
  {
  }

  /** Field i of a header, behind the magic number. */
  lemma HeaderField(f: Format, m: Meta, namesize: nat, i: nat)
    requires WithinLimits(f, m, namesize) && i < |Kinds(f)|
    ensures |Values(f, m, namesize)| == |Kinds(f)|
    ensures var h, o, w := Header(f, m, namesize), |Magic(f)| + Offset(Kinds(f), i), Width(Kinds(f)[i]);
      o + w <= |h| && h[o..o + w] == Put(Kinds(f)[i], Values(f, m, namesize)[i])
  {
    hide *;
    FieldsFit(f, m, namesize);
    HeaderIs(f, m, namesize);
    FieldAt(Kinds(f), Values(f, m, namesize), i);
    Behind(Magic(f), PutAll(Kinds(f), Values(f, m, namesize)), Offset(Kinds(f), i), Width(Kinds(f)[i]));
  }

  lemma Offsets(f: Format)
    ensures var ks := Kinds(f);
      && (f.Odc? ==> Offset(ks, 1) == 6 && Offset(ks, 2) == 12 && Offset(ks, 3) == 18 && Offset(ks, 4) == 24 &&
                     Offset(ks, 5) == 30 && Offset(ks, 6) == 36 && Offset(ks, 7) == 42 && Offset(ks, 8) == 53 &&
                     Offset(ks, 9) == 59)
      && (f.Newc? ==> forall i :: 0 <= i <= 12 ==> Offset(ks, i) == 8 * i)
      && (f.Bin? ==> Offset(ks, 1) == 2 && Offset(ks, 2) == 4 && Offset(ks, 3) == 6 && Offset(ks, 4) == 8 &&
                     Offset(ks, 5) == 10 && Offset(ks, 6) == 12 && Offset(ks, 7) == 14 && Offset(ks, 8) == 18 &&
                     Offset(ks, 9) == 20)
  {
    if f.Newc? {
      forall i | 0 <= i <= 12 ensures Offset(Kinds(f), i) == 8 * i {
        EqualOffsets(Kinds(f), i);
      }
    } else {
      var ks := Kinds(f);
      assert Offset(ks, 2) == Width(ks[0]) + Width(ks[1]) && Offset(ks, 4) == Offset(ks, 2) + Width(ks[2]) + Width(ks[3]);
      assert Offset(ks, 6) == Offset(ks, 4) + Width(ks[4]) + Width(ks[5]);
      assert Offset(ks, 8) == Offset(ks, 6) + Width(ks[6]) + Width(ks[7]);
    }
  }

  lemma {:induction false} EqualOffsets(ks: seq<Kind>, i: nat)
    requires i <= |ks| && forall j :: 0 <= j < i ==> ks[j] == Hex(8)
    ensures Offset(ks, i) == 8 * i
  {
    if i > 0 {
      EqualOffsets(ks, i - 1);
    }
  }

  // Where the fields of the two old headers start.
  function OdcAt(i: nat): nat {
    if i <= 7 then 6 + 6 * i else if i == 8 then 59 else if i == 9 then 65 else 76
  }

  function BinAt(i: nat): nat {
    if i <= 7 then 2 + 2 * i else if i == 8 then 20 else if i == 9 then 22 else 26
  }

  lemma OldOffsets(f: Format, i: nat)
    requires !f.Newc? && i < 10
    ensures |Magic(f)| + Offset(Kinds(f), i) == (if f.Odc? then OdcAt(i) else BinAt(i))
    ensures Width(Kinds(f)[i]) == if f.Odc? then OdcAt(i + 1) - OdcAt(i) else BinAt(i + 1) - BinAt(i)
  {
    Offsets(f);
    NoOffset(Kinds(f));
    hide Offset;
  }

  lemma OldValue(f: Format, m: Meta, namesize: nat, i: nat)
    requires WithinLimits(f, m, namesize) && !f.Newc? && i < 10
    ensures |Values(f, m, namesize)| == 10
    ensures Values(f, m, namesize)[i] ==
            [m.dev, m.ino, m.mode, m.uid, m.gid, m.nlink, m.rdev, m.mtime, namesize, m.size][i]
  {
    NothingCut(f, m, namesize);
    hide Values;
  }

  lemma MagicFirst(f: Format, m: Meta, namesize: nat)
    requires WithinLimits(f, m, namesize)
    ensures var h := Header(f, m, namesize); |h| == HeaderSize(f) && |Magic(f)| <= |h| && h[..|Magic(f)|] == Magic(f)
  {
    HeaderRead(f, m, namesize, []);
  }

  /** The portable ASCII header, byte for byte. */
  lemma OdcLayout(m: Meta, namesize: nat, i: nat)
    requires WithinLimits(Odc, m, namesize) && i < 10
    ensures var h := Header(Odc, m, namesize);
      var v := [m.dev, m.ino, m.mode, m.uid, m.gid, m.nlink, m.rdev, m.mtime, namesize, m.size][i];
      && |h| == 76 && h[..6] == [48, 55, 48, 55, 48, 55]
      && v >= 0 && h[OdcAt(i)..OdcAt(i + 1)] == Printed(v, false, OdcAt(i + 1) - OdcAt(i))
  {
    MagicFirst(Odc, m, namesize);
    OldOffsets(Odc, i);
    OldValue(Odc, m, namesize, i);
    hide Offset, Header, Values, Printed, OdcAt, WithinLimits;
    HeaderField(Odc, m, namesize, i);
  }

  lemma NoOffset(ks: seq<Kind>)
    ensures Offset(ks, 0) == 0
  {
  }

  /** The SVR4 header: thirteen fields of eight hexadecimal digits. */
  lemma NewcLayout(f: Format, m: Meta, namesize: nat, i: nat)
    requires f.Newc? && WithinLimits(f, m, namesize) && i < 13
    ensures var h := Header(f, m, namesize);
      var v := [m.ino, m.mode, m.uid, m.gid, m.nlink, m.mtime, m.size, m.dev / 256, m.dev % 256,
                m.rdev / 256, m.rdev % 256, namesize, 0][i];
      |h| == 110 && h[..6] == [48, 55, 48, 55, 48, 49] && v >= 0 && h[6 + 8 * i..14 + 8 * i] == Printed(v, true, 8)
  {
    MagicFirst(f, m, namesize);
    NewcValue(f, m, namesize, i);
    Offsets(f);
    hide Offset, Header, Values, Printed, WithinLimits;
    HeaderField(f, m, namesize, i);
  }

  lemma NewcValue(f: Format, m: Meta, namesize: nat, i: nat)
    requires WithinLimits(f, m, namesize) && f.Newc? && i < 13
    ensures |Values(f, m, namesize)| == 13
    ensures Values(f, m, namesize)[i] ==
            [m.ino, m.mode, m.uid, m.gid, m.nlink, m.mtime, m.size, Major(m.dev), Minor(m.dev),
             Major(m.rdev), Minor(m.rdev), namesize, 0][i]
  {
    NothingCut(f, m, namesize);
    hide Values;
  }

  /** The binary header, byte for byte. */
  lemma BinLayout(f: Format, m: Meta, namesize: nat, i: nat)
    requires f.Bin? && WithinLimits(f, m, namesize) && i < 10
    ensures var h := Header(f, m, namesize);
      var v := [m.dev, m.ino, m.mode, m.uid, m.gid, m.nlink, m.rdev, m.mtime, namesize, m.size][i];
      && |h| == 26 && h[..2] == Put16(0x71c7, if f.be then Big else Little) && v >= 0
      && h[BinAt(i)..BinAt(i + 1)] == if i == 7 || i == 9 then Put32(v, if f.be then Big else Middle)
                                      else Put16(v, if f.be then Big else Little)
  {
    MagicFirst(f, m, namesize);
    OldOffsets(f, i);
    OldValue(f, m, namesize, i);
    hide Offset, Header, Values, Put16, Put32, BinAt, WithinLimits;
    HeaderField(f, m, namesize, i);
  }
}
