/**
 addfile and the read loop on block-buffered streams, and an archive on its way
 from one to the other.
 */
module CpioIO {
  import opened Basics
  import opened BlockStream
  import opened CpioFormat
  import opened Numerals
  import opened CpioArchive

  /** The data of a regular file is copied in chunks of the buffer size; the
      last chunk decides the padding. */
  function LastChunk(n: nat, bufsize: nat): nat
    requires bufsize > 0
  {
    if n == 0 then 0 else if n % bufsize == 0 then bufsize else n % bufsize
  }

  /** What addfile really writes. */
  function Written(f: Format, x: Member, bufsize: nat): seq<byte>
    requires x.m.size == |x.data| && bufsize > 0
  {
    var n := |x.data|;
    if Split(f, n) || FileType(x.m.mode) != 8 then Entry(f, x)
    else
      HeadBytes(f, x.m.(size := StoredSize(f, n)), StoredName(f, x.name, n)) + x.data
      + Zeros(PadTo(LastChunk(n, bufsize), Padding(f)))
  }

  /** The last chunk is padded as the whole, for every length, exactly when
      chunks are multiples of the padding unit. */
  lemma ChunksPad(bufsize: nat, pad: nat)
    requires bufsize > 0 && pad > 0
    ensures (forall n: nat :: PadTo(LastChunk(n, bufsize), pad) == PadTo(n, pad)) <==> bufsize % pad == 0
  {
    hide PadTo, LastChunk;
    if bufsize % pad == 0 {
      forall n: nat ensures PadTo(LastChunk(n, bufsize), pad) == PadTo(n, pad) {
        EvenChunks(n, bufsize, pad);
      }
    } else {
      OneOver(bufsize, pad);
    }
  }

  lemma EvenChunks(n: nat, bufsize: nat, pad: nat)
    requires bufsize > 0 && pad > 0 && bufsize % pad == 0
    ensures PadTo(LastChunk(n, bufsize), pad) == PadTo(n, pad)
  {
    hide *;
    RestOfRest(n, bufsize, pad);
    ChunkPads(n, bufsize, pad);
  }

  lemma RestOfRest(n: nat, bufsize: nat, pad: nat)
    requires bufsize > 0 && pad > 0 && bufsize % pad == 0
    ensures n % bufsize % pad == n % pad
  {
    var k, q, r := bufsize / pad, n / bufsize, n % bufsize;
    Multiply(q, k, pad, bufsize, n, r);
    SameRest(r, q * k, pad);
  }

  lemma Multiply(q: nat, k: nat, pad: nat, bufsize: nat, n: nat, r: nat)
    requires bufsize == k * pad && n == q * bufsize + r
    ensures q * k >= 0 && n == q * k * pad + r
  {
  }

  lemma ChunkPads(n: nat, bufsize: nat, pad: nat)
    requires bufsize > 0 && pad > 0 && bufsize % pad == 0 && n % bufsize % pad == n % pad
    ensures PadTo(LastChunk(n, bufsize), pad) == PadTo(n, pad)
  {
  }

  /** One byte more than a chunk: the byte alone is padded by more than the
      whole when the chunk is not a multiple of the padding unit. */
  lemma OneOver(bufsize: nat, pad: nat)
    requires bufsize > 0 && pad > 0 && bufsize % pad != 0
    ensures PadTo(LastChunk(bufsize + 1, bufsize), pad) > PadTo(bufsize + 1, pad)
  {
    hide LastChunk, PadTo;
    SameRest(1, 1, bufsize);
    LastChunkIs(bufsize + 1, 1, bufsize);
    PadsOne(bufsize, pad);
  }

  lemma PadsOne(n: nat, pad: nat)
    requires pad > 0 && n % pad != 0
    ensures PadTo(1, pad) > PadTo(n + 1, pad)
  {
    Next(n, pad);
  }

  lemma Next(n: nat, pad: nat)
    requires pad > 0 && n % pad != 0
    ensures pad > 1 && (n + 1) % pad == if n % pad == pad - 1 then 0 else n % pad + 1
  {
    var q, r := n / pad, n % pad;
    if r == pad - 1 {
      Whole(n + 1, pad, q + 1, 0);
    } else {
      Whole(n + 1, pad, q, r + 1);
    }
  }

  lemma SameRest(r: nat, k: nat, pad: nat)
    requires pad > 0
    ensures (k * pad + r) % pad == r % pad
  {
    var a, b := r / pad, r % pad;
    assert k * pad + r == (k + a) * pad + b by {
      assert (k + a) * pad == k * pad + a * pad;
    }
    Times(k + a, pad);
    var m := (k + a) * pad;
    var q, s := (m + b) / pad, (m + b) % pad;
    assert (q - (k + a)) * pad == b - s;
    Small(q - (k + a), pad);
  }

  /** The first size that a format does not keep in one part. */
  function PlainLimit(f: Format): nat {
    if f.Bin? then K else SizeLimit(f)
  }

  /** Chunk sizes that addfile can use with a format. */
  predicate ChunksFit(f: Format, bufsize: nat) {
    bufsize % Padding(f) == 0 || bufsize + 1 >= PlainLimit(f)
  }

  lemma WrittenIs(f: Format, x: Member, bufsize: nat)
    requires bufsize > 0 && ChunksFit(f, bufsize) && x.m.size == |x.data| < SizeLimit(f)
    ensures Written(f, x, bufsize) == Entry(f, x)
  {
    hide HeadBytes, StoredName, StoredSize, Padding, Zeros, PadTo, LastChunk;
    var n := |x.data|;
    if bufsize % Padding(f) == 0 {
      EvenChunks(n, bufsize, Padding(f));
    } else if !Split(f, n) {
      FewChunks(n, bufsize);
    }
  }

  lemma FewChunks(n: nat, bufsize: nat)
    requires 0 < bufsize && n <= bufsize
    ensures LastChunk(n, bufsize) == n
  {
  }

  /** A regular file of one byte more than a chunk. */
  function OddMember(bufsize: nat): Member {
    Member(Meta(0, 0, 0x81a4, 0, 0, 1, 0, 0, bufsize + 1), [97], Zeros(bufsize + 1))
  }

  lemma OddArchivable(f: Format, bufsize: nat)
    requires !ChunksFit(f, bufsize)
    ensures var x := OddMember(bufsize);
      Archivable(f, x) && x.m.size == |x.data| == bufsize + 1 && FileType(x.m.mode) == 8 && !Split(f, |x.data|)
  {
    hide StoredName, Padding, PlainLimit, Zeros;
    BelowLimit(f, bufsize);
    LimitOf(f);
    OddName(f, bufsize + 1);
    SomeZeros();
  }

  lemma BelowLimit(f: Format, bufsize: nat)
    requires !ChunksFit(f, bufsize)
    ensures bufsize + 1 < PlainLimit(f)
  {
  }

  lemma LimitOf(f: Format)
    ensures PlainLimit(f) <= SizeLimit(f) && (f.Bin? ==> PlainLimit(f) == K)
  {
  }

  lemma OddName(f: Format, size: nat)
    requires size < SizeLimit(f)
    ensures 1 <= |StoredName(f, [97], size)| < SANELIMIT
  {
    if f == Newc(true) {
      Tagged([97], size);
      hide Printed;
    }
  }

  /** What is written for it is what should be written and some more zeros. */
  lemma OddWritten(f: Format, bufsize: nat)
    requires bufsize > 0 && !ChunksFit(f, bufsize)
    ensures var x := OddMember(bufsize);
      Archivable(f, x) && exists more: nat :: more > 0 && Written(f, x, bufsize) == Entry(f, x) + Zeros(more)
  {
    hide *;
    OddArchivable(f, bufsize);
    OddChunk(f, bufsize);
    OneOver(bufsize, Padding(f));
    MorePadding(f, OddMember(bufsize), bufsize);
  }

  lemma OddChunk(f: Format, bufsize: nat)
    requires bufsize > 0 && !ChunksFit(f, bufsize)
    ensures bufsize % Padding(f) != 0
  {
  }

  /** A longer padding is the right one and some more zeros. */
  lemma MorePadding(f: Format, x: Member, bufsize: nat)
    requires bufsize > 0 && x.m.size == |x.data| && FileType(x.m.mode) == 8 && !Split(f, |x.data|)
    requires PadTo(LastChunk(|x.data|, bufsize), Padding(f)) > PadTo(|x.data|, Padding(f))
    ensures exists more: nat :: more > 0 && Written(f, x, bufsize) == Entry(f, x) + Zeros(more)
  {
    hide HeadBytes, StoredName, StoredSize, Padding, Zeros, PadTo, LastChunk, FileType, Split;
    var n, pad := |x.data|, Padding(f);
    var p, q := PadTo(LastChunk(n, bufsize), pad), PadTo(n, pad);
    MoreZeros(q, p - q);
    var h := HeadBytes(f, x.m.(size := StoredSize(f, n)), StoredName(f, x.name, n));
    assert h + x.data + (Zeros(q) + Zeros(p - q)) == h + x.data + Zeros(q) + Zeros(p - q);
    assert Written(f, x, bufsize) == Entry(f, x) + Zeros(p - q);
  }

  lemma MoreZeros(a: nat, b: nat)
    ensures Zeros(a + b) == Zeros(a) + Zeros(b)
  {
  }

  /** Every archivable file is written as it should be exactly when the chunk
      size fits the format. */
  lemma ChunksWritten(f: Format, bufsize: nat)
    requires bufsize > 0
    ensures (forall x: Member :: x.m.size == |x.data| && Archivable(f, x) ==> Written(f, x, bufsize) == Entry(f, x))
            <==> ChunksFit(f, bufsize)
  {
    if ChunksFit(f, bufsize) {
      hide Written, Entry, ChunksFit;
      forall x: Member | x.m.size == |x.data| && Archivable(f, x) ensures Written(f, x, bufsize) == Entry(f, x) {
        WrittenIs(f, x, bufsize);
      }
    } else {
      hide Written, Entry, ChunksFit, Archivable, Zeros;
      OddWritten(f, bufsize);
      OddArchivable(f, bufsize);
      SomeZeros();
    }
  }

  lemma SomeZeros()
    ensures forall n: nat :: |Zeros(n)| == n
  {
  }

  // ---- archives written in chunks ----

  function WrittenAll(f: Format, xs: seq<Member>, bufsize: nat): seq<byte>
    requires bufsize > 0 && forall x :: x in xs ==> x.m.size == |x.data|
  {
    if xs == [] then [] else WrittenAll(f, xs[..|xs| - 1], bufsize) + Written(f, xs[|xs| - 1], bufsize)
  }

  lemma {:induction false} WrittenAllIs(f: Format, xs: seq<Member>, bufsize: nat)
    requires bufsize > 0 && ChunksFit(f, bufsize) && forall x :: x in xs ==> x.m.size == |x.data| && Archivable(f, x)
    ensures WrittenAll(f, xs, bufsize) == Entries(f, xs)
  {
    hide Written, Entry, ChunksFit, Archivable;
    if xs != [] {
      var x := xs[|xs| - 1];
      assert x in xs;
      Limited(f, x);
      WrittenIs(f, x, bufsize);
      WrittenAllIs(f, xs[..|xs| - 1], bufsize);
    }
  }

  lemma Limited(f: Format, x: Member)
    requires Archivable(f, x)
    ensures x.m.size == |x.data| < SizeLimit(f)
  {
  }

  /** The members of an archive, copied in chunks of the buffer size, and its trailer. */
  function ArchiveOf(f: Format, xs: seq<Member>, dev: nat, ino: nat, bufsize: nat): seq<byte>
    requires bufsize > 0 && forall x :: x in xs ==> x.m.size == |x.data|
  {
    WrittenAll(f, xs, bufsize) + Written(f, TrailerMember(dev, ino), bufsize)
  }

  /** An archive that fw wrote is read by fr, whatever follows it. */
  ghost predicate ComesBack(fr: Format, fw: Format, xs: seq<Member>, dev: nat, ino: nat, bufsize: nat, rest: seq<byte>)
    requires bufsize > 0 && forall x :: x in xs ==> x.m.size == |x.data|
  {
    ReadArchive(fr, ArchiveOf(fw, xs, dev, ino, bufsize) + rest) == Some(Read(xs, rest))
  }

  ghost predicate AllArchivable(f: Format, xs: seq<Member>, dev: nat, ino: nat) {
    dev < Narrow(f) && ino < Narrow(f) && forall x :: x in xs ==> x.m.size == |x.data| && Archivable(f, x)
  }

  lemma TrailerWritten(f: Format, dev: nat, ino: nat, bufsize: nat)
    requires bufsize > 0
    ensures Written(f, TrailerMember(dev, ino), bufsize) == Entry(f, TrailerMember(dev, ino))
  {
    hide *;
    TrailerMode(dev, ino);
    NoRegular(f, TrailerMember(dev, ino), bufsize);
  }

  lemma TrailerMode(dev: nat, ino: nat)
    ensures var x := TrailerMember(dev, ino); x.m.size == |x.data| && FileType(x.m.mode) == 0
  {
    hide Trailer;
  }

  lemma NoRegular(f: Format, x: Member, bufsize: nat)
    requires bufsize > 0 && x.m.size == |x.data| && FileType(x.m.mode) != 8
    ensures Written(f, x, bufsize) == Entry(f, x)
  {
    hide Entry, FileType, Split;
  }

  lemma FittingBack(fr: Format, fw: Format, xs: seq<Member>, dev: nat, ino: nat, bufsize: nat, rest: seq<byte>)
    requires Reads(fr, fw) && bufsize > 0 && ChunksFit(fw, bufsize) && AllArchivable(fw, xs, dev, ino)
    ensures ComesBack(fr, fw, xs, dev, ino, bufsize, rest)
  {
    hide Reads, ChunksFit, Archivable, Entry, Written, ReadArchive, Narrow;
    WrittenAllIs(fw, xs, bufsize);
    TrailerWritten(fw, dev, ino, bufsize);
    ArchiveBack(fr, fw, xs, dev, ino, rest);
  }

  /** A reader that stands on a NUL finds no member. */
  lemma NoMagic(f: Format, s: seq<byte>)
    requires s != [] && s[0] == 0
    ensures ReadArchive(f, s) == None
  {
    hide GetAll, HeadOf, Kinds, PadTo, CString, SizeOf, ReadSplit, Padded;
    assert Magic(f)[0] != 0 && 0 < |Magic(f)| <= HeaderSize(f);
    assert |s| >= HeaderSize(f) ==> s[..|Magic(f)|][0] == 0;
    assert ReadRaw(f, s) == None;
  }

  /** With any other chunk size there is a file that makes an archive
      unreadable: too many zeros follow it. */
  lemma Misread(fr: Format, fw: Format, dev: nat, ino: nat, bufsize: nat, rest: seq<byte>)
    requires Reads(fr, fw) && bufsize > 0 && !ChunksFit(fw, bufsize)
    ensures var x := OddMember(bufsize);
      Archivable(fw, x) && x.m.size == |x.data| && ReadArchive(fr, ArchiveOf(fw, [x], dev, ino, bufsize) + rest) == None
  {
    hide Reads, ChunksFit, Archivable, Entry, Written, ReadArchive, ReadMember, OddMember, Zeros;
    OddArchivable(fw, bufsize);
    OddWritten(fw, bufsize);
    var x := OddMember(bufsize);
    var more: nat :| more > 0 && Written(fw, x, bufsize) == Entry(fw, x) + Zeros(more);
    var t := Written(fw, TrailerMember(dev, ino), bufsize);
    var tail := Zeros(more) + t + rest;
    OneWritten(fw, x, bufsize);
    assert ArchiveOf(fw, [x], dev, ino, bufsize) + rest == Entry(fw, x) + tail;
    EntryBack(fr, fw, x, tail);
    Described(fw, x);
    ZeroFirst(more, t + rest);
    assert Zeros(more) + (t + rest) == tail;
    NoMagic(fr, tail);
    NoneBehind(fr, Entry(fw, x) + tail);
  }

  lemma OneWritten(f: Format, x: Member, bufsize: nat)
    requires bufsize > 0 && x.m.size == |x.data|
    ensures WrittenAll(f, [x], bufsize) == Written(f, x, bufsize)
  {
    hide Written;
    assert [x][..0] == [];
    assert WrittenAll(f, [], bufsize) == [];
  }

  lemma ZeroFirst(n: nat, s: seq<byte>)
    requires n > 0
    ensures Zeros(n) + s != [] && (Zeros(n) + s)[0] == 0
  {
  }

  lemma NoneBehind(f: Format, s: seq<byte>)
    requires ReadMember(f, s).Some? && ReadMember(f, s).value.value.name != Trailer()
    requires ReadArchive(f, ReadMember(f, s).value.rest) == None
    ensures ReadArchive(f, s) == None
  {
    hide ReadMember, Trailer;
    ReadMemberShortens(f, s);
  }

  lemma NotAll(fr: Format, fw: Format, bufsize: nat)
    requires Reads(fr, fw) && bufsize > 0 && !ChunksFit(fw, bufsize)
    ensures var xs := [OddMember(bufsize)];
      AllArchivable(fw, xs, 0, 0) && !ComesBack(fr, fw, xs, 0, 0, bufsize, [])
  {
    hide ArchiveOf, Archivable, ReadArchive, ChunksFit, Reads, OddMember;
    Misread(fr, fw, 0, 0, bufsize, []);
    assert 0 < Narrow(fw);
  }

  /** Every archive comes back exactly when the chunk size is a multiple of the
      padding unit or so large that no file has two chunks. */
  lemma ChunksRead(fr: Format, fw: Format, bufsize: nat)
    requires Reads(fr, fw) && bufsize > 0
    ensures (forall xs: seq<Member>, dev: nat, ino: nat, rest: seq<byte> ::
               AllArchivable(fw, xs, dev, ino) ==> ComesBack(fr, fw, xs, dev, ino, bufsize, rest))
            <==> ChunksFit(fw, bufsize)
  {
    if ChunksFit(fw, bufsize) {
      hide Archivable, ComesBack, ChunksFit, Reads, Narrow;
      forall xs: seq<Member>, dev: nat, ino: nat, rest: seq<byte> | AllArchivable(fw, xs, dev, ino)
        ensures ComesBack(fr, fw, xs, dev, ino, bufsize, rest)
      {
        FittingBack(fr, fw, xs, dev, ino, bufsize, rest);
      }
    } else {
      hide *;
      NotAll(fr, fw, bufsize);
    }
  }

  // ---- writing ----

  method WriteHead(out: Output, f: Format, m: Meta, stored: seq<byte>)
    requires out.Valid()
    modifies out, out.blkbuf
    ensures out.Valid() && out.Stream() == old(out.Stream()) + HeadBytes(f, m, stored)
  {
    hide Output.Stream, Header, Padding, Zeros;
    ghost var start := out.Stream();
    var h := Header(f, m, |stored|);
    out.BWrite(h);
    if stored != [] {
      out.BWrite(stored);
    }
    var psz := PadTo(|h + stored|, Padding(f));
    NoZeros();
    if psz != 0 {
      out.BWrite(Zeros(psz));
    }
    assert start + h + stored + Zeros(psz) == start + (h + stored + Zeros(psz));
  }

  lemma NoZeros()
    ensures Zeros(0) == []
  {
  }

  /** The copy loop; the length of the last chunk. */
  method CopyData(out: Output, data: seq<byte>, bufsize: nat) returns (wsz: nat)
    requires out.Valid() && bufsize > 0
    modifies out, out.blkbuf
    ensures out.Valid() && out.Stream() == old(out.Stream()) + data && wsz == LastChunk(|data|, bufsize)
  {
    hide Output.Stream, LastChunk;
    NoChunk(bufsize);
    var remsz: nat := |data|;
    wsz := 0;
    ghost var k: nat := 0;
    while remsz > 0
      invariant out.Valid() && remsz <= |data| && out.Stream() == old(out.Stream()) + data[..|data| - remsz]
      invariant wsz == LastChunk(|data| - remsz, bufsize) && (remsz > 0 ==> |data| - remsz == k * bufsize)
    {
      var at := |data| - remsz;
      var rsz := if bufsize > remsz then remsz else bufsize;
      out.BWrite(data[at..at + rsz]);
      assert data[..at] + data[at..at + rsz] == data[..at + rsz];
      assert old(out.Stream()) + data[..at] + data[at..at + rsz] == old(out.Stream()) + data[..at + rsz];
      Chunk(k, rsz, bufsize);
      remsz, wsz, k := remsz - rsz, rsz, k + 1;
    }
    assert data[..|data|] == data;
  }

  lemma NoChunk(bufsize: nat)
    requires bufsize > 0
    ensures LastChunk(0, bufsize) == 0
  {
  }

  lemma Chunk(k: nat, rsz: nat, bufsize: nat)
    requires 0 < rsz <= bufsize
    ensures LastChunk(k * bufsize + rsz, bufsize) == rsz
    ensures rsz == bufsize ==> k * bufsize + rsz == (k + 1) * bufsize
  {
    SameRest(rsz, k, bufsize);
    NotBelow(k, bufsize);
    LastChunkIs(k * bufsize + rsz, rsz, bufsize);
  }

  lemma NotBelow(k: nat, m: nat)
    ensures k * m >= 0
  {
  }

  lemma LastChunkIs(n: nat, rsz: nat, bufsize: nat)
    requires 0 < rsz <= bufsize && n > 0 && n % bufsize == rsz % bufsize
    ensures LastChunk(n, bufsize) == rsz
  {
  }

  /** addfile. */
  method AddFile(out: Output, f: Format, x: Member, bufsize: nat)
    requires out.Valid() && x.m.size == |x.data| && bufsize > 0
    modifies out, out.blkbuf
    ensures out.Valid() && out.Stream() == old(out.Stream()) + Written(f, x, bufsize)
  {
    hide Output.Stream, HeadBytes, Zeros, StoredName, StoredSize, LastChunk, PadTo, Padding;
    var n := |x.data|;
    ghost var start := out.Stream();
    if Split(f, n) {
      AddSplit(out, f, x, bufsize);
    } else {
      WriteHead(out, f, x.m.(size := StoredSize(f, n)), StoredName(f, x.name, n));
      var wsz := n;
      if FileType(x.m.mode) == 8 {
        wsz := CopyData(out, x.data, bufsize);
      } else {
        out.BWrite(x.data);
      }
      ghost var h := HeadBytes(f, x.m.(size := StoredSize(f, n)), StoredName(f, x.name, n));
      ghost var z := Zeros(PadTo(wsz, Padding(f)));
      out.BWrite(Zeros(PadTo(wsz, Padding(f))));
      assert start + h + x.data + z == start + (h + x.data + z);
    }
  }

  /** A large file for IRIX: two headers, two parts. */
  method AddSplit(out: Output, f: Format, x: Member, bufsize: nat)
    requires out.Valid() && x.m.size == |x.data| && bufsize > 0 && Split(f, |x.data|)
    modifies out, out.blkbuf
    ensures out.Valid() && out.Stream() == old(out.Stream()) + Entry(f, x)
  {
    hide Output.Stream, HeadBytes, Zeros, PadTo, LastChunk, KSize;
    var n := |x.data|;
    var krest := n % K;
    var kbase := n - krest;
    var ksize := KSize(n);
    ghost var start := out.Stream();
    assert kbase == n / K * K;
    WriteHead(out, f, x.m.(size := ksize), x.name + [0]);
    var wsz := CopyData(out, x.data[..kbase], bufsize);
    out.BWrite(Zeros(ksize % 2));
    WriteHead(out, f, x.m.(size := krest), x.name + [0]);
    wsz := CopyData(out, x.data[kbase..], bufsize);
    out.BWrite(Zeros(PadTo(krest, 2)));
    SevenParts(start, HeadBytes(f, x.m.(size := ksize), x.name + [0]), x.data[..kbase], Zeros(ksize % 2),
               HeadBytes(f, x.m.(size := krest), x.name + [0]), x.data[kbase..], Zeros(PadTo(krest, 2)));
  }

  lemma SevenParts(s: seq<byte>, a: seq<byte>, b: seq<byte>, c: seq<byte>, d: seq<byte>, e: seq<byte>, f: seq<byte>)
    ensures s + a + b + c + d + e + f == s + (a + b + c + d + e + f)
  {
  }

  // ---- reading ----

  datatype Headed = Headed(m: Meta, stored: seq<byte>)

  /** readhdr up to the name and its padding. */
  method ReadHdr(inp: Input, f: Format) returns (r: Option<Headed>)
    requires inp.Valid() && inp.peek == []
    modifies inp, inp.blkbuf
    ensures inp.Valid() && inp.peek == []
    ensures ReadRaw(f, old(inp.Ahead())) == if r.None? then None else Some(Raw(r.value.m, r.value.stored, inp.Ahead()))
  {
    hide Input.Ahead, Kinds, TotalWidth, GetAll, HeadOf, Magic, HeaderSize, Padding, MagicCrc, PadTo, ReadRaw, BadHead;
    ghost var s := inp.Ahead();
    var hsz, g := HeaderSize(f), |Magic(f)|;
    SumOfWidths(f);
    var b := inp.BRead(hsz);
    ghost var t := inp.Ahead();
    ByParts(f, b, t);
    if |b| != hsz || (b[..g] != Magic(f) && !(f.Newc? && b[..g] == MagicCrc())) {
      return None;
    }
    var h := HeadOf(f, GetAll(Kinds(f), b[g..]));
    if BadHead(h) {
      return None;
    }
    Sensible(h);
    var stored := inp.BRead(h.namesize);
    assert t[..|stored|] == stored && t[|stored|..] == inp.Ahead();
    assert |t| == |stored| + |inp.Ahead()|;
    if |stored| != h.namesize || stored[h.namesize - 1] != 0 {
      return None;
    }
    var to := PadTo(hsz + h.namesize, Padding(f));
    var junk := inp.BRead(to);
    assert t == stored + (junk + inp.Ahead());
    assert |t| == |stored| + |junk| + |inp.Ahead()|;
    if |junk| != to {
      return None;
    }
    assert t[|stored| + |junk|..] == inp.Ahead();
    r := Some(Headed(h.m, stored));
  }

  predicate BadHead(h: Head) {
    h.m.nlink <= 0 || h.namesize <= 0 || h.namesize >= SANELIMIT
  }

  lemma Sensible(h: Head)
    requires !BadHead(h)
    ensures h.namesize > 0
  {
  }

  /** What follows a header h: the name, and the padding behind it. */
  function AfterHead(f: Format, h: Head, t: seq<byte>): Option<Raw> {
    if BadHead(h) || |t| < h.namesize then None
    else
      var n, pad := h.namesize, PadTo(HeaderSize(f) + h.namesize, Padding(f));
      if t[n - 1] != 0 || |t| < n + pad then None else Some(Raw(h.m, t[..n], t[n + pad..]))
  }

  /** ReadRaw in the steps of the method: the header, then the name. */
  lemma ByParts(f: Format, b: seq<byte>, t: seq<byte>)
    requires |b| <= HeaderSize(f) && (|b| < HeaderSize(f) ==> t == []) && |Magic(f)| <= HeaderSize(f)
    requires HeaderSize(f) == |Magic(f)| + TotalWidth(Kinds(f))
    ensures var hsz, g := HeaderSize(f), |Magic(f)|;
      ReadRaw(f, b + t) ==
      if |b| < hsz || (b[..g] != Magic(f) && !(f.Newc? && b[..g] == MagicCrc())) then None
      else AfterHead(f, HeadOf(f, GetAll(Kinds(f), b[g..])), t)
  {
    hide *;
    var g := |Magic(f)|;
    ReadRawIs(f, b + t);
    if |b| == HeaderSize(f) {
      Sliced(b, t, g);
      GetAllPrefix(Kinds(f), b[g..], t);
    } else {
      assert b + t == b;
    }
  }

  lemma Sliced(b: seq<byte>, t: seq<byte>, g: nat)
    requires g <= |b|
    ensures (b + t)[..g] == b[..g] && (b + t)[g..] == b[g..] + t && (b + t)[|b|..] == t
  {
  }

  /** ReadRaw, spelled out. */
  lemma ReadRawIs(f: Format, s: seq<byte>)
    requires HeaderSize(f) == |Magic(f)| + TotalWidth(Kinds(f))
    ensures var hsz, g := HeaderSize(f), |Magic(f)|;
      ReadRaw(f, s) ==
      if |s| < hsz || (s[..g] != Magic(f) && !(f.Newc? && s[..g] == MagicCrc())) then None
      else AfterHead(f, HeadOf(f, GetAll(Kinds(f), s[g..])), s[hsz..])
  {
    hide Kinds, TotalWidth, GetAll, HeadOf, Magic, HeaderSize, Padding, MagicCrc, PadTo;
    Dropped(s, HeaderSize(f));
  }

  lemma Dropped(s: seq<byte>, h: nat)
    ensures forall n: nat :: h + n <= |s| ==> s[h..][..n] == s[h..h + n] && s[h..][n..] == s[h + n..]
  {
  }

  /** The fields of a header do not depend on what follows it. */
  lemma {:induction false} GetAllPrefix(ks: seq<Kind>, s: seq<byte>, rest: seq<byte>)
    requires |s| >= TotalWidth(ks)
    ensures |s + rest| >= TotalWidth(ks) && GetAll(ks, s + rest) == GetAll(ks, s)
  {
    if ks != [] {
      var w := Width(ks[0]);
      assert (s + rest)[..w] == s[..w] && (s + rest)[w..] == s[w..] + rest;
      GetAllPrefix(ks[1..], s[w..], rest);
    }
  }

  /** The data loop: n bytes in pieces, then the padding. */
  method ReadData(inp: Input, n: int, pad: nat) returns (r: Option<seq<byte>>)
    requires inp.Valid() && inp.peek == [] && pad > 0
    modifies inp, inp.blkbuf
    ensures inp.Valid() && inp.peek == []
    ensures Padded(old(inp.Ahead()), n, pad) == if r.None? then None else Some(Read(r.value, inp.Ahead()))
  {
    hide Input.Ahead, Input.Valid, Padded, PadTo;
    ghost var s := inp.Ahead();
    PaddedIs(s, n, pad);
    if n < 0 {
      return None;
    }
    var d := ReadBytes(inp, n);
    if d.None? {
      return None;
    }
    var to := PadTo(n, pad);
    var junk := inp.BRead(to);
    assert s == d.value + junk + inp.Ahead();
    ThreeParts(d.value, junk, inp.Ahead());
    if |junk| != to {
      return None;
    }
    r := d;
  }

  /** n bytes, in pieces. */
  method ReadBytes(inp: Input, n: nat) returns (r: Option<seq<byte>>)
    requires inp.Valid() && inp.peek == []
    modifies inp, inp.blkbuf
    ensures inp.Valid() && inp.peek == []
    ensures if r.None? then |old(inp.Ahead())| < n else |r.value| == n && old(inp.Ahead()) == r.value + inp.Ahead()
  {
    hide Input.Ahead, Input.Valid;
    ghost var s := inp.Ahead();
    var size: int, data := n, [];
    while size > 0
      invariant inp.Valid() && inp.peek == [] && 0 <= size <= n && |data| == n - size && s == data + inp.Ahead()
    {
      var b := inp.BRead(if size > 4096 then 4096 else size);
      assert s == data + b + inp.Ahead();
      assert |s| == |data| + |b| + |inp.Ahead()|;
      if |b| == 0 {
        assert |inp.Ahead()| == 0;
        return None;
      }
      data, size := data + b, size - |b|;
    }
    r := Some(data);
  }

  lemma PaddedIs(s: seq<byte>, n: int, pad: nat)
    requires pad > 0
    ensures n < 0 ==> Padded(s, n, pad) == None
    ensures n >= 0 ==>
              var to := PadTo(n, pad);
              Padded(s, n, pad) == if |s| < n + to then None else Some(Read(s[..n], s[n + to..]))
  {
    hide PadTo;
  }

  lemma ThreeParts(a: seq<byte>, b: seq<byte>, c: seq<byte>)
    ensures var s := a + b + c; |s| == |a| + |b| + |c| && s[..|a|] == a && s[|a| + |b|..] == c
  {
  }

  /** A file in two parts, after its first header. */
  method ReadParts(inp: Input, f: Format, m: Meta, name: seq<byte>, ghost stored: seq<byte>) returns (r: Option<Member>)
    requires inp.Valid() && inp.peek == [] && f.Bin?
    modifies inp, inp.blkbuf
    ensures inp.Valid() && inp.peek == []
    ensures ReadSplit(f, Raw(m, stored, old(inp.Ahead())), name) ==
            if r.None? then None else Some(Read(r.value, inp.Ahead()))
  {
    hide Input.Ahead, ReadRaw, Padded, IsSplit, ReadSplit;
    ghost var s := inp.Ahead();
    var base, skip := (0x1_0000_0000 - m.size) * K, if m.size % 2 == 0 then 0 else 1;
    SplitSteps(f, Raw(m, stored, s), name, base, skip);
    var d := ReadBase(inp, base, skip);
    if d.None? {
      return None;
    }
    var h := ReadHdr(inp, f);
    if h.None? {
      return None;
    }
    ghost var second := Raw(h.value.m, h.value.stored, inp.Ahead());
    SplitAside(f, second);
    var krest := if IsSplit(f, Raw(h.value.m, h.value.stored, [])) then 0 else h.value.m.size;
    var d2 := ReadData(inp, krest, 2);
    if d2.None? {
      return None;
    }
    r := Some(Member(m.(size := krest + base), name, d.value + d2.value));
  }

  lemma SplitAside(f: Format, r: Raw)
    ensures IsSplit(f, r) == IsSplit(f, r.(rest := []))
  {
  }

  lemma SplitSteps(f: Format, r: Raw, name: seq<byte>, base: int, skip: nat)
    requires f.Bin? && base == (0x1_0000_0000 - r.m.size) * K && skip == if r.m.size % 2 == 0 then 0 else 1
    ensures ReadSplit(f, r, name) ==
      if base < 0 || |r.rest| < base + skip then None
      else
        var second := ReadRaw(f, r.rest[base + skip..]);
        if second.None? then None
        else
          var krest := if IsSplit(f, second.value) then 0 else second.value.m.size;
          var d := Padded(second.value.rest, krest, 2);
          if d.None? then None
          else Some(Read(Member(r.m.(size := krest + base), name, r.rest[..base] + d.value.value), d.value.rest))
  {
    hide ReadRaw, Padded, IsSplit;
  }

  /** The first part and the byte that pads its fake size. */
  method ReadBase(inp: Input, base: int, skip: nat) returns (r: Option<seq<byte>>)
    requires inp.Valid() && inp.peek == []
    modifies inp, inp.blkbuf
    ensures inp.Valid() && inp.peek == []
    ensures var s := old(inp.Ahead());
      if base < 0 || |s| < base + skip then r == None
      else r == Some(s[..base]) && inp.Ahead() == s[base + skip..]
  {
    hide Input.Ahead, PadTo;
    ghost var s := inp.Ahead();
    OneUnit(base);
    var d := ReadData(inp, base, 1);
    if d.None? {
      return None;
    }
    assert inp.Ahead() == s[base..];
    var junk := inp.BRead(skip);
    assert s[base..] == junk + inp.Ahead() && |s| == base + |junk| + |inp.Ahead()|;
    if |junk| != skip {
      return None;
    }
    assert s[base + skip..] == s[base..][skip..];
    r := d;
  }

  lemma OneUnit(n: int)
    ensures n >= 0 ==> PadTo(n, 1) == 0
  {
  }

  method ReadOne(inp: Input, f: Format) returns (r: Option<Member>)
    requires inp.Valid() && inp.peek == []
    modifies inp, inp.blkbuf
    ensures inp.Valid() && inp.peek == []
    ensures ReadMember(f, old(inp.Ahead())) == if r.None? then None else Some(Read(r.value, inp.Ahead()))
  {
    hide Input.Ahead, ReadRaw, Padded, IsSplit, ReadSplit, NoData, HasTag, CString, Trailer;
    var h := ReadHdr(inp, f);
    if h.None? {
      return None;
    }
    ghost var raw := Raw(h.value.m, h.value.stored, inp.Ahead());
    var kept := Raw(h.value.m, h.value.stored, []);
    SplitAside(f, raw);
    var size, name := SizeOf(f, kept), CString(kept.stored);
    if name == Trailer() || NoData(kept.m.mode) {
      r := Some(Member(kept.m.(size := size), name, []));
    } else if IsSplit(f, kept) {
      SplitIsBinary(f, kept);
      r := ReadParts(inp, f, kept.m, name, kept.stored);
    } else {
      var d := ReadData(inp, size, Padding(f));
      r := if d.None? then None else Some(Member(kept.m.(size := size), name, d.value));
    }
  }

  lemma SplitIsBinary(f: Format, r: Raw)
    requires IsSplit(f, r)
    ensures f.Bin?
  {
  }

  /** The read loop, up to the trailer. */
  method ReadAll(inp: Input, f: Format) returns (r: Option<seq<Member>>)
    requires inp.Valid() && inp.peek == []
    modifies inp, inp.blkbuf
    ensures inp.Valid()
    ensures ReadArchive(f, old(inp.Ahead())) == if r.None? then None else Some(Read(r.value, inp.Ahead()))
  {
    hide Input.Ahead, ReadMember, Trailer;
    ghost var s := inp.Ahead();
    var xs := [];
    NoneRead(f, s);
    while true
      invariant inp.Valid() && inp.peek == [] && OnTo(f, s, xs, inp.Ahead())
      decreases |inp.Ahead()|
    {
      ghost var t := inp.Ahead();
      ReadMemberShortens(f, t);
      var x := ReadOne(inp, f);
      OneMember(f, s, xs, t);
      if x.None? {
        return None;
      }
      if x.value.name == Trailer() {
        return Some(xs);
      }
      xs := xs + [x.value];
    }
  }

  /** s starts with the members xs, and t follows. */
  ghost predicate OnTo(f: Format, s: seq<byte>, xs: seq<Member>, t: seq<byte>) {
    ReadArchive(f, s) == Joined(xs, ReadArchive(f, t))
  }

  ghost function Joined(xs: seq<Member>, more: Option<Read<seq<Member>>>): Option<Read<seq<Member>>> {
    if more.None? then None else Some(Read(xs + more.value.value, more.value.rest))
  }

  lemma NoneRead(f: Format, s: seq<byte>)
    ensures OnTo(f, s, [], s)
  {
    hide ReadMember;
    var more := ReadArchive(f, s);
    assert more.Some? ==> [] + more.value.value == more.value.value;
  }

  lemma OneMember(f: Format, s: seq<byte>, xs: seq<Member>, t: seq<byte>)
    requires OnTo(f, s, xs, t)
    ensures var x := ReadMember(f, t);
      if x.None? then ReadArchive(f, s) == None
      else if x.value.value.name == Trailer() then ReadArchive(f, s) == Some(Read(xs, x.value.rest))
      else OnTo(f, s, xs + [x.value.value], x.value.rest)
  {
    hide ReadMember, Trailer;
    var x := ReadMember(f, t);
    ReadMemberShortens(f, t);
    assert xs + [] == xs;
    if x.Some? && x.value.value.name != Trailer() {
      var more := ReadArchive(f, x.value.rest);
      if more.Some? {
        assert xs + ([x.value.value] + more.value.value) == xs + [x.value.value] + more.value.value;
      }
    }
  }

  /** An archive written with one block size and read with another, from any
      device: the members come back the same and in order. */
  method Transfer(fw: Format, fr: Format, xs: seq<Member>, dev: nat, ino: nat, bufsize: nat,
                  wblock: nat, rblock: nat, tapeblock: int, fixed: bool)
    returns (r: Option<seq<Member>>)
    requires Reads(fr, fw) && dev < Narrow(fw) && ino < Narrow(fw) && wblock > 0 && rblock > 0
    requires bufsize > 0 && ChunksFit(fw, bufsize)
    requires forall x :: x in xs ==> x.m.size == |x.data| && Archivable(fw, x)
    ensures r == Some(xs)
  {
    hide Entry, Written, Archivable, ReadArchive, Output.Stream, Input.Ahead, Zeros, ChunksFit;
    var out := new Output(wblock);
    for i := 0 to |xs|
      invariant fresh(out) && fresh(out.blkbuf) && out.Valid() && out.Stream() == Entries(fw, xs[..i])
    {
      assert xs[..i + 1][..i] == xs[..i] && xs[i] in xs;
      Limited(fw, xs[i]);
      WrittenIs(fw, xs[i], bufsize);
      AddFile(out, fw, xs[i], bufsize);
    }
    assert xs[..|xs|] == xs;
    var last := TrailerMember(dev, ino);
    TrailerWritten(fw, dev, ino, bufsize);
    AddFile(out, fw, last, bufsize);
    ghost var s := out.Stream();
    out.BFlush();
    ArchiveBack(fr, fw, xs, dev, ino, Zeros(|out.device| - |s|));
    var inp := new Input(out.device, rblock, tapeblock, fixed);
    r := ReadAll(inp, fr);
  }
}
