/**
 The fake numbers in a whole SVR4 archive: which members carry the numbers of
 link groups, which those of single files, and when the two families meet.
 */
module LinkNumbers {
  import opened Basics
  import opened InodeForest
  import opened LinkSpec

  /** Numbers given to link groups, and to single files. */
  ghost predicate LinkNumber(s: LinkState, d: nat, k: nat) {
    1 <= d <= |s.ts| && 1 <= k <= s.ts[d - 1].cnt
  }

  ghost predicate SingleNumber(s: LinkState, maxino: nat, d: nat, k: nat) {
    d <= FIRSTFAKEDEV && 1 <= k <= maxino && (s.fakedev < d || (s.fakedev == d && s.fakeino < k))
  }

  ghost function Singles(es: seq<Entry>): seq<Entry> {
    if es == [] then []
    else Singles(es[..|es| - 1]) + if IsLink(es[|es| - 1]) then [] else [es[|es| - 1]]
  }

  lemma {:induction false} SinglesConcat(a: seq<Entry>, b: seq<Entry>)
    ensures Singles(a + b) == Singles(a) + Singles(b)
  {
    if b == [] {
      assert a + b == a;
    } else {
      assert (a + b)[..|a + b| - 1] == a + b[..|b| - 1];
      SinglesConcat(a, b[..|b| - 1]);
    }
  }

  lemma {:induction false} NoSingles(es: seq<Entry>)
    requires forall i :: 0 <= i < |es| ==> IsLink(es[i])
    ensures Singles(es) == []
  {
    if es != [] {
      NoSingles(es[..|es| - 1]);
    }
  }

  /** The counters after n single files. */
  ghost predicate Counted(s: LinkState, n: nat, maxino: nat)
    requires maxino > 0
  {
    s.fakeino <= maxino && (FIRSTFAKEDEV - s.fakedev) * maxino + (maxino - s.fakeino) == n && s.fakedev <= FIRSTFAKEDEV
    && (n > 0 ==> s.fakeino < maxino)
  }

  lemma ProductSign(d: int, m: int)
    requires m >= 0
    ensures d >= 1 ==> d * m >= m
    ensures d <= -1 ==> d * m <= -m
  {
  }

  /** Division with remainder is unique. */
  lemma Divided(q: nat, r: nat, m: nat)
    requires r < m
    ensures (q * m + r) / m == q && (q * m + r) % m == r
  {
    var n := q * m + r;
    var a, b := n / m, n % m;
    assert n == m * a + b;
    ProductSign(a - q, m);
    assert (a - q) * m == r - b;
  }

  lemma SingleStep(s: LinkState, f: Named, n: nat, maxino: nat)
    requires maxino > 0 && Counted(s, n, maxino) && !Linked(f.st) && OutSingle(s, f, maxino).Out?
    ensures var o := OutSingle(s, f, maxino);
      && Counted(o.s, n + 1, maxino) && |o.es| == 1 && !IsLink(o.es[0])
      && o.es[0].dev == FIRSTFAKEDEV - n / maxino && o.es[0].ino == maxino - n % maxino
  {
    var q, r := FIRSTFAKEDEV - s.fakedev, maxino - s.fakeino;
    if s.fakeino == 0 {
      assert (q + 1) * maxino == q * maxino + maxino;
      Divided(q + 1, 0, maxino);
    } else {
      Divided(q, r, maxino);
    }
  }

  /** The n-th single file gets device 0177777 - (n-1)/maxino and inode
      maxino - (n-1)%maxino. */
  lemma {:induction false} SingleNumbers(fs: seq<Named>, maxino: nat)
    requires maxino > 0 && Run(fs, maxino).Out?
    ensures var o := Run(fs, maxino); var ss := Singles(o.es);
      Counted(o.s, |ss|, maxino) &&
      forall i :: 0 <= i < |ss| ==> ss[i].dev == FIRSTFAKEDEV - i / maxino && ss[i].ino == maxino - i % maxino
  {
    hide *;
    if fs == [] {
      ZeroTimes(maxino);
      NoRun(maxino);
      NoSingles([]);
    } else {
      var n := |fs| - 1;
      RunLast(fs, maxino);
      SingleNumbers(fs[..n], maxino);
      var b := Run(fs[..n], maxino);
      var now := OutFile(b.s, fs[n], maxino);
      SinglesConcat(b.es, now.es);
      Kind(b.s, fs[n], maxino);
      if Linked(fs[n].st) {
        LinkSingles(b.s, fs[n], maxino, |Singles(b.es)|);
      } else {
        SingleStep(b.s, fs[n], |Singles(b.es)|, maxino);
        OneSingle(now.es);
      }
    }
  }

  lemma NoRun(maxino: nat)
    requires maxino > 0
    ensures Run([], maxino) == Out(LinkState([], FIRSTFAKEDEV, maxino, 1), [])
  {
  }

  lemma Kind(s: LinkState, f: Named, maxino: nat)
    requires maxino > 0
    ensures OutFile(s, f, maxino) == if Linked(f.st) then OutLink(s, f, maxino) else OutSingle(s, f, maxino)
  {
  }

  lemma ZeroTimes(maxino: nat)
    requires maxino > 0
    ensures Counted(LinkState([], FIRSTFAKEDEV, maxino, 1), 0, maxino)
  {
  }

  lemma OneSingle(es: seq<Entry>)
    requires |es| == 1 && !IsLink(es[0])
    ensures Singles(es) == es
  {
    assert es[..0] == [];
  }

  lemma ReleasedSingles(p: Info, f: Named, dev: nat)
    requires Linked(f.st)
    ensures Singles(Released(p, f, dev)) == []
  {
    HeadersShape(p.lnk, f.st, dev, p.fino);
    NoSingles(Released(p, f, dev));
  }

  lemma LinkSingles(s: LinkState, f: Named, maxino: nat, n: nat)
    requires maxino > 0 && Linked(f.st) && OutLink(s, f, maxino).Out? && Counted(s, n, maxino)
    ensures Singles(OutLink(s, f, maxino).es) == [] && Counted(OutLink(s, f, maxino).s, n, maxino)
  {
    hide Released, Singles, Updated, Present, Locate;
    var r := Locate(s.ts, f.st.dev, f.st.ino, maxino, 0);
    ReleasedSingles(Present(s.ts, f.st, r), f, r + 1);
  }

  lemma {:induction false} SlotsBelow(fs: seq<Named>, maxino: nat)
    requires maxino > 0 && Run(fs, maxino).Out?
    ensures |Run(fs, maxino).s.ts| < FIRSTFAKEDEV
  {
    if fs != [] {
      SlotsBelow(fs[..|fs| - 1], maxino);
      SingleNumbers(fs[..|fs| - 1], maxino);
    }
  }

  ghost predicate Apart(s: LinkState) {
    var n := |s.ts|;
    n == 0 || n < s.fakedev || (n == s.fakedev && s.ts[n - 1].cnt <= s.fakeino)
  }

  /** The two intervals of numbers. */
  lemma IntervalsApart(s: LinkState, maxino: nat, n: nat)
    requires maxino > 0 && Inv(s.ts, maxino) && |s.ts| < FIRSTFAKEDEV && Counted(s, n, maxino)
    ensures (forall d, k :: LinkNumber(s, d, k) ==> !SingleNumber(s, maxino, d, k)) <==> Apart(s)
  {
    var d := |s.ts|;
    if d > 0 {
      var c := s.ts[d - 1].cnt;
      assert TableOk(s.ts[d - 1], d - 1, maxino);
      if s.fakedev < d {
        assert LinkNumber(s, d, 1) && SingleNumber(s, maxino, d, 1);
      } else if s.fakedev == d && c > s.fakeino {
        assert LinkNumber(s, d, c) && SingleNumber(s, maxino, d, c);
      }
    }
  }

  /** A whole archive: a run and the flush of all its slots. */
  ghost predicate IsArchive(fs: seq<Named>, maxino: nat, orders: seq<seq<nat>>, es: seq<Entry>) {
    && maxino > 0 && Run(fs, maxino).Out?
    && var o := Run(fs, maxino);
       |orders| == |o.s.ts| && AllList(orders, o.s.ts) && es == o.es + FlushAll(o.s.ts, orders)
  }

  /** Some member of the archive has this number: a link, or a single file. */
  ghost predicate LinkIn(es: seq<Entry>, d: nat, k: nat) {
    exists i :: 0 <= i < |es| && IsLink(es[i]) && es[i].dev == d && es[i].ino == k
  }

  ghost predicate SingleIn(es: seq<Entry>, d: nat, k: nat) {
    exists i :: 0 <= i < |es| && !IsLink(es[i]) && es[i].dev == d && es[i].ino == k
  }

  lemma {:induction false} SomeName(es: seq<Entry>, d: nat, k: nat)
    requires NamesOf(es, d, k) != []
    ensures LinkIn(es, d, k)
  {
    if !LinkIn(es, d, k) {
      NamesOfNone(es, d, k);
    }
  }

  /** The links of an archive carry exactly the numbers given out. */
  lemma LinksCarry(fs: seq<Named>, maxino: nat, orders: seq<seq<nat>>, es: seq<Entry>, d: nat, k: nat)
    requires IsArchive(fs, maxino, orders, es)
    ensures LinkIn(es, d, k) <==> LinkNumber(Run(fs, maxino).s, d, k)
  {
    hide Run, FlushAll, Inv, PlaceOf, NamesOf, Given;
    var o := Run(fs, maxino);
    RunKeeps(fs, maxino);
    FlushLinks(o.s.ts, maxino, orders);
    IssuedConcat(o.s.ts, o.es, FlushAll(o.s.ts, orders));
    if LinkNumber(o.s, d, k) {
      var e := Entry("", d, k, 0, 0, false);
      NumberHeld(o.s.ts, maxino, e);
      var dev, ino :| Carries(o.s.ts, e, dev, ino);
      AllWritten(fs, maxino, orders, dev, ino);
      PlacedGiven(fs, maxino, dev, ino);
      SomeName(es, d, k);
    }
  }

  /** Singles keeps exactly the members that are not links. */
  lemma {:induction false} SinglesHave(es: seq<Entry>, e: Entry)
    ensures e in Singles(es) <==> e in es && !IsLink(e)
  {
    if es != [] {
      var n := |es| - 1;
      SinglesHave(es[..n], e);
      assert es == es[..n] + [es[n]];
    }
  }

  /** The i-th single number, and which one a number is. */
  lemma SingleIndex(s: LinkState, maxino: nat, n: nat, d: nat, k: nat)
    requires maxino > 0 && Counted(s, n, maxino) && d <= FIRSTFAKEDEV && 1 <= k <= maxino
    ensures var i := (FIRSTFAKEDEV - d) * maxino + (maxino - k);
      && 0 <= i && (i < n <==> SingleNumber(s, maxino, d, k))
      && i / maxino == FIRSTFAKEDEV - d && i % maxino == maxino - k
  {
    var q, r := FIRSTFAKEDEV - d, maxino - k;
    var a, b := FIRSTFAKEDEV - s.fakedev, maxino - s.fakeino;
    ProductSign(q, maxino);
    Divided(q, r, maxino);
    ProductSign(a - q, maxino);
    assert (a - q) * maxino == a * maxino - q * maxino;
  }

  lemma IndexNumber(s: LinkState, maxino: nat, n: nat, i: nat, d: nat, k: nat)
    requires maxino > 0 && Counted(s, n, maxino) && i < n && d == FIRSTFAKEDEV - i / maxino && k == maxino - i % maxino
    ensures SingleNumber(s, maxino, d, k)
  {
    SingleIndex(s, maxino, n, d, k);
    assert i == i / maxino * maxino + i % maxino;
  }

  /** The single files of an archive carry exactly the numbers counted down. */
  lemma SinglesCarry(fs: seq<Named>, maxino: nat, orders: seq<seq<nat>>, es: seq<Entry>, d: nat, k: nat)
    requires IsArchive(fs, maxino, orders, es)
    ensures SingleIn(es, d, k) <==> SingleNumber(Run(fs, maxino).s, maxino, d, k)
  {
    hide *;
    ArchiveIs(fs, maxino, orders, es);
    var o := Run(fs, maxino);
    SingleNumbers(fs, maxino);
    var ss := Singles(o.es);
    SinglesIn(o.es, FlushAll(o.s.ts, orders), d, k);
    SinglesAt(o.s, maxino, ss, d, k);
  }

  /** Members numbered in turn carry exactly the numbers counted down. */
  lemma SinglesAt(s: LinkState, maxino: nat, ss: seq<Entry>, d: nat, k: nat)
    requires maxino > 0 && Counted(s, |ss|, maxino)
    requires forall i :: 0 <= i < |ss| ==> ss[i].dev == FIRSTFAKEDEV - i / maxino && ss[i].ino == maxino - i % maxino
    ensures (exists i :: 0 <= i < |ss| && ss[i].dev == d && ss[i].ino == k) <==> SingleNumber(s, maxino, d, k)
  {
    hide *;
    if i :| 0 <= i < |ss| && ss[i].dev == d && ss[i].ino == k {
      IndexNumber(s, maxino, |ss|, i, d, k);
    }
    if SingleNumber(s, maxino, d, k) {
      SingleRange(s, maxino, d, k);
      SingleIndex(s, maxino, |ss|, d, k);
      var i := (FIRSTFAKEDEV - d) * maxino + (maxino - k);
      assert ss[i].dev == d && ss[i].ino == k;
    }
  }

  lemma ArchiveIs(fs: seq<Named>, maxino: nat, orders: seq<seq<nat>>, es: seq<Entry>)
    requires IsArchive(fs, maxino, orders, es)
    ensures var o := Run(fs, maxino);
      && maxino > 0 && o.Out? && AllList(orders, o.s.ts) && es == o.es + FlushAll(o.s.ts, orders)
      && forall i :: 0 <= i < |FlushAll(o.s.ts, orders)| ==> IsLink(FlushAll(o.s.ts, orders)[i])
  {
    hide Run, FlushAll, AllList, Inv;
    RunKeeps(fs, maxino);
    FlushLinks(Run(fs, maxino).s.ts, maxino, orders);
  }

  lemma SingleRange(s: LinkState, maxino: nat, d: nat, k: nat)
    requires SingleNumber(s, maxino, d, k)
    ensures d <= FIRSTFAKEDEV && 1 <= k <= maxino
  {
  }

  /** Members with a number that are not links, among those written before links only. */
  lemma SinglesIn(a: seq<Entry>, b: seq<Entry>, d: nat, k: nat)
    requires forall i :: 0 <= i < |b| ==> IsLink(b[i])
    ensures var ss := Singles(a);
      SingleIn(a + b, d, k) <==> exists i :: 0 <= i < |ss| && ss[i].dev == d && ss[i].ino == k
  {
    var es, ss := a + b, Singles(a);
    if SingleIn(es, d, k) {
      var i :| 0 <= i < |es| && !IsLink(es[i]) && es[i].dev == d && es[i].ino == k;
      assert i < |a| && es[i] == a[i];
      SinglesHave(a, es[i]);
      var j :| 0 <= j < |ss| && ss[j] == es[i];
    }
    if i :| 0 <= i < |ss| && ss[i].dev == d && ss[i].ino == k {
      SinglesHave(a, ss[i]);
      var j :| 0 <= j < |a| && a[j] == ss[i];
      assert es[j] == a[j];
    }
  }

  /** No link of an archive has the number of a single file in it. */
  ghost predicate NoShared(es: seq<Entry>) {
    forall i, j :: 0 <= i < |es| && 0 <= j < |es| && IsLink(es[i]) && !IsLink(es[j]) ==>
      es[i].dev != es[j].dev || es[i].ino != es[j].ino
  }

  /** In any archive no link shares its number with a single file exactly while
      the single-file device lies above all slots, or on the last slot with
      enough inodes left. */
  lemma FamiliesApart(fs: seq<Named>, maxino: nat, orders: seq<seq<nat>>, es: seq<Entry>)
    requires IsArchive(fs, maxino, orders, es)
    ensures NoShared(es) <==> Apart(Run(fs, maxino).s)
  {
    hide Run, IsArchive, LinkNumber, SingleNumber, Apart;
    ArchiveIs(fs, maxino, orders, es);
    var s := Run(fs, maxino).s;
    forall d, k ensures LinkIn(es, d, k) <==> LinkNumber(s, d, k) {
      LinksCarry(fs, maxino, orders, es, d, k);
    }
    forall d, k ensures SingleIn(es, d, k) <==> SingleNumber(s, maxino, d, k) {
      SinglesCarry(fs, maxino, orders, es, d, k);
    }
    RunKeeps(fs, maxino);
    SlotsBelow(fs, maxino);
    SingleNumbers(fs, maxino);
    SharedNumbers(es, s, maxino, |Singles(Run(fs, maxino).es)|);
  }

  /** When members carry exactly the numbers given out. */
  lemma SharedNumbers(es: seq<Entry>, s: LinkState, maxino: nat, n: nat)
    requires maxino > 0 && Inv(s.ts, maxino) && |s.ts| < FIRSTFAKEDEV && Counted(s, n, maxino)
    requires forall d, k :: LinkIn(es, d, k) <==> LinkNumber(s, d, k)
    requires forall d, k :: SingleIn(es, d, k) <==> SingleNumber(s, maxino, d, k)
    ensures NoShared(es) <==> Apart(s)
  {
    hide Inv, Counted, LinkNumber, SingleNumber, Apart;
    IntervalsApart(s, maxino, n);
    if NoShared(es) {
      forall d, k | LinkNumber(s, d, k) ensures !SingleNumber(s, maxino, d, k) {
        assert LinkIn(es, d, k);
      }
    } else {
      var i, j :| 0 <= i < |es| && 0 <= j < |es| && IsLink(es[i]) && !IsLink(es[j]) &&
                  es[i].dev == es[j].dev && es[i].ino == es[j].ino;
      assert LinkIn(es, es[i].dev, es[i].ino) && SingleIn(es, es[i].dev, es[i].ino);
    }
  }

  /** harddev is the last slot used, not the greatest, so the guard does not
      keep the families apart: two devices, the first one used last, and
      enough single files.  The archive has a link and a single file with the
      same device and inode. */
  lemma GuardTooWeak(maxino: nat) returns (fs: seq<Named>, orders: seq<seq<nat>>, es: seq<Entry>, i: nat, j: nat)
    requires maxino > 0
    ensures IsArchive(fs, maxino, orders, es) && i < |es| && j < |es|
    ensures IsLink(es[i]) && !IsLink(es[j]) && es[i].dev == es[j].dev && es[i].ino == es[j].ino
  {
    fs := Crowd(65534 * maxino, maxino);
    var o := Run(fs, maxino);
    Full(o.s, maxino);
    orders := [[0], [0]];
    assert AllList(orders, o.s.ts);
    es := o.es + FlushAll(o.s.ts, orders);
    FamiliesApart(fs, maxino, orders, es);
    i, j :| 0 <= i < |es| && 0 <= j < |es| && IsLink(es[i]) && !IsLink(es[j]) &&
            es[i].dev == es[j].dev && es[i].ino == es[j].ino;
  }

  lemma Full(s: LinkState, maxino: nat)
    requires maxino > 0 && Counted(s, 65534 * maxino, maxino)
    ensures s.fakedev < 2 || (s.fakedev == 2 && s.fakeino == 0)
  {
    if s.fakedev >= 2 {
      assert (FIRSTFAKEDEV - s.fakedev) * maxino == 65533 * maxino - (s.fakedev - 2) * maxino;
      ProductSign(s.fakedev - 2, maxino);
    }
  }

  ghost function Pair(dev: nat): Named {
    Named("", Stat(dev, 0, 2, 0, false))
  }

  lemma RunStep(fs: seq<Named>, f: Named, maxino: nat)
    requires maxino > 0 && Run(fs, maxino).Out?
    ensures var b := Run(fs, maxino); var now := OutFile(b.s, f, maxino);
      Run(fs + [f], maxino) == if now.Fatal? then Fatal else Out(now.s, b.es + now.es)
  {
    assert (fs + [f])[..|fs|] == fs;
  }

  /** Two slots with one file each. */
  ghost predicate TwoSlots(s: LinkState) {
    |s.ts| == 2 && s.ts[1].cnt == 1 && s.ts[0].files.Keys == {0} && s.ts[1].files.Keys == {0}
  }

  lemma TwoDevices(maxino: nat)
    requires maxino > 0
    ensures var o := Run([Pair(1)] + [Pair(2)] + [Pair(1)], maxino);
      o.Out? && TwoSlots(o.s) && o.s.harddev == 1 && Counted(o.s, 0, maxino)
  {
    assert [] + [Pair(1)] == [Pair(1)];
    RunStep([], Pair(1), maxino);
    RunStep([Pair(1)], Pair(2), maxino);
    RunStep([Pair(1)] + [Pair(2)], Pair(1), maxino);
    NoRun(maxino);
    hide Run, OutLink, Counted;
    FirstPair(maxino);
    SecondPair(maxino);
    ThirdPair(maxino);
    ZeroTimes(maxino);
  }

  /** A slot with one name collected for its one file. */
  ghost function PairTable(d: nat): Table {
    Table(d, d, 1, map[0 := Info(1, 1, [""], Some(Pair(d).st), "")])
  }

  lemma FirstPair(maxino: nat)
    requires maxino > 0
    ensures var s := LinkState([], FIRSTFAKEDEV, maxino, 1);
      OutLink(s, Pair(1), maxino) == Out(s.(ts := [PairTable(1)]), [])
  {
    var c := Collected(Present([], Pair(1).st, 0), Pair(1));
    assert c == Info(1, 1, [""], Some(Pair(1).st), "");
    assert Updated([], 1, 0, 0, c) == [PairTable(1)];
  }

  lemma SecondPair(maxino: nat)
    requires maxino > 0
    ensures var s := LinkState([PairTable(1)], FIRSTFAKEDEV, maxino, 1);
      OutLink(s, Pair(2), maxino) == Out(s.(ts := [PairTable(1), PairTable(2)], harddev := 2), [])
  {
    var a, b := PairTable(1), PairTable(2);
    assert a == Table(1, 1, 1, map[0 := Info(1, 1, [""], Some(Pair(1).st), "")]);
    assert b == Table(2, 2, 1, map[0 := Info(1, 1, [""], Some(Pair(2).st), "")]);
    assert Locate([a], 2, 0, maxino, 0) == 1;
    var c := Collected(Present([a], Pair(2).st, 1), Pair(2));
    assert c == Info(1, 1, [""], Some(Pair(2).st), "");
    assert Updated([a], 2, 0, 1, c) == [a, b];
  }

  lemma ThirdPair(maxino: nat)
    requires maxino > 0
    ensures var o := OutLink(LinkState([PairTable(1), PairTable(2)], FIRSTFAKEDEV, maxino, 2), Pair(1), maxino);
      && o.Out? && TwoSlots(o.s) && o.s.harddev == 1 && o.s.fakedev == FIRSTFAKEDEV && o.s.fakeino == maxino
      && Counted(o.s, 0, maxino)
  {
    var a, b := PairTable(1), PairTable(2);
    assert a == Table(1, 1, 1, map[0 := Info(1, 1, [""], Some(Pair(1).st), "")]);
    assert b == Table(2, 2, 1, map[0 := Info(1, 1, [""], Some(Pair(2).st), "")]);
    assert Locate([a, b], 1, 0, maxino, 0) == 0;
    var c := Collected(Present([a, b], Pair(1).st, 0), Pair(1));
    assert Updated([a, b], 1, 0, 0, c) == [Table(1, 1, 1, a.files[0 := c]), b];
    ZeroTimes(maxino);
  }

  lemma {:induction false} Crowd(n: nat, maxino: nat) returns (fs: seq<Named>)
    requires maxino > 0 && n <= 65534 * maxino
    ensures Run(fs, maxino).Out?
    ensures var s := Run(fs, maxino).s; TwoSlots(s) && s.harddev == 1 && Counted(s, n, maxino)
  {
    if n == 0 {
      fs := [Pair(1)] + [Pair(2)] + [Pair(1)];
      TwoDevices(maxino);
    } else {
      fs := Crowd(n - 1, maxino);
      var f := Named("", Stat(0, 0, 1, 0, false));
      var s := Run(fs, maxino).s;
      RunStep(fs, f, maxino);
      if s.fakeino == 0 {
        RoomLeft(s, n - 1, maxino);
      }
      SingleStep(s, f, n - 1, maxino);
      fs := fs + [f];
    }
  }

  lemma RoomLeft(s: LinkState, n: nat, maxino: nat)
    requires maxino > 0 && Counted(s, n, maxino) && n < 65534 * maxino && s.fakeino == 0
    ensures s.fakedev > 2
  {
    ProductSign(2 - s.fakedev, maxino);
    assert (FIRSTFAKEDEV + 1 - s.fakedev) * maxino == 65534 * maxino + (2 - s.fakedev) * maxino;
    assert (FIRSTFAKEDEV + 1 - s.fakedev) * maxino == (FIRSTFAKEDEV - s.fakedev) * maxino + maxino;
  }

  // ---- when the numbers run out ----

  ghost predicate NoLinks(fs: seq<Named>) {
    forall i :: 0 <= i < |fs| ==> !Linked(fs[i].st)
  }

  /** Only single files: the slots are unused, and the counters have passed one
      number for every file. */
  lemma SingleOut(s: LinkState, f: Named, n: nat, maxino: nat)
    requires maxino > 0 && Counted(s, n, maxino) && s.harddev == 1 && s.fakedev >= 2 && !Linked(f.st)
    ensures var o := OutSingle(s, f, maxino);
      if n < 65534 * maxino then o.Out? && Counted(o.s, n + 1, maxino) && o.s.harddev == 1 && o.s.fakedev >= 2 else o.Fatal?
  {
    var q, r := FIRSTFAKEDEV - s.fakedev, maxino - s.fakeino;
    if s.fakeino == 0 {
      assert (q + 1) * maxino == q * maxino + maxino;
    }
    if OutSingle(s, f, maxino).Out? {
      SingleStep(s, f, n, maxino);
    }
    Rows(q, r, maxino);
  }

  lemma Rows(q: nat, r: nat, maxino: nat)
    requires maxino > 0 && q <= 65533 && r <= maxino
    ensures q * maxino + r < 65534 * maxino <==> q < 65533 || r < maxino
  {
    if q < 65533 {
      ProductSign(65533 - q, maxino);
      assert (65533 - q) * maxino == 65533 * maxino - q * maxino;
    }
  }

  /** Without links an archive ends in an error exactly when it is to hold more
      than 65534 * maxino files: the numbers of the devices 65535 down to 2. */
  lemma {:induction false} SinglesFatal(fs: seq<Named>, maxino: nat)
    requires maxino > 0 && NoLinks(fs)
    ensures Run(fs, maxino).Fatal? <==> |fs| > 65534 * maxino
    ensures Run(fs, maxino).Out? ==>
              Counted(Run(fs, maxino).s, |fs|, maxino) && Run(fs, maxino).s.harddev == 1 && Run(fs, maxino).s.fakedev >= 2
  {
    if fs == [] {
      ZeroTimes(maxino);
    } else {
      hide Counted, OutSingle, Linked;
      var n := |fs| - 1;
      SinglesFatal(fs[..n], maxino);
      var b := Run(fs[..n], maxino);
      if b.Out? {
        SingleOut(b.s, fs[n], n, maxino);
      }
    }
  }

  /** Links to files on different devices. */
  ghost predicate OneEach(fs: seq<Named>) {
    (forall i :: 0 <= i < |fs| ==> Linked(fs[i].st)) && forall i, j :: 0 <= i < j < |fs| ==> fs[i].st.dev != fs[j].st.dev
  }

  ghost predicate SlotEach(s: LinkState, fs: seq<Named>) {
    |s.ts| == |fs| && s.fakedev == 65535 && forall i :: 0 <= i < |fs| ==> s.ts[i].dev == fs[i].st.dev
  }

  lemma {:induction false} NoSlot(ts: seq<Table>, dev: nat, i: nat)
    requires i <= |ts| && forall j :: 0 <= j < |ts| ==> ts[j].dev != dev
    ensures DevFrom(ts, dev, i) == |ts|
    decreases |ts| - i
  {
    if i < |ts| {
      NoSlot(ts, dev, i + 1);
    }
  }

  lemma SlotOut(s: LinkState, f: Named, fs: seq<Named>, maxino: nat)
    requires maxino > 0 && SlotEach(s, fs) && OneEach(fs + [f])
    ensures Linked(f.st)
    ensures var o := OutLink(s, f, maxino); if |fs| < 65534 then o.Out? && SlotEach(o.s, fs + [f]) else o.Fatal?
  {
    assert (fs + [f])[|fs|] == f;
    forall j | 0 <= j < |s.ts| ensures s.ts[j].dev != f.st.dev {
      assert (fs + [f])[j] == fs[j];
    }
    NoSlot(s.ts, f.st.dev, 0);
    hide Collected, Present, Released, DevFrom;
    assert Locate(s.ts, f.st.dev, f.st.ino, maxino, 0) == |s.ts|;
  }

  /** Links to files on different devices: an error exactly when there are more
      than 65534 of them, one slot for each. */
  lemma {:induction false} DevicesFatal(fs: seq<Named>, maxino: nat)
    requires maxino > 0 && OneEach(fs)
    ensures Run(fs, maxino).Fatal? <==> |fs| > 65534
    ensures Run(fs, maxino).Out? ==> SlotEach(Run(fs, maxino).s, fs)
  {
    if fs != [] {
      hide OutLink, Linked, SlotEach;
      var n := |fs| - 1;
      DevicesFatal(fs[..n], maxino);
      assert fs == fs[..n] + [fs[n]];
      var b := Run(fs[..n], maxino);
      if b.Out? {
        SlotOut(b.s, fs[n], fs[..n], maxino);
      }
    }
  }
}
