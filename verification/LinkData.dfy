/**
 The data of linked files, as a caller of outfile sees it: which of the given
 files end a group, and how many bytes the archive therefore holds for a file.
 The account of a file is kept from the statuses given for it alone, without
 slots, numbers or nodes.
 */
module LinkData {
  import opened Basics
  import opened InodeForest
  import opened LinkSpec
  import opened LinkNumbers
  import opened LinkReadSpec

  /** Names outstanding in the open group of a file, the status that opened it,
      and the data written for the file so far. */
  datatype Account = Account(left: nat, first: Option<Stat>, data: nat)

  /** One more link: the first of a group says how many there will be, the last
      one brings its own data. */
  function Told(a: Account, st: Stat): Account
    requires st.nlink > 1
  {
    if a.left == 0 then Account(st.nlink - 1, Some(st), a.data)
    else if a.left == 1 then Account(0, None, a.data + st.size)
    else a.(left := a.left - 1)
  }

  predicate LinkTo(f: Named, dev: nat, ino: nat) {
    Linked(f.st) && f.st.dev == dev && f.st.ino == ino
  }

  function AccountOf(fs: seq<Named>, dev: nat, ino: nat): Account {
    if fs == [] then Account(0, None, 0)
    else
      var a, f := AccountOf(fs[..|fs| - 1], dev, ino), fs[|fs| - 1];
      if LinkTo(f, dev, ino) then Told(a, f.st) else a
  }

  // ---- what one call adds ----

  lemma {:induction false} DataOfConcat(a: seq<Entry>, b: seq<Entry>, d: nat, k: nat)
    ensures DataOf(a + b, d, k) == DataOf(a, d, k) + DataOf(b, d, k)
  {
    if b == [] {
      assert a + b == a;
    } else {
      assert (a + b)[..|a + b| - 1] == a + b[..|b| - 1];
      DataOfConcat(a, b[..|b| - 1], d, k);
    }
  }

  /** Only members with a size and the number add data. */
  lemma {:induction false} NoData(es: seq<Entry>, d: nat, k: nat)
    requires forall i :: 0 <= i < |es| && Mine(es[i], d, k) ==> es[i].size == 0
    ensures DataOf(es, d, k) == 0
  {
    if es != [] {
      NoData(es[..|es| - 1], d, k);
    }
  }

  lemma OneData(e: Entry, d: nat, k: nat)
    ensures DataOf([e], d, k) == if Mine(e, d, k) then e.size else 0
  {
    assert [e][..0] == [];
  }

  lemma GroupData(names: seq<string>, last: string, st: Stat, dev: nat, ino: nat, d: nat, k: nat)
    requires Linked(st)
    ensures DataOf(Group(names, last, st, dev, ino), d, k) == if d == dev && k == ino then st.size else 0
  {
    hide DataOf, Headers, Header, Linked, IsLink, NamesOf;
    HeadersShape(names, st, dev, ino);
    LinkHeader(last, st, dev, ino, false);
    var hs, h := Headers(names, st, dev, ino), Header(last, st, dev, ino, false);
    DataOfConcat(hs, [h], d, k);
    OneData(h, d, k);
    NoData(hs, d, k);
  }

  lemma NoEntries(d: nat, k: nat)
    ensures DataOf([], d, k) == 0
  {
  }

  /** A number about to be given out has no data yet. */
  lemma UnissuedData(ts: seq<Table>, es: seq<Entry>, st: Stat, r: nat, maxino: nat)
    requires Inv(ts, maxino) && maxino > 0 && Issued(ts, es)
    requires Chosen(ts, st.dev, st.ino, r, maxino) && Linked(st) && PlaceOf(ts, st.dev, st.ino).Nowhere?
    ensures DataOf(es, r + 1, Present(ts, st, r).fino) == 0
  {
    PresentIs(ts, st, r, maxino);
    NoData(es, r + 1, Present(ts, st, r).fino);
  }

  /** What the archive and the slots say about a file, as an account. */
  ghost function AccountAt(ts: seq<Table>, es: seq<Entry>, dev: nat, ino: nat): Account {
    var q := PlaceOf(ts, dev, ino);
    if q.Nowhere? then Account(0, None, 0)
    else Account(q.info.nlk, q.info.st, DataOf(es, q.slot + 1, q.info.fino))
  }

  lemma CollectedTells(p: Info, f: Named, dev: nat, data: nat)
    requires Linked(f.st)
    ensures var c := Collected(p, f);
      c.fino == p.fino &&
      Account(c.nlk, c.st, data + DataOf(Released(p, f, dev), dev, p.fino)) == Told(Account(p.nlk, p.st, data), f.st)
  {
    hide DataOf, Group;
    NoEntries(dev, p.fino);
    GroupData(p.lnk, f.name, f.st, dev, p.fino, dev, p.fino);
  }

  lemma OtherData(p: Info, f: Named, dev: nat, d: nat, k: nat)
    requires Linked(f.st) && (d != dev || k != p.fino)
    ensures DataOf(Released(p, f, dev), d, k) == 0
  {
    hide DataOf, Group;
    NoEntries(d, k);
    GroupData(p.lnk, f.name, f.st, dev, p.fino, d, k);
  }

  /** A new file starts an account of its own. */
  lemma PresentTells(ts: seq<Table>, es: seq<Entry>, f: Named, r: nat, maxino: nat)
    requires Inv(ts, maxino) && maxino > 0 && Issued(ts, es)
    requires Chosen(ts, f.st.dev, f.st.ino, r, maxino) && Linked(f.st)
    ensures var p := Present(ts, f.st, r); var a := AccountAt(ts, es, f.st.dev, f.st.ino);
      Told(Account(p.nlk, p.st, DataOf(es, r + 1, p.fino)), f.st) == Told(a, f.st)
  {
    hide Inv, Issued, DataOf, PlaceOf, Present, Chosen;
    PresentIs(ts, f.st, r, maxino);
    if PlaceOf(ts, f.st.dev, f.st.ino).Nowhere? {
      UnissuedData(ts, es, f.st, r, maxino);
    }
  }

  lemma LinkAccounts(s: LinkState, f: Named, maxino: nat, es: seq<Entry>, dev: nat, ino: nat)
    requires Keeps(s, es, maxino) && Linked(f.st) && OutLink(s, f, maxino).Out?
    ensures var o := OutLink(s, f, maxino); var a := AccountAt(s.ts, es, dev, ino);
      AccountAt(o.s.ts, es + o.es, dev, ino) == if LinkTo(f, dev, ino) then Told(a, f.st) else a
  {
    hide Locate, Chosen, Present, Inv, Issued, Updated, PlaceOf, DataOf, Collected, Released, Told;
    var r := Locate(s.ts, f.st.dev, f.st.ino, maxino, 0);
    LocateChooses(s.ts, f.st.dev, f.st.ino, maxino);
    var p := Present(s.ts, f.st, r);
    var out := Released(p, f, r + 1);
    UpdatedPlaces(s.ts, f.st.dev, f.st.ino, r, Collected(p, f), maxino, dev, ino);
    if LinkTo(f, dev, ino) {
      DataOfConcat(es, out, r + 1, p.fino);
      CollectedTells(p, f, r + 1, DataOf(es, r + 1, p.fino));
      PresentTells(s.ts, es, f, r, maxino);
    } else {
      var q := PlaceOf(s.ts, dev, ino);
      if q.At? {
        NumbersApart(s.ts, f.st, r, maxino, dev, ino);
        OtherData(p, f, r + 1, q.slot + 1, q.info.fino);
        DataOfConcat(es, out, q.slot + 1, q.info.fino);
      }
    }
  }

  lemma SingleAccounts(s: LinkState, f: Named, maxino: nat, es: seq<Entry>, dev: nat, ino: nat)
    requires maxino > 0 && !Linked(f.st) && OutSingle(s, f, maxino).Out?
    ensures var o := OutSingle(s, f, maxino); AccountAt(o.s.ts, es + o.es, dev, ino) == AccountAt(s.ts, es, dev, ino)
  {
    hide DataOf, PlaceOf;
    var o, q := OutSingle(s, f, maxino), PlaceOf(s.ts, dev, ino);
    if q.At? {
      DataOfConcat(es, o.es, q.slot + 1, q.info.fino);
      NoData(o.es, q.slot + 1, q.info.fino);
    }
  }

  lemma NoAccount(maxino: nat, dev: nat, ino: nat)
    requires maxino > 0
    ensures var o := Run([], maxino); AccountAt(o.s.ts, o.es, dev, ino) == AccountOf([], dev, ino)
  {
  }

  lemma AccountLast(fs: seq<Named>, dev: nat, ino: nat)
    requires fs != []
    ensures var a, f := AccountOf(fs[..|fs| - 1], dev, ino), fs[|fs| - 1];
      AccountOf(fs, dev, ino) == if LinkTo(f, dev, ino) then Told(a, f.st) else a
  {
    hide Told;
  }

  /** At every moment the slots and the archive agree with the account of each
      file: the data written is that of the files that ended its groups. */
  lemma {:induction false} RunAccounts(fs: seq<Named>, maxino: nat, dev: nat, ino: nat)
    requires maxino > 0 && Run(fs, maxino).Out?
    ensures var o := Run(fs, maxino); AccountAt(o.s.ts, o.es, dev, ino) == AccountOf(fs, dev, ino)
  {
    hide *;
    if fs == [] {
      NoAccount(maxino, dev, ino);
    } else {
      var n := |fs| - 1;
      RunLast(fs, maxino);
      RunKeeps(fs[..n], maxino);
      RunAccounts(fs[..n], maxino, dev, ino);
      AccountLast(fs, dev, ino);
      var b := Run(fs[..n], maxino);
      Kind(b.s, fs[n], maxino);
      if Linked(fs[n].st) {
        LinkAccounts(b.s, fs[n], maxino, b.es, dev, ino);
      } else {
        SingleAccounts(b.s, fs[n], maxino, b.es, dev, ino);
        NotLinked(fs[n], dev, ino);
      }
    }
  }

  lemma NotLinked(f: Named, dev: nat, ino: nat)
    requires !Linked(f.st)
    ensures !LinkTo(f, dev, ino)
  {
  }

  // ---- the final flush ----

  /** Bytes written for an open group at the end: the size its first file had. */
  function Open(a: Account): nat {
    if a.left > 0 && a.first.Some? then a.first.value.size else 0
  }

  ghost function OpenData(p: Info): nat {
    if p.nlk > 0 && p.st.Some? then p.st.value.size else 0
  }

  lemma LeftoverData(p: Info, fake: nat, d: nat, k: nat)
    requires Sane(p)
    ensures DataOf(Leftover(p, fake), d, k) == if d == fake && k == p.fino then OpenData(p) else 0
  {
    hide DataOf, Group;
    NoEntries(d, k);
    if p.nlk > 0 {
      var n := |p.lnk| - 1;
      GroupData(p.lnk[..n], p.lnk[n], p.st.value, fake, p.fino, d, k);
    }
  }

  lemma {:induction false} FlushSlotData(t: Table, i: nat, maxino: nat, order: seq<nat>, d: nat, k: nat)
    requires TableOk(t, i, maxino) && forall j :: 0 <= j < |order| ==> order[j] in t.files
    requires forall j, l :: 0 <= j < l < |order| ==> order[j] != order[l]
    ensures forall j :: 0 <= j < |order| && d == i + 1 && t.files[order[j]].fino == k ==>
              DataOf(FlushSlot(t, order), d, k) == OpenData(t.files[order[j]])
    ensures (forall j :: 0 <= j < |order| ==> d != i + 1 || t.files[order[j]].fino != k) ==>
              DataOf(FlushSlot(t, order), d, k) == 0
  {
    hide DataOf, Leftover, Sane, OpenData;
    FlushMore(t, order);
    if order == [] {
      NoEntries(d, k);
    } else {
      var n := |order| - 1;
      FlushSlotData(t, i, maxino, order[..n], d, k);
      LeftoverData(t.files[order[n]], t.fake, d, k);
      DataOfConcat(FlushSlot(t, order[..n]), Leftover(t.files[order[n]], t.fake), d, k);
      hide FlushSlot;
      assert forall j :: 0 <= j < n ==> order[..n][j] == order[j];
    }
  }

  lemma FlushOneData(ts: seq<Table>, maxino: nat, n: nat, order: seq<nat>, dev: nat, ino: nat)
    requires Inv(ts, maxino) && n < |ts| && Lists(order, ts[n]) && PlaceOf(ts, dev, ino).At?
    ensures var q := PlaceOf(ts, dev, ino);
      DataOf(FlushSlot(ts[n], order), q.slot + 1, q.info.fino) == if q.slot == n then OpenData(q.info) else 0
  {
    hide FlushSlot, DataOf, Leftover, Sane, Filled, OpenData;
    var q := PlaceOf(ts, dev, ino);
    assert TableOk(ts[n], n, maxino);
    FlushSlotData(ts[n], n, maxino, order, q.slot + 1, q.info.fino);
    if q.slot == n {
      var j :| 0 <= j < |order| && order[j] == ino;
    }
  }

  lemma {:induction false} FlushAllData(ts: seq<Table>, maxino: nat, orders: seq<seq<nat>>, dev: nat, ino: nat)
    requires Inv(ts, maxino) && AllList(orders, ts) && PlaceOf(ts, dev, ino).At?
    ensures var q := PlaceOf(ts, dev, ino);
      DataOf(FlushAll(ts, orders), q.slot + 1, q.info.fino) == if q.slot < |orders| then OpenData(q.info) else 0
  {
    var q := PlaceOf(ts, dev, ino);
    hide Inv, PlaceOf, DataOf, FlushSlot, OpenData;
    if orders == [] {
      NoEntries(q.slot + 1, q.info.fino);
    } else {
      var n := |orders| - 1;
      FlushAllData(ts, maxino, orders[..n], dev, ino);
      FlushOneData(ts, maxino, n, orders[n], dev, ino);
      DataOfConcat(FlushAll(ts, orders[..n]), FlushSlot(ts[n], orders[n]), q.slot + 1, q.info.fino);
    }
  }

  /** In a whole archive a file has the data of the files that ended its groups
      and, if a group was left open, the size its first file had. */
  lemma ArchiveData(fs: seq<Named>, maxino: nat, orders: seq<seq<nat>>, es: seq<Entry>, dev: nat, ino: nat)
    requires IsArchive(fs, maxino, orders, es)
    ensures var q := PlaceOf(Run(fs, maxino).s.ts, dev, ino); var a := AccountOf(fs, dev, ino);
      if q.At? then DataOf(es, q.slot + 1, q.info.fino) == a.data + Open(a) else a == Account(0, None, 0)
  {
    hide Run, DataOf, FlushAll, PlaceOf, AccountOf, AllList;
    var o := Run(fs, maxino);
    RunAccounts(fs, maxino, dev, ino);
    RunKeeps(fs, maxino);
    var q := PlaceOf(o.s.ts, dev, ino);
    if q.At? {
      FlushAllData(o.s.ts, maxino, orders, dev, ino);
      DataOfConcat(o.es, FlushAll(o.s.ts, orders), q.slot + 1, q.info.fino);
      PlaceBelow(o.s.ts, dev, ino);
    }
  }

  lemma PlaceBelow(ts: seq<Table>, dev: nat, ino: nat)
    requires PlaceOf(ts, dev, ino).At?
    ensures PlaceOf(ts, dev, ino).slot < |ts|
  {
  }

  // ---- files that keep their size and link count ----

  /** Every link given for the file shows n links and z bytes. */
  ghost predicate Uniform(fs: seq<Named>, dev: nat, ino: nat, n: nat, z: nat) {
    forall i :: 0 <= i < |fs| && LinkTo(fs[i], dev, ino) ==> fs[i].st.nlink == n && fs[i].st.size == z
  }

  /** q whole groups and r names of another one. */
  ghost predicate Rounds(a: Account, m: nat, n: nat, z: nat, q: nat, r: nat) {
    && m == q * n + r && r < n && a.data == q * z
    && (if r == 0 then a.left == 0 else a.left == n - r && a.first.Some? && a.first.value.size == z)
  }

  lemma NextRound(a: Account, m: nat, n: nat, z: nat, q: nat, r: nat, st: Stat)
    requires Rounds(a, m, n, z, q, r) && st.nlink == n > 1 && st.size == z
    ensures if r + 1 == n then Rounds(Told(a, st), m + 1, n, z, q + 1, 0) else Rounds(Told(a, st), m + 1, n, z, q, r + 1)
  {
    assert (q + 1) * n == q * n + n && (q + 1) * z == q * z + z;
  }

  /** A file with n links and z bytes: after m names, m / n times z bytes. */
  lemma {:induction false} UniformAccount(fs: seq<Named>, dev: nat, ino: nat, n: nat, z: nat) returns (q: nat, r: nat)
    requires n > 1 && Uniform(fs, dev, ino, n, z)
    ensures Rounds(AccountOf(fs, dev, ino), |Given(fs, dev, ino)|, n, z, q, r)
  {
    q, r := 0, 0;
    if fs != [] {
      var k := |fs| - 1;
      q, r := UniformAccount(fs[..k], dev, ino, n, z);
      if LinkTo(fs[k], dev, ino) {
        NextRound(AccountOf(fs[..k], dev, ino), |Given(fs[..k], dev, ino)|, n, z, q, r, fs[k].st);
        if r + 1 == n {
          q, r := q + 1, 0;
        } else {
          r := r + 1;
        }
      }
    }
  }

  /** All n links of a file of z bytes, given once each: the archive has its
      data once, and it has it once too when some of the links are missing. */
  lemma DataOnce(fs: seq<Named>, maxino: nat, orders: seq<seq<nat>>, es: seq<Entry>, dev: nat, ino: nat, n: nat, z: nat)
    requires IsArchive(fs, maxino, orders, es) && n > 1 && Uniform(fs, dev, ino, n, z)
    requires 1 <= |Given(fs, dev, ino)| <= n
    ensures var q := PlaceOf(Run(fs, maxino).s.ts, dev, ino); q.At? && DataOf(es, q.slot + 1, q.info.fino) == z
  {
    hide IsArchive, Run, PlaceOf, DataOf, AccountOf, Uniform, Given, AllList, FlushAll;
    ArchiveData(fs, maxino, orders, es, dev, ino);
    var q, r := UniformAccount(fs, dev, ino, n, z);
    OneRound(AccountOf(fs, dev, ino), |Given(fs, dev, ino)|, n, z, q, r);
    GivenPlaced(fs, maxino, orders, es, dev, ino);
  }

  lemma GivenPlaced(fs: seq<Named>, maxino: nat, orders: seq<seq<nat>>, es: seq<Entry>, dev: nat, ino: nat)
    requires IsArchive(fs, maxino, orders, es) && Given(fs, dev, ino) != []
    ensures PlaceOf(Run(fs, maxino).s.ts, dev, ino).At?
  {
    hide Run, PlaceOf, Given, AllList, FlushAll, Belongs;
    AllWritten(fs, maxino, orders, dev, ino);
  }

  lemma OneRound(a: Account, m: nat, n: nat, z: nat, q: nat, r: nat)
    requires Rounds(a, m, n, z, q, r) && 1 <= m <= n && n > 1
    ensures a.data + Open(a) == z
  {
    if q >= 2 {
      assert q * n >= 2 * n by {
        ProductSign(q - 2, n);
        assert q * n == (q - 2) * n + 2 * n;
      }
    }
    assert 0 * n == 0 && 1 * n == n && 0 * z == 0 && 1 * z == z;
  }

  // ---- files that are no links ----

  function Unlinked(fs: seq<Named>): seq<Named> {
    if fs == [] then []
    else Unlinked(fs[..|fs| - 1]) + if Linked(fs[|fs| - 1].st) then [] else [fs[|fs| - 1]]
  }

  /** A member with the name, size and kind of its file. */
  predicate SingleFor(f: Named, e: Entry) {
    && !IsLink(e) && e.name == f.name && e.size == f.st.size && e.dir == f.st.dir
    && e.nlink == if f.st.nlink > 0xFFFF_FFFF then 0xFFFF_FFFF else f.st.nlink
  }

  predicate SinglesFor(fs: seq<Named>, es: seq<Entry>) {
    |es| == |fs| && forall i :: 0 <= i < |fs| ==> SingleFor(fs[i], es[i])
  }

  lemma OneMoreSingle(fs: seq<Named>, es: seq<Entry>, f: Named, e: Entry)
    requires SinglesFor(fs, es) && SingleFor(f, e)
    ensures SinglesFor(fs + [f], es + [e])
  {
    hide SingleFor;
  }

  lemma SingleWritten(s: LinkState, f: Named, maxino: nat)
    requires maxino > 0 && !Linked(f.st) && OutSingle(s, f, maxino).Out?
    ensures var o := OutSingle(s, f, maxino); |o.es| == 1 && SingleFor(f, o.es[0]) && Singles(o.es) == [o.es[0]]
  {
    hide Singles;
    OneSingle(OutSingle(s, f, maxino).es);
  }

  lemma LinkNoSingle(s: LinkState, f: Named, maxino: nat)
    requires maxino > 0 && Linked(f.st) && OutLink(s, f, maxino).Out?
    ensures Singles(OutLink(s, f, maxino).es) == []
  {
    hide Released, Singles, Updated, Present, Locate;
    var r := Locate(s.ts, f.st.dev, f.st.ino, maxino, 0);
    ReleasedSingles(Present(s.ts, f.st, r), f, r + 1);
  }

  lemma UnlinkedLast(fs: seq<Named>)
    ensures fs == [] ==> Unlinked(fs) == []
    ensures fs != [] ==> var f := fs[|fs| - 1];
      Unlinked(fs) == Unlinked(fs[..|fs| - 1]) + if Linked(f.st) then [] else [f]
  {
  }

  lemma NoneSingle(maxino: nat)
    requires maxino > 0
    ensures SinglesFor([], Singles(Run([], maxino).es))
  {
  }

  /** The members of a run that are no links are the given files that are no
      links, in order, each with its own name and size. */
  lemma {:induction false} RunSingles(fs: seq<Named>, maxino: nat)
    requires maxino > 0 && Run(fs, maxino).Out?
    ensures SinglesFor(Unlinked(fs), Singles(Run(fs, maxino).es))
  {
    hide *;
    UnlinkedLast(fs);
    if fs == [] {
      NoneSingle(maxino);
    } else {
      var n := |fs| - 1;
      RunLast(fs, maxino);
      RunSingles(fs[..n], maxino);
      var b := Run(fs[..n], maxino);
      Kind(b.s, fs[n], maxino);
      SinglesConcat(b.es, OutFile(b.s, fs[n], maxino).es);
      if Linked(fs[n].st) {
        LinkNoSingle(b.s, fs[n], maxino);
        assert Singles(b.es) + [] == Singles(b.es) && Unlinked(fs[..n]) + [] == Unlinked(fs[..n]);
      } else {
        SingleWritten(b.s, fs[n], maxino);
        OneMoreSingle(Unlinked(fs[..n]), Singles(b.es), fs[n], OutFile(b.s, fs[n], maxino).es[0]);
      }
    }
  }

  /** The final flush adds none. */
  lemma ArchiveSingles(fs: seq<Named>, maxino: nat, orders: seq<seq<nat>>, es: seq<Entry>)
    requires IsArchive(fs, maxino, orders, es)
    ensures SinglesFor(Unlinked(fs), Singles(es))
  {
    hide Run, AllList, FlushAll, Singles, SinglesFor, Inv, Issued;
    var o := Run(fs, maxino);
    RunKeeps(fs, maxino);
    RunSingles(fs, maxino);
    LinkSpec.FlushLinks(o.s.ts, maxino, orders);
    NoSingles(FlushAll(o.s.ts, orders));
    SinglesConcat(o.es, FlushAll(o.s.ts, orders));
    assert Singles(o.es) + [] == Singles(o.es);
  }

  // ---- everything given is there ----

  /** The names given for a file stand in the archive, in order and under its
      one number, with the data of its account. */
  ghost predicate FileThere(fs: seq<Named>, ts: seq<Table>, es: seq<Entry>, dev: nat, ino: nat) {
    var q, a := PlaceOf(ts, dev, ino), AccountOf(fs, dev, ino);
    if q.Nowhere? then Given(fs, dev, ino) == []
    else NamesOf(es, q.slot + 1, q.info.fino) == Given(fs, dev, ino) && DataOf(es, q.slot + 1, q.info.fino) == a.data + Open(a)
  }

  ghost predicate AllThere(fs: seq<Named>, ts: seq<Table>, es: seq<Entry>) {
    SinglesFor(Unlinked(fs), Singles(es)) && forall dev, ino :: FileThere(fs, ts, es, dev, ino)
  }

  lemma ArchiveThere(fs: seq<Named>, maxino: nat, orders: seq<seq<nat>>, es: seq<Entry>)
    requires IsArchive(fs, maxino, orders, es)
    ensures AllThere(fs, Run(fs, maxino).s.ts, es)
  {
    hide Run, SinglesFor, FlushAll, AllList, PlaceOf, NamesOf, DataOf, AccountOf, Given, Open, Belongs;
    ArchiveSingles(fs, maxino, orders, es);
    forall dev, ino ensures FileThere(fs, Run(fs, maxino).s.ts, es, dev, ino) {
      ArchiveData(fs, maxino, orders, es, dev, ino);
      AllWritten(fs, maxino, orders, dev, ino);
    }
  }
}
