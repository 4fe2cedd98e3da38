/**
 Hard links in SVR4 cpio archives, as values: which names a run of outfile has
 collected and which it has written, under which fake device and inode.
 */
module LinkSpec {
  import opened Basics
  import opened InodeForest

  const MAXNLINK: nat := 0xFFFF_FFFF
  const FIRSTFAKEDEV: nat := 65535

  datatype Named = Named(name: string, st: Stat)

  /** An archive member as far as the link code sees it. */
  datatype Entry = Entry(name: string, dev: nat, ino: nat, nlink: nat, size: nat, dir: bool)

  datatype LinkState = LinkState(ts: seq<Table>, fakedev: nat, fakeino: nat, harddev: nat)

  /** The original exits when it runs out of device numbers. */
  datatype Outcome = Fatal | Out(s: LinkState, es: seq<Entry>)

  predicate Linked(st: Stat) {
    st.nlink > 1 && !st.dir
  }

  predicate IsLink(e: Entry) {
    e.nlink > 1 && !e.dir
  }

  function Header(name: string, st: Stat, dev: nat, ino: nat, zerolink: bool): Entry {
    Entry(name, dev, ino, if st.nlink > MAXNLINK then MAXNLINK else st.nlink, if zerolink then 0 else st.size, st.dir)
  }

  function Headers(names: seq<string>, st: Stat, dev: nat, ino: nat): seq<Entry> {
    if names == [] then []
    else Headers(names[..|names| - 1], st, dev, ino) + [Header(names[|names| - 1], st, dev, ino, true)]
  }

  /** A finished group: all names, the last one with the data. */
  function Group(names: seq<string>, last: string, st: Stat, dev: nat, ino: nat): seq<Entry> {
    Headers(names, st, dev, ino) + [Header(last, st, dev, ino, false)]
  }

  // ---- one link ----

  ghost function Restarted(p: Info, st: Stat): Info {
    if p.nlk == 0 then p.(nlk := st.nlink, lnk := [], st := Some(st)) else p
  }

  /** What the node says after one more name for the file. */
  ghost function Collected(p: Info, f: Named): Info
    requires Linked(f.st)
  {
    if p.nlk == 1 then p.(nlk := 0, st := None)
    else var q := Restarted(p, f.st); q.(nlk := q.nlk - 1, lnk := q.lnk + [f.name])
  }

  /** What is written at that moment. */
  ghost function Released(p: Info, f: Named, dev: nat): seq<Entry> {
    if p.nlk == 1 then Group(p.lnk, f.name, f.st, dev, p.fino) else []
  }

  /** The slot used for a file: the one that has it, else the first slot of
      its device with a free number, else a new one at the end. */
  ghost function Locate(ts: seq<Table>, dev: nat, ino: nat, maxino: nat, i: nat): (r: nat)
    requires i <= |ts|
    ensures i <= r <= |ts|
    ensures r < |ts| ==> ts[r].dev == dev && (ino in ts[r].files || ts[r].cnt < maxino)
    decreases |ts| - i
  {
    var r := DevFrom(ts, dev, i);
    if r == |ts| || ino in ts[r].files || ts[r].cnt < maxino then r
    else Locate(ts, dev, ino, maxino, r + 1)
  }

  /** The tables with slot r present. */
  ghost function Slotted(ts: seq<Table>, dev: nat, r: nat): (us: seq<Table>)
    requires r <= |ts|
    ensures r < |us|
  {
    if r < |ts| then ts else ts + [Table(dev, r + 1, 0, map[])]
  }

  /** The tables after file ino is entered or replaced on slot r; a new file
      takes the next number of the slot. */
  ghost function Updated(ts: seq<Table>, dev: nat, ino: nat, r: nat, p: Info): (us: seq<Table>)
    requires r <= |ts|
    ensures r < |us|
  {
    var us := Slotted(ts, dev, r);
    var t := us[r];
    us[r := Table(t.dev, t.fake, if ino in t.files then t.cnt else t.cnt + 1, t.files[ino := p])]
  }

  /** What slot r says about the file of st when it is handled. */
  ghost function Present(ts: seq<Table>, st: Stat, r: nat): Info
    requires r <= |ts|
  {
    var t := Slotted(ts, st.dev, r)[r];
    if st.ino in t.files then t.files[st.ino] else Info(t.cnt + 1, st.nlink, [], Some(st), "")
  }

  ghost function OutLink(s: LinkState, f: Named, maxino: nat): Outcome
    requires Linked(f.st)
  {
    var r := Locate(s.ts, f.st.dev, f.st.ino, maxino, 0);
    if r + 1 >= s.fakedev then Fatal
    else
      var p := Present(s.ts, f.st, r);
      Out(s.(ts := Updated(s.ts, f.st.dev, f.st.ino, r, Collected(p, f)), harddev := r + 1), Released(p, f, r + 1))
  }

  /** Single links and directories count down from the largest numbers. */
  ghost function OutSingle(s: LinkState, f: Named, maxino: nat): Outcome
    requires maxino > 0
  {
    if s.fakeino == 0 then
      if s.fakedev - 1 <= s.harddev then Fatal
      else Out(s.(fakedev := s.fakedev - 1, fakeino := maxino - 1),
               [Header(f.name, f.st, s.fakedev - 1, maxino, false)])
    else Out(s.(fakeino := s.fakeino - 1), [Header(f.name, f.st, s.fakedev, s.fakeino, false)])
  }

  ghost function OutFile(s: LinkState, f: Named, maxino: nat): Outcome
    requires maxino > 0
  {
    if Linked(f.st) then OutLink(s, f, maxino) else OutSingle(s, f, maxino)
  }

  ghost function Run(fs: seq<Named>, maxino: nat): Outcome
    requires maxino > 0
  {
    if fs == [] then Out(LinkState([], FIRSTFAKEDEV, maxino, 1), [])
    else
      var before := Run(fs[..|fs| - 1], maxino);
      if before.Fatal? then Fatal
      else
        var now := OutFile(before.s, fs[|fs| - 1], maxino);
        if now.Fatal? then Fatal else Out(now.s, before.es + now.es)
  }

  lemma RunLast(fs: seq<Named>, maxino: nat)
    requires maxino > 0 && fs != [] && Run(fs, maxino).Out?
    ensures var b := Run(fs[..|fs| - 1], maxino);
      b.Out? && var now := OutFile(b.s, fs[|fs| - 1], maxino); now.Out? && Run(fs, maxino) == Out(now.s, b.es + now.es)
  {
    hide OutFile;
  }

  // ---- what every run keeps ----

  /** A node of a group under collection has names and a status; a finished
      one has no status. */
  ghost predicate Sane(p: Info) {
    (p.nlk > 0 <==> p.st.Some?) && (p.nlk > 0 ==> p.lnk != [] && Linked(p.st.value))
  }

  /** Every number up to the count belongs to a file. */
  ghost predicate Filled(t: Table) {
    forall n :: 1 <= n <= t.cnt ==> HasNumber(t, n)
  }

  ghost predicate HasNumber(t: Table, n: nat) {
    exists k :: k in t.files && t.files[k].fino == n
  }

  ghost predicate TableOk(t: Table, i: nat, maxino: nat) {
    && Filled(t) && t.fake == i + 1 && 1 <= t.cnt <= maxino && t.files.Keys != {}
    && (forall k :: k in t.files ==> Sane(t.files[k]) && 1 <= t.files[k].fino <= t.cnt)
    && (forall k, l :: k in t.files && l in t.files && t.files[k].fino == t.files[l].fino ==> k == l)
  }

  ghost predicate Inv(ts: seq<Table>, maxino: nat) {
    && (forall i :: 0 <= i < |ts| ==> TableOk(ts[i], i, maxino))
    && (forall i, j :: 0 <= i < j < |ts| && ts[i].dev == ts[j].dev ==>
          ts[i].cnt >= maxino && ts[i].files.Keys !! ts[j].files.Keys)
  }

  /** The slot that holds a file, or the number of slots. */
  ghost function Holder(ts: seq<Table>, dev: nat, ino: nat, i: nat): (r: nat)
    requires i <= |ts|
    ensures i <= r <= |ts| && (r < |ts| ==> ts[r].dev == dev && ino in ts[r].files)
    ensures forall j :: i <= j < r ==> !(ts[j].dev == dev && ino in ts[j].files)
    decreases |ts| - i
  {
    if i == |ts| || (ts[i].dev == dev && ino in ts[i].files) then i else Holder(ts, dev, ino, i + 1)
  }

  lemma HolderIs(ts: seq<Table>, dev: nat, ino: nat, r: nat, maxino: nat)
    requires Inv(ts, maxino) && r < |ts| && ts[r].dev == dev && ino in ts[r].files
    ensures Holder(ts, dev, ino, 0) == r
  {
  }

  lemma HolderSkips(ts: seq<Table>, dev: nat, ino: nat, i: nat, r: nat)
    requires i <= r <= |ts| && forall j :: i <= j < r ==> !(ts[j].dev == dev && ino in ts[j].files)
    ensures Holder(ts, dev, ino, i) == Holder(ts, dev, ino, r)
    decreases r - i
  {
    if i < r {
      HolderSkips(ts, dev, ino, i + 1, r);
    }
  }

  /** A file already on some slot is found there again, however many slots
      its device has filled. */
  lemma {:induction false} LocateFinds(ts: seq<Table>, dev: nat, ino: nat, maxino: nat, i: nat)
    requires Inv(ts, maxino) && i <= |ts| && Holder(ts, dev, ino, i) < |ts|
    ensures Locate(ts, dev, ino, maxino, i) == Holder(ts, dev, ino, i)
    decreases |ts| - i
  {
    var r := DevFrom(ts, dev, i);
    HolderSkips(ts, dev, ino, i, r);
    if ino !in ts[r].files {
      HolderSkips(ts, dev, ino, r, r + 1);
      LocateFinds(ts, dev, ino, maxino, r + 1);
    }
  }

  /** A new file goes to the first slot of its device with room. */
  lemma {:induction false} LocateNew(ts: seq<Table>, dev: nat, ino: nat, maxino: nat, i: nat)
    requires i <= |ts| && Holder(ts, dev, ino, i) == |ts|
    ensures var r := Locate(ts, dev, ino, maxino, i);
      (r < |ts| ==> ino !in ts[r].files && ts[r].cnt < maxino) &&
      forall j :: i <= j < r && ts[j].dev == dev ==> ts[j].cnt >= maxino
    decreases |ts| - i
  {
    var r := DevFrom(ts, dev, i);
    HolderSkips(ts, dev, ino, i, r);
    if r < |ts| && ts[r].cnt >= maxino {
      HolderSkips(ts, dev, ino, r, r + 1);
      LocateNew(ts, dev, ino, maxino, r + 1);
    }
  }

  /** The slot and number of a file, and what is known about it. */
  datatype Place = Nowhere | At(slot: nat, info: Info)

  ghost function PlaceOf(ts: seq<Table>, dev: nat, ino: nat): Place {
    var h := Holder(ts, dev, ino, 0);
    if h < |ts| then At(h, ts[h].files[ino]) else Nowhere
  }

  /** r is where Locate puts the file. */
  ghost predicate Chosen(ts: seq<Table>, dev: nat, ino: nat, r: nat, maxino: nat) {
    r <= |ts| &&
    if r < |ts| && ts[r].dev == dev && ino in ts[r].files then true
    else
      && Holder(ts, dev, ino, 0) == |ts| && (r < |ts| ==> ts[r].dev == dev && ts[r].cnt < maxino)
      && forall j :: 0 <= j < r && ts[j].dev == dev ==> ts[j].cnt >= maxino
  }

  lemma LocateChooses(ts: seq<Table>, dev: nat, ino: nat, maxino: nat)
    requires Inv(ts, maxino)
    ensures Chosen(ts, dev, ino, Locate(ts, dev, ino, maxino, 0), maxino)
  {
    if Holder(ts, dev, ino, 0) < |ts| {
      LocateFinds(ts, dev, ino, maxino, 0);
    } else {
      LocateNew(ts, dev, ino, maxino, 0);
    }
  }

  lemma UpdatedKeeps(ts: seq<Table>, dev: nat, ino: nat, r: nat, p: Info, maxino: nat)
    requires Inv(ts, maxino) && maxino > 0 && Chosen(ts, dev, ino, r, maxino) && Sane(p)
    requires p.fino == if r < |ts| && ino in ts[r].files then ts[r].files[ino].fino
                       else if r < |ts| then ts[r].cnt + 1 else 1
    ensures Inv(Updated(ts, dev, ino, r, p), maxino)
  {
    hide Filled, Sane;
    var us := Updated(ts, dev, ino, r, p);
    NewTableOk(ts, dev, ino, r, p, maxino);
    assert forall i :: 0 <= i < |us| && i != r ==> us[i] == ts[i];
    hide TableOk;
    forall i, j | 0 <= i < j < |us| && us[i].dev == us[j].dev
      ensures us[i].cnt >= maxino && us[i].files.Keys !! us[j].files.Keys
    {
      if j == r || i == r {
        assert !(r < |ts| && ino in ts[r].files) && i != r ==> ino !in us[i].files;
      }
    }
  }

  lemma NewTableOk(ts: seq<Table>, dev: nat, ino: nat, r: nat, p: Info, maxino: nat)
    requires Inv(ts, maxino) && maxino > 0 && Chosen(ts, dev, ino, r, maxino) && Sane(p)
    requires p.fino == if r < |ts| && ino in ts[r].files then ts[r].files[ino].fino
                       else if r < |ts| then ts[r].cnt + 1 else 1
    ensures TableOk(Updated(ts, dev, ino, r, p)[r], r, maxino)
  {
    hide Filled, Sane, Holder;
    assert r < |ts| ==> TableOk(ts[r], r, maxino);
    StaysFilled(ts, dev, ino, r, p);
  }

  lemma StaysFilled(ts: seq<Table>, dev: nat, ino: nat, r: nat, p: Info)
    requires r <= |ts| && (r < |ts| ==> Filled(ts[r]))
    requires p.fino == if r < |ts| && ino in ts[r].files then ts[r].files[ino].fino
                       else if r < |ts| then ts[r].cnt + 1 else 1
    ensures Filled(Updated(ts, dev, ino, r, p)[r])
  {
    var t, u := Slotted(ts, dev, r)[r], Updated(ts, dev, ino, r, p)[r];
    forall n | 1 <= n <= u.cnt ensures HasNumber(u, n) {
      if n == p.fino {
        assert u.files[ino].fino == n;
      } else {
        assert HasNumber(t, n);
        var k :| k in t.files && t.files[k].fino == n;
        assert k in u.files && u.files[k].fino == n;
      }
    }
  }

  lemma HolderAt(ts: seq<Table>, dev: nat, ino: nat, h: nat)
    requires h <= |ts| && (h < |ts| ==> ts[h].dev == dev && ino in ts[h].files)
    requires forall j :: 0 <= j < h ==> !(ts[j].dev == dev && ino in ts[j].files)
    ensures Holder(ts, dev, ino, 0) == h
  {
    HolderSkips(ts, dev, ino, 0, h);
  }

  /** Which slots have a file after an update. */
  lemma UpdatedHas(ts: seq<Table>, dev: nat, ino: nat, r: nat, p: Info, d: nat, k: nat)
    requires r <= |ts| && (r < |ts| ==> ts[r].dev == dev)
    ensures var us := Updated(ts, dev, ino, r, p);
      && |us| == (if r < |ts| then |ts| else |ts| + 1) && us[r].dev == dev && ino in us[r].files && us[r].files[ino] == p
      && (forall j :: 0 <= j < |us| && (j != r || d != dev || k != ino) ==>
            ((us[j].dev == d && k in us[j].files) <==> (j < |ts| && ts[j].dev == d && k in ts[j].files)))
      && (forall j :: 0 <= j < |ts| && (j != r || k != ino) && k in ts[j].files ==>
            k in us[j].files && us[j].files[k] == ts[j].files[k])
  {
  }

  /** An update concerns the place of its own file only. */
  lemma UpdatedPlaces(ts: seq<Table>, dev: nat, ino: nat, r: nat, p: Info, maxino: nat, d: nat, k: nat)
    requires Inv(ts, maxino) && Chosen(ts, dev, ino, r, maxino)
    ensures PlaceOf(Updated(ts, dev, ino, r, p), d, k) ==
            if d == dev && k == ino then At(r, p) else PlaceOf(ts, d, k)
  {
    var us := Updated(ts, dev, ino, r, p);
    UpdatedHas(ts, dev, ino, r, p, d, k);
    hide Updated;
    if d == dev && k == ino {
      NotBefore(ts, dev, ino, r, maxino);
      HolderAt(us, d, k, r);
    } else {
      var h := Holder(ts, d, k, 0);
      HolderAt(us, d, k, if h < |ts| then h else |us|);
    }
  }

  /** No slot before the chosen one has the file. */
  lemma NotBefore(ts: seq<Table>, dev: nat, ino: nat, r: nat, maxino: nat)
    requires Inv(ts, maxino) && Chosen(ts, dev, ino, r, maxino)
    ensures forall j :: 0 <= j < r ==> !(ts[j].dev == dev && ino in ts[j].files)
  {
    forall j | 0 <= j < r ensures !(ts[j].dev == dev && ino in ts[j].files) {
      if ts[j].dev == dev && r < |ts| {
        assert ts[j].files.Keys !! ts[r].files.Keys;
      }
    }
  }

  /** Two files have the same number exactly when they are the same file. */
  lemma SameNumberSameFile(ts: seq<Table>, maxino: nat, dev: nat, ino: nat, dev': nat, ino': nat)
    requires Inv(ts, maxino) && PlaceOf(ts, dev, ino).At? && PlaceOf(ts, dev', ino').At?
    ensures var p, q := PlaceOf(ts, dev, ino), PlaceOf(ts, dev', ino');
      (p.slot == q.slot && p.info.fino == q.info.fino) <==> (dev == dev' && ino == ino')
  {
    var p := PlaceOf(ts, dev, ino);
    assert TableOk(ts[p.slot], p.slot, maxino);
  }

  // ---- names are conserved ----

  ghost function NamesOf(es: seq<Entry>, dev: nat, ino: nat): seq<string> {
    if es == [] then []
    else
      var e := es[|es| - 1];
      NamesOf(es[..|es| - 1], dev, ino) +
      if IsLink(e) && e.dev == dev && e.ino == ino then [e.name] else []
  }

  ghost function Given(fs: seq<Named>, dev: nat, ino: nat): seq<string> {
    if fs == [] then []
    else
      var f := fs[|fs| - 1];
      Given(fs[..|fs| - 1], dev, ino) +
      if Linked(f.st) && f.st.dev == dev && f.st.ino == ino then [f.name] else []
  }

  /** Written names of a file, then those still collected. */
  ghost function Accounted(ts: seq<Table>, es: seq<Entry>, dev: nat, ino: nat): seq<string> {
    var p := PlaceOf(ts, dev, ino);
    if p.Nowhere? then []
    else NamesOf(es, p.slot + 1, p.info.fino) + if p.info.nlk > 0 then p.info.lnk else []
  }

  /** Written links carry only numbers that were given out. */
  ghost predicate Issued(ts: seq<Table>, es: seq<Entry>) {
    forall i :: 0 <= i < |es| && IsLink(es[i]) ==> 1 <= es[i].dev <= |ts| && 1 <= es[i].ino <= ts[es[i].dev - 1].cnt
  }

  lemma {:induction false} NamesOfConcat(a: seq<Entry>, b: seq<Entry>, dev: nat, ino: nat)
    ensures NamesOf(a + b, dev, ino) == NamesOf(a, dev, ino) + NamesOf(b, dev, ino)
  {
    if b == [] {
      assert a + b == a;
    } else {
      assert (a + b)[..|a + b| - 1] == a + b[..|b| - 1];
      NamesOfConcat(a, b[..|b| - 1], dev, ino);
    }
  }

  lemma {:induction false} NamesOfNone(es: seq<Entry>, dev: nat, ino: nat)
    requires forall i :: 0 <= i < |es| && IsLink(es[i]) ==> es[i].dev != dev || es[i].ino != ino
    ensures NamesOf(es, dev, ino) == []
  {
    if es != [] {
      NamesOfNone(es[..|es| - 1], dev, ino);
    }
  }

  /** A group is zero-size headers of one file and a last one with its data. */
  lemma {:induction false} HeadersShape(names: seq<string>, st: Stat, dev: nat, ino: nat)
    requires Linked(st)
    ensures var es := Headers(names, st, dev, ino);
      |es| == |names| && NamesOf(es, dev, ino) == names &&
      forall i :: 0 <= i < |es| ==>
        es[i].name == names[i] && es[i].dev == dev && es[i].ino == ino && es[i].size == 0 && IsLink(es[i]) &&
        es[i].nlink == if st.nlink > MAXNLINK then MAXNLINK else st.nlink
  {
    hide *;
    HeadersMore(names, st, dev, ino);
    if names == [] {
      Nothing(dev, ino);
    } else {
      var n := |names| - 1;
      var h := Header(names[n], st, dev, ino, true);
      HeadersShape(names[..n], st, dev, ino);
      LinkHeader(names[n], st, dev, ino, true);
      NamesOfConcat(Headers(names[..n], st, dev, ino), [h], dev, ino);
      OneName(h, dev, ino);
      assert names[..n] + [names[n]] == names;
    }
  }

  lemma HeadersMore(names: seq<string>, st: Stat, dev: nat, ino: nat)
    ensures names == [] ==> Headers(names, st, dev, ino) == []
    ensures names != [] ==>
              var n := |names| - 1;
              Headers(names, st, dev, ino) == Headers(names[..n], st, dev, ino) + [Header(names[n], st, dev, ino, true)]
  {
  }

  lemma LinkHeader(name: string, st: Stat, dev: nat, ino: nat, zerolink: bool)
    requires Linked(st)
    ensures var h := Header(name, st, dev, ino, zerolink);
      IsLink(h) && h.name == name && h.dev == dev && h.ino == ino && h.size == (if zerolink then 0 else st.size) &&
      h.nlink == if st.nlink > MAXNLINK then MAXNLINK else st.nlink
  {
  }

  lemma GroupNames(names: seq<string>, last: string, st: Stat, dev: nat, ino: nat, d: nat, k: nat)
    requires Linked(st)
    ensures NamesOf(Group(names, last, st, dev, ino), d, k) ==
            if d == dev && k == ino then names + [last] else []
  {
    hide NamesOf, Headers, Header, Linked, IsLink;
    HeadersShape(names, st, dev, ino);
    LinkHeader(last, st, dev, ino, false);
    var hs, h := Headers(names, st, dev, ino), Header(last, st, dev, ino, false);
    NamesOfConcat(hs, [h], d, k);
    OneName(h, d, k);
    if d != dev || k != ino {
      NamesOfNone(hs, d, k);
    }
  }

  lemma OneName(e: Entry, dev: nat, ino: nat)
    ensures NamesOf([e], dev, ino) == if IsLink(e) && e.dev == dev && e.ino == ino then [e.name] else []
  {
    assert [e][..0] == [];
  }

  ghost predicate Keeps(s: LinkState, es: seq<Entry>, maxino: nat) {
    maxino > 0 && Inv(s.ts, maxino) && Issued(s.ts, es)
  }

  /** What the slot says before the file is handled, in terms of its place. */
  lemma PresentIs(ts: seq<Table>, st: Stat, r: nat, maxino: nat)
    requires Inv(ts, maxino) && maxino > 0 && Chosen(ts, st.dev, st.ino, r, maxino) && Linked(st)
    ensures var q := PlaceOf(ts, st.dev, st.ino); var p := Present(ts, st, r);
      && (q.At? ==> q == At(r, p))
      && (q.Nowhere? ==> p == Info(if r < |ts| then ts[r].cnt + 1 else 1, st.nlink, [], Some(st), ""))
      && (p.nlk > 0 ==> p.st.Some? && (p.nlk == 1 ==> p.lnk != []))
  {
    if r < |ts| && st.ino in ts[r].files {
      HolderIs(ts, st.dev, st.ino, r, maxino);
      assert TableOk(ts[r], r, maxino);
    }
  }

  lemma UpdatedGrows(ts: seq<Table>, dev: nat, ino: nat, r: nat, p: Info, es: seq<Entry>)
    requires r <= |ts| && Issued(ts, es)
    ensures var us := Updated(ts, dev, ino, r, p);
      Issued(us, es) && |ts| <= |us| && Slotted(ts, dev, r)[r].cnt <= us[r].cnt
  {
  }

  lemma IssuedConcat(ts: seq<Table>, a: seq<Entry>, b: seq<Entry>)
    requires Issued(ts, a) && Issued(ts, b)
    ensures Issued(ts, a + b)
  {
  }

  /** The released group carries the number of its own node. */
  lemma ReleasedIssued(ts: seq<Table>, p: Info, f: Named, r: nat)
    requires r < |ts| && 1 <= p.fino <= ts[r].cnt && Linked(f.st)
    ensures Issued(ts, Released(p, f, r + 1))
  {
    hide Headers;
    if p.nlk == 1 {
      HeadersShape(p.lnk, f.st, r + 1, p.fino);
    }
  }

  lemma LinkKeeps(s: LinkState, f: Named, maxino: nat, es: seq<Entry>)
    requires Keeps(s, es, maxino) && Linked(f.st) && OutLink(s, f, maxino).Out?
    ensures var o := OutLink(s, f, maxino); Keeps(o.s, es + o.es, maxino)
  {
    hide Locate, Released, Chosen, Present, Inv, Issued, Collected;
    var r := Locate(s.ts, f.st.dev, f.st.ino, maxino, 0);
    LocateChooses(s.ts, f.st.dev, f.st.ino, maxino);
    var p := Present(s.ts, f.st, r);
    var c := Collected(p, f);
    PresentCollects(s.ts, f, r, maxino);
    UpdatedKeeps(s.ts, f.st.dev, f.st.ino, r, c, maxino);
    UpdatedGrows(s.ts, f.st.dev, f.st.ino, r, c, es);
    var us := Updated(s.ts, f.st.dev, f.st.ino, r, c);
    UpdatedNumbers(s.ts, f.st.dev, f.st.ino, r, c, maxino);
    ReleasedIssued(us, p, f, r);
    IssuedConcat(us, es, Released(p, f, r + 1));
  }

  lemma PresentCollects(ts: seq<Table>, f: Named, r: nat, maxino: nat)
    requires Inv(ts, maxino) && maxino > 0 && Chosen(ts, f.st.dev, f.st.ino, r, maxino) && Linked(f.st)
    ensures var p := Present(ts, f.st, r); var c := Collected(p, f);
      && Sane(c) && c.fino == p.fino
      && p.fino == if r < |ts| && f.st.ino in ts[r].files then ts[r].files[f.st.ino].fino
                   else if r < |ts| then ts[r].cnt + 1 else 1
  {
    PresentIs(ts, f.st, r, maxino);
    if r < |ts| && f.st.ino in ts[r].files {
      assert TableOk(ts[r], r, maxino);
    }
  }

  lemma UpdatedNumbers(ts: seq<Table>, dev: nat, ino: nat, r: nat, p: Info, maxino: nat)
    requires r <= |ts| && Inv(Updated(ts, dev, ino, r, p), maxino)
    ensures var us := Updated(ts, dev, ino, r, p); r < |us| && 1 <= p.fino <= us[r].cnt
  {
    var us := Updated(ts, dev, ino, r, p);
    assert TableOk(us[r], r, maxino) && us[r].files[ino] == p;
  }

  /** Different files have different numbers. */
  lemma NumbersApart(ts: seq<Table>, st: Stat, r: nat, maxino: nat, dev: nat, ino: nat)
    requires Inv(ts, maxino) && maxino > 0 && Chosen(ts, st.dev, st.ino, r, maxino) && Linked(st)
    requires PlaceOf(ts, dev, ino).At? && (dev != st.dev || ino != st.ino)
    ensures var q := PlaceOf(ts, dev, ino);
      q.slot != r || q.info.fino != Present(ts, st, r).fino
  {
    PresentIs(ts, st, r, maxino);
    var q := PlaceOf(ts, dev, ino);
    assert TableOk(ts[q.slot], q.slot, maxino);
  }

  /** Each call adds exactly its own name to what is accounted for its file. */
  lemma LinkConserves(s: LinkState, f: Named, maxino: nat, es: seq<Entry>, dev: nat, ino: nat)
    requires Keeps(s, es, maxino) && Linked(f.st) && OutLink(s, f, maxino).Out?
    ensures var o := OutLink(s, f, maxino);
      Accounted(o.s.ts, es + o.es, dev, ino) ==
      Accounted(s.ts, es, dev, ino) + if f.st.dev == dev && f.st.ino == ino then [f.name] else []
  {
    hide Locate, Chosen, Present, Inv, Issued, Updated, PlaceOf, NamesOf, Group, Headers;
    var r := Locate(s.ts, f.st.dev, f.st.ino, maxino, 0);
    LocateChooses(s.ts, f.st.dev, f.st.ino, maxino);
    PresentIs(s.ts, f.st, r, maxino);
    var p := Present(s.ts, f.st, r);
    UpdatedPlaces(s.ts, f.st.dev, f.st.ino, r, Collected(p, f), maxino, dev, ino);
    var q, out := PlaceOf(s.ts, dev, ino), Released(p, f, r + 1);
    var mine := f.st.dev == dev && f.st.ino == ino;
    var d, k := if mine then r + 1 else if q.At? then q.slot + 1 else 0,
                if mine then p.fino else if q.At? then q.info.fino else 0;
    NamesOfConcat(es, out, d, k);
    GroupNames(p.lnk, f.name, f.st, r + 1, p.fino, d, k);
    Nothing(d, k);
    if mine {
      if q.Nowhere? {
        Unissued(s.ts, es, f.st, r, maxino);
      }
    } else if q.At? {
      NumbersApart(s.ts, f.st, r, maxino, dev, ino);
    }
  }

  lemma Nothing(dev: nat, ino: nat)
    ensures NamesOf([], dev, ino) == []
  {
  }

  /** A number about to be given out has not been written yet. */
  lemma Unissued(ts: seq<Table>, es: seq<Entry>, st: Stat, r: nat, maxino: nat)
    requires Inv(ts, maxino) && maxino > 0 && Issued(ts, es)
    requires Chosen(ts, st.dev, st.ino, r, maxino) && Linked(st) && PlaceOf(ts, st.dev, st.ino).Nowhere?
    ensures NamesOf(es, r + 1, Present(ts, st, r).fino) == []
  {
    PresentIs(ts, st, r, maxino);
    NamesOfNone(es, r + 1, Present(ts, st, r).fino);
  }

  lemma {:induction false} RunKeeps(fs: seq<Named>, maxino: nat)
    requires maxino > 0 && Run(fs, maxino).Out?
    ensures Keeps(Run(fs, maxino).s, Run(fs, maxino).es, maxino)
  {
    if fs != [] {
      hide OutLink, Keeps;
      RunKeeps(fs[..|fs| - 1], maxino);
      var b, f := Run(fs[..|fs| - 1], maxino), fs[|fs| - 1];
      if Linked(f.st) {
        LinkKeeps(b.s, f, maxino, b.es);
      } else {
        SingleKeeps(b.s, f, maxino, b.es);
      }
    } else {
      NothingKept(maxino);
    }
  }

  lemma NothingKept(maxino: nat)
    requires maxino > 0
    ensures Keeps(LinkState([], FIRSTFAKEDEV, maxino, 1), [], maxino)
  {
  }

  lemma SingleKeeps(s: LinkState, f: Named, maxino: nat, es: seq<Entry>)
    requires Keeps(s, es, maxino) && !Linked(f.st) && OutSingle(s, f, maxino).Out?
    ensures var o := OutSingle(s, f, maxino); Keeps(o.s, es + o.es, maxino)
  {
    hide Inv;
  }

  /** At every moment, the names written for a file followed by the names
      collected for it are the names given for it, in order. */
  lemma {:induction false} RunConserves(fs: seq<Named>, maxino: nat, dev: nat, ino: nat)
    requires maxino > 0 && Run(fs, maxino).Out?
    ensures Accounted(Run(fs, maxino).s.ts, Run(fs, maxino).es, dev, ino) == Given(fs, dev, ino)
  {
    if fs != [] {
      hide Accounted, Keeps, OutLink;
      var b, f := Run(fs[..|fs| - 1], maxino), fs[|fs| - 1];
      RunKeeps(fs[..|fs| - 1], maxino);
      RunConserves(fs[..|fs| - 1], maxino, dev, ino);
      if Linked(f.st) {
        LinkConserves(b.s, f, maxino, b.es, dev, ino);
      } else {
        SingleConserves(b.s, f, maxino, b.es, dev, ino);
      }
    } else {
      NothingAccounted(dev, ino);
    }
  }

  lemma NothingAccounted(dev: nat, ino: nat)
    ensures Accounted([], [], dev, ino) == []
  {
  }

  lemma SingleConserves(s: LinkState, f: Named, maxino: nat, es: seq<Entry>, dev: nat, ino: nat)
    requires maxino > 0 && !Linked(f.st) && OutSingle(s, f, maxino).Out?
    ensures var o := OutSingle(s, f, maxino); Accounted(o.s.ts, es + o.es, dev, ino) == Accounted(s.ts, es, dev, ino)
  {
    hide NamesOf, PlaceOf;
    var o := OutSingle(s, f, maxino);
    var q := PlaceOf(s.ts, dev, ino);
    if q.At? {
      NamesOfConcat(es, o.es, q.slot + 1, q.info.fino);
      NamesOfNone(o.es, q.slot + 1, q.info.fino);
    }
  }

  // ---- the final flush ----

  /** A node left with collected names: all of them, the last one with data. */
  ghost function Leftover(p: Info, dev: nat): seq<Entry> {
    if p.nlk > 0 && p.st.Some? && p.lnk != [] then
      Group(p.lnk[..|p.lnk| - 1], p.lnk[|p.lnk| - 1], p.st.value, dev, p.fino)
    else []
  }

  /** The nodes of one slot, in some order. */
  ghost function FlushSlot(t: Table, order: seq<nat>): seq<Entry>
    requires forall i :: 0 <= i < |order| ==> order[i] in t.files
  {
    if order == [] then []
    else FlushSlot(t, order[..|order| - 1]) + Leftover(t.files[order[|order| - 1]], t.fake)
  }

  /** order lists the keys of t, each once. */
  ghost predicate Lists(order: seq<nat>, t: Table) {
    && (forall i :: 0 <= i < |order| ==> order[i] in t.files)
    && (forall k :: k in t.files ==> k in order)
    && (forall i, j :: 0 <= i < j < |order| ==> order[i] != order[j])
  }

  ghost predicate AllList(orders: seq<seq<nat>>, ts: seq<Table>) {
    |orders| <= |ts| && forall i :: 0 <= i < |orders| ==> Lists(orders[i], ts[i])
  }

  ghost function FlushAll(ts: seq<Table>, orders: seq<seq<nat>>): seq<Entry>
    requires AllList(orders, ts)
  {
    if orders == [] then []
    else
      var n := |orders| - 1;
      FlushAll(ts, orders[..n]) + FlushSlot(ts[n], orders[n])
  }

  lemma LeftoverNames(p: Info, fake: nat, d: nat, k: nat)
    requires Sane(p)
    ensures NamesOf(Leftover(p, fake), d, k) ==
            if d == fake && k == p.fino && p.nlk > 0 then p.lnk else []
  {
    if p.nlk > 0 {
      var n := |p.lnk| - 1;
      GroupNames(p.lnk[..n], p.lnk[n], p.st.value, fake, p.fino, d, k);
      assert p.lnk[..n] + [p.lnk[n]] == p.lnk;
    }
  }

  lemma {:induction false} FlushSlotNames(t: Table, i: nat, maxino: nat, order: seq<nat>, d: nat, k: nat)
    requires TableOk(t, i, maxino) && forall j :: 0 <= j < |order| ==> order[j] in t.files
    requires forall j, l :: 0 <= j < l < |order| ==> order[j] != order[l]
    ensures forall j :: 0 <= j < |order| && d == i + 1 && t.files[order[j]].fino == k ==>
              NamesOf(FlushSlot(t, order), d, k) ==
              if t.files[order[j]].nlk > 0 then t.files[order[j]].lnk else []
    ensures (forall j :: 0 <= j < |order| ==> d != i + 1 || t.files[order[j]].fino != k) ==>
              NamesOf(FlushSlot(t, order), d, k) == []
  {
    hide NamesOf, Leftover, Sane;
    FlushMore(t, order);
    if order == [] {
      Nothing(d, k);
    } else {
      var n := |order| - 1;
      FlushSlotNames(t, i, maxino, order[..n], d, k);
      var last := Leftover(t.files[order[n]], t.fake);
      LeftoverNames(t.files[order[n]], t.fake, d, k);
      NamesOfConcat(FlushSlot(t, order[..n]), last, d, k);
      hide FlushSlot;
      assert forall j :: 0 <= j < n ==> order[..n][j] == order[j];
    }
  }

  lemma FlushMore(t: Table, order: seq<nat>)
    requires forall j :: 0 <= j < |order| ==> order[j] in t.files
    ensures order == [] ==> FlushSlot(t, order) == []
    ensures order != [] ==> FlushSlot(t, order) ==
                            FlushSlot(t, order[..|order| - 1]) + Leftover(t.files[order[|order| - 1]], t.fake)
  {
  }

  /** The flush writes exactly what is still collected for each file. */
  lemma {:induction false} FlushAllNames(ts: seq<Table>, maxino: nat, orders: seq<seq<nat>>, dev: nat, ino: nat)
    requires Inv(ts, maxino) && AllList(orders, ts) && PlaceOf(ts, dev, ino).At?
    ensures var q := PlaceOf(ts, dev, ino);
      NamesOf(FlushAll(ts, orders), q.slot + 1, q.info.fino) ==
      if q.slot < |orders| && q.info.nlk > 0 then q.info.lnk else []
  {
    var q := PlaceOf(ts, dev, ino);
    hide Inv, PlaceOf, NamesOf, FlushSlot;
    if orders == [] {
      Nothing(q.slot + 1, q.info.fino);
    } else {
      var n := |orders| - 1;
      FlushAllNames(ts, maxino, orders[..n], dev, ino);
      FlushOneSlot(ts, maxino, n, orders[n], dev, ino);
      NamesOfConcat(FlushAll(ts, orders[..n]), FlushSlot(ts[n], orders[n]), q.slot + 1, q.info.fino);
    }
  }

  lemma FlushOneSlot(ts: seq<Table>, maxino: nat, n: nat, order: seq<nat>, dev: nat, ino: nat)
    requires Inv(ts, maxino) && n < |ts| && Lists(order, ts[n]) && PlaceOf(ts, dev, ino).At?
    ensures var q := PlaceOf(ts, dev, ino);
      NamesOf(FlushSlot(ts[n], order), q.slot + 1, q.info.fino) ==
      if q.slot == n && q.info.nlk > 0 then q.info.lnk else []
  {
    hide FlushSlot, NamesOf, Leftover, Sane, Filled;
    var q := PlaceOf(ts, dev, ino);
    assert TableOk(ts[n], n, maxino);
    FlushSlotNames(ts[n], n, maxino, order, q.slot + 1, q.info.fino);
    if q.slot == n {
      var j :| 0 <= j < |order| && order[j] == ino;
    }
  }

  /** A member carries the slot and the number of a file. */
  ghost predicate Carries(ts: seq<Table>, e: Entry, dev: nat, ino: nat) {
    var q := PlaceOf(ts, dev, ino); q.At? && e.dev == q.slot + 1 && e.ino == q.info.fino
  }

  ghost predicate Belongs(ts: seq<Table>, e: Entry) {
    exists dev, ino :: Carries(ts, e, dev, ino)
  }

  /** Every number given out is that of a file. */
  lemma NumberHeld(ts: seq<Table>, maxino: nat, e: Entry)
    requires Inv(ts, maxino) && 1 <= e.dev <= |ts| && 1 <= e.ino <= ts[e.dev - 1].cnt
    ensures Belongs(ts, e)
  {
    var t := ts[e.dev - 1];
    assert TableOk(t, e.dev - 1, maxino) && HasNumber(t, e.ino);
    var k :| k in t.files && t.files[k].fino == e.ino;
    HolderIs(ts, t.dev, k, e.dev - 1, maxino);
    assert Carries(ts, e, t.dev, k);
  }

  lemma IssuedBelongs(ts: seq<Table>, maxino: nat, es: seq<Entry>)
    requires Inv(ts, maxino) && Issued(ts, es)
    ensures forall i :: 0 <= i < |es| && IsLink(es[i]) ==> Belongs(ts, es[i])
  {
    hide Inv, Belongs;
    forall i | 0 <= i < |es| && IsLink(es[i]) ensures Belongs(ts, es[i]) {
      NumberHeld(ts, maxino, es[i]);
    }
  }

  /** The flush writes links only, and under numbers that were given out. */
  ghost predicate LinksOf(ts: seq<Table>, es: seq<Entry>) {
    Issued(ts, es) && forall i :: 0 <= i < |es| ==> IsLink(es[i])
  }

  lemma LinksConcat(ts: seq<Table>, a: seq<Entry>, b: seq<Entry>)
    requires LinksOf(ts, a) && LinksOf(ts, b)
    ensures LinksOf(ts, a + b)
  {
  }

  lemma LeftoverLinks(ts: seq<Table>, maxino: nat, n: nat, k: nat)
    requires n < |ts| && TableOk(ts[n], n, maxino) && k in ts[n].files
    ensures LinksOf(ts, Leftover(ts[n].files[k], ts[n].fake))
  {
    var p := ts[n].files[k];
    assert Sane(p) && 1 <= p.fino <= ts[n].cnt;
    hide Headers, TableOk;
    if p.nlk > 0 {
      HeadersShape(p.lnk[..|p.lnk| - 1], p.st.value, ts[n].fake, p.fino);
    }
  }

  lemma {:induction false} FlushSlotLinks(ts: seq<Table>, maxino: nat, n: nat, order: seq<nat>)
    requires n < |ts| && TableOk(ts[n], n, maxino) && forall i :: 0 <= i < |order| ==> order[i] in ts[n].files
    ensures LinksOf(ts, FlushSlot(ts[n], order))
  {
    if order != [] {
      hide Leftover, TableOk, LinksOf;
      FlushSlotLinks(ts, maxino, n, order[..|order| - 1]);
      LeftoverLinks(ts, maxino, n, order[|order| - 1]);
      LinksConcat(ts, FlushSlot(ts[n], order[..|order| - 1]), Leftover(ts[n].files[order[|order| - 1]], ts[n].fake));
    }
  }

  lemma {:induction false} FlushLinks(ts: seq<Table>, maxino: nat, orders: seq<seq<nat>>)
    requires Inv(ts, maxino) && AllList(orders, ts)
    ensures LinksOf(ts, FlushAll(ts, orders))
  {
    if orders != [] {
      hide FlushSlot, TableOk, LinksOf;
      var n := |orders| - 1;
      FlushLinks(ts, maxino, orders[..n]);
      assert TableOk(ts[n], n, maxino);
      FlushSlotLinks(ts, maxino, n, orders[n]);
      LinksConcat(ts, FlushAll(ts, orders[..n]), FlushSlot(ts[n], orders[n]));
    }
  }

  /** After the flush every given name has been written exactly once, in the
      order given, under the one number of its file; and no link has been
      written under any other number. */
  lemma AllWritten(fs: seq<Named>, maxino: nat, orders: seq<seq<nat>>, dev: nat, ino: nat)
    requires maxino > 0 && Run(fs, maxino).Out?
    requires AllList(orders, Run(fs, maxino).s.ts) && |orders| == |Run(fs, maxino).s.ts|
    ensures var o := Run(fs, maxino); var q := PlaceOf(o.s.ts, dev, ino);
      if q.At? then NamesOf(o.es + FlushAll(o.s.ts, orders), q.slot + 1, q.info.fino) == Given(fs, dev, ino)
      else Given(fs, dev, ino) == []
    ensures var o := Run(fs, maxino); var es := o.es + FlushAll(o.s.ts, orders);
      forall i :: 0 <= i < |es| && IsLink(es[i]) ==> Belongs(o.s.ts, es[i])
  {
    hide Run, Given, FlushAll, NamesOf, Lists, Belongs, Issued;
    var o := Run(fs, maxino);
    RunKeeps(fs, maxino);
    RunConserves(fs, maxino, dev, ino);
    var q := PlaceOf(o.s.ts, dev, ino);
    if q.At? {
      FlushAllNames(o.s.ts, maxino, orders, dev, ino);
      NamesOfConcat(o.es, FlushAll(o.s.ts, orders), q.slot + 1, q.info.fino);
    }
    FlushLinks(o.s.ts, maxino, orders);
    IssuedConcat(o.s.ts, o.es, FlushAll(o.s.ts, orders));
    IssuedBelongs(o.s.ts, maxino, o.es + FlushAll(o.s.ts, orders));
  }

  /** A file has a place only if a name was given for it. */
  lemma {:induction false} PlacedGiven(fs: seq<Named>, maxino: nat, dev: nat, ino: nat)
    requires maxino > 0 && Run(fs, maxino).Out? && PlaceOf(Run(fs, maxino).s.ts, dev, ino).At?
    ensures Given(fs, dev, ino) != []
  {
    if fs != [] {
      hide PlaceOf, OutFile, Keeps;
      var n := |fs| - 1;
      RunLast(fs, maxino);
      RunKeeps(fs[..n], maxino);
      PlacedBefore(Run(fs[..n], maxino).s, fs[n], maxino, Run(fs[..n], maxino).es, dev, ino);
      if PlaceOf(Run(fs[..n], maxino).s.ts, dev, ino).At? {
        PlacedGiven(fs[..n], maxino, dev, ino);
      }
    }
  }

  lemma PlacedBefore(s: LinkState, f: Named, maxino: nat, es: seq<Entry>, dev: nat, ino: nat)
    requires Keeps(s, es, maxino) && OutFile(s, f, maxino).Out?
    ensures PlaceOf(OutFile(s, f, maxino).s.ts, dev, ino).At? ==>
            PlaceOf(s.ts, dev, ino).At? || (Linked(f.st) && f.st.dev == dev && f.st.ino == ino)
  {
    hide PlaceOf, Inv, Issued, Locate, Chosen, Present, Updated, Collected, Released;
    if Linked(f.st) {
      var r := Locate(s.ts, f.st.dev, f.st.ino, maxino, 0);
      LocateChooses(s.ts, f.st.dev, f.st.ino, maxino);
      UpdatedPlaces(s.ts, f.st.dev, f.st.ino, r, Collected(Present(s.ts, f.st, r), f), maxino, dev, ino);
    }
  }

  // ---- groups stay together ----

  /** One single file, or one whole link group. */
  ghost predicate IsBlock(b: seq<Entry>) {
    || (|b| == 1 && !IsLink(b[0]))
    || (exists names, last, st, dev, ino :: Linked(st) && b == Group(names, last, st, dev, ino))
  }

  ghost function Joined(bs: seq<seq<Entry>>): seq<Entry> {
    if bs == [] then [] else Joined(bs[..|bs| - 1]) + bs[|bs| - 1]
  }

  ghost predicate Blocks(bs: seq<seq<Entry>>, es: seq<Entry>) {
    Joined(bs) == es && forall i :: 0 <= i < |bs| ==> IsBlock(bs[i])
  }

  lemma AppendBlock(bs: seq<seq<Entry>>, es: seq<Entry>, b: seq<Entry>) returns (cs: seq<seq<Entry>>)
    requires Blocks(bs, es) && (b == [] || IsBlock(b))
    ensures Blocks(cs, es + b)
  {
    if b == [] {
      cs := bs;
      assert es + b == es;
    } else {
      cs := bs + [b];
      assert cs[..|bs|] == bs;
    }
  }

  /** The entries written last for f: its own entry, with its size and its link
      count, behind links that carry no data. */
  ghost predicate Ends(f: Named, b: seq<Entry>) {
    && b != []
    && b[|b| - 1].name == f.name && b[|b| - 1].size == f.st.size && b[|b| - 1].dir == f.st.dir
    && (forall i :: 0 <= i < |b| ==> b[i].nlink == if f.st.nlink > 0xFFFF_FFFF then 0xFFFF_FFFF else f.st.nlink)
    && (forall i :: 0 <= i < |b| - 1 ==> b[i].size == 0)
    && (if Linked(f.st) then forall i :: 0 <= i < |b| ==> IsLink(b[i]) else |b| == 1 && !IsLink(b[0]))
  }

  lemma GroupEnds(names: seq<string>, f: Named, dev: nat, ino: nat)
    requires Linked(f.st)
    ensures Ends(f, Group(names, f.name, f.st, dev, ino))
  {
    hide Headers, Header, NamesOf, Linked, IsLink;
    HeadersShape(names, f.st, dev, ino);
    LinkHeader(f.name, f.st, dev, ino, false);
    HeaderDir(f.name, f.st, dev, ino);
  }

  lemma HeaderDir(name: string, st: Stat, dev: nat, ino: nat)
    ensures Header(name, st, dev, ino, false).dir == st.dir
  {
  }

  lemma ReleasedBlock(p: Info, f: Named, dev: nat)
    requires Linked(f.st)
    ensures Released(p, f, dev) == [] || (IsBlock(Released(p, f, dev)) && Ends(f, Released(p, f, dev)))
  {
    hide Ends;
    if p.nlk == 1 {
      GroupEnds(p.lnk, f, dev, p.fino);
    }
  }

  /** Whatever a call of outfile writes is a block that ends with the file just
      given, with its size. */
  lemma FileEnds(s: LinkState, f: Named, maxino: nat)
    requires maxino > 0 && OutFile(s, f, maxino).Out?
    ensures var es := OutFile(s, f, maxino).es; es == [] || (IsBlock(es) && Ends(f, es))
  {
    if Linked(f.st) {
      hide Locate, Present, Updated, Released, IsBlock, Ends;
      var r := Locate(s.ts, f.st.dev, f.st.ino, maxino, 0);
      ReleasedBlock(Present(s.ts, f.st, r), f, r + 1);
    }
  }

  /** Block number i ends with the given file number ends[i]; later blocks with
      later files. */
  ghost predicate EndedBy(bs: seq<seq<Entry>>, ends: seq<nat>, fs: seq<Named>) {
    && |ends| == |bs|
    && (forall i :: 0 <= i < |bs| ==> ends[i] < |fs| && Ends(fs[ends[i]], bs[i]))
    && (forall i, j :: 0 <= i < j < |bs| ==> ends[i] < ends[j])
  }

  lemma OneMoreEnds(bs: seq<seq<Entry>>, ends: seq<nat>, fs: seq<Named>, f: Named, b: seq<Entry>)
    requires EndedBy(bs, ends, fs) && Ends(f, b)
    ensures EndedBy(bs + [b], ends + [|fs|], fs + [f]) && EndedBy(bs, ends, fs + [f])
  {
    hide Ends;
  }

  lemma NoMoreEnds(bs: seq<seq<Entry>>, ends: seq<nat>, fs: seq<Named>, f: Named)
    requires EndedBy(bs, ends, fs)
    ensures EndedBy(bs, ends, fs + [f])
  {
    hide Ends;
  }

  /** What a run writes is a sequence of single files and whole groups, each
      ended by another of the given files, in order, with its own data. */
  lemma {:induction false} RunBlocks(fs: seq<Named>, maxino: nat) returns (bs: seq<seq<Entry>>, ends: seq<nat>)
    requires maxino > 0 && Run(fs, maxino).Out?
    ensures Blocks(bs, Run(fs, maxino).es) && EndedBy(bs, ends, fs)
  {
    hide *;
    bs, ends := [], [];
    if fs == [] {
      NoneWritten(maxino);
    } else {
      var n := |fs| - 1;
      RunLast(fs, maxino);
      var b := Run(fs[..n], maxino);
      bs, ends := RunBlocks(fs[..n], maxino);
      FileEnds(b.s, fs[n], maxino);
      var es := OutFile(b.s, fs[n], maxino).es;
      assert fs[..n] + [fs[n]] == fs;
      if es == [] {
        NoMoreEnds(bs, ends, fs[..n], fs[n]);
        assert b.es + es == b.es;
      } else {
        OneMoreEnds(bs, ends, fs[..n], fs[n], es);
        OneMoreBlock(bs, b.es, es);
        bs, ends := bs + [es], ends + [n];
      }
    }
  }

  lemma NoneWritten(maxino: nat)
    requires maxino > 0
    ensures Blocks([], Run([], maxino).es) && EndedBy([], [], [])
  {
  }

  lemma OneMoreBlock(bs: seq<seq<Entry>>, es: seq<Entry>, b: seq<Entry>)
    requires Blocks(bs, es) && IsBlock(b)
    ensures Blocks(bs + [b], es + b)
  {
    hide IsBlock;
    assert (bs + [b])[..|bs|] == bs;
  }

  lemma LeftoverBlock(t: Table, i: nat, maxino: nat, k: nat)
    requires TableOk(t, i, maxino) && k in t.files
    ensures var left := Leftover(t.files[k], t.fake); left == [] || IsBlock(left)
  {
    hide Group;
    assert Sane(t.files[k]);
  }

  lemma {:induction false} SlotBlocks(t: Table, i: nat, maxino: nat, order: seq<nat>, bs: seq<seq<Entry>>, es: seq<Entry>)
    returns (cs: seq<seq<Entry>>)
    requires TableOk(t, i, maxino) && Blocks(bs, es) && forall j :: 0 <= j < |order| ==> order[j] in t.files
    ensures Blocks(cs, es + FlushSlot(t, order))
  {
    hide TableOk, Blocks, IsBlock, Leftover;
    FlushMore(t, order);
    if order == [] {
      cs := bs;
      assert es + [] == es;
    } else {
      var n := |order| - 1;
      cs := SlotBlocks(t, i, maxino, order[..n], bs, es);
      var left := Leftover(t.files[order[n]], t.fake);
      LeftoverBlock(t, i, maxino, order[n]);
      cs := AppendBlock(cs, es + FlushSlot(t, order[..n]), left);
      assert es + FlushSlot(t, order[..n]) + left == es + (FlushSlot(t, order[..n]) + left);
    }
  }

  lemma {:induction false} FlushBlocks(ts: seq<Table>, maxino: nat, orders: seq<seq<nat>>,
                                       bs: seq<seq<Entry>>, es: seq<Entry>) returns (cs: seq<seq<Entry>>)
    requires Inv(ts, maxino) && AllList(orders, ts) && Blocks(bs, es)
    ensures Blocks(cs, es + FlushAll(ts, orders))
  {
    hide IsBlock, Joined, FlushSlot, TableOk;
    if orders == [] {
      cs := bs;
      assert es + [] == es;
    } else {
      var n := |orders| - 1;
      cs := FlushBlocks(ts, maxino, orders[..n], bs, es);
      assert TableOk(ts[n], n, maxino);
      cs := SlotBlocks(ts[n], n, maxino, orders[n], cs, es + FlushAll(ts, orders[..n]));
      assert es + FlushAll(ts, orders[..n]) + FlushSlot(ts[n], orders[n]) == es + FlushAll(ts, orders);
    }
  }
}
