/**
 Hard links in the old cpio formats: each link is written at once, under the
 number of its file.  With at most 262143 or 65535 numbers on a slot, devices
 do spill over several slots here.
 */
module LinkPlain {
  import opened Basics
  import opened InodeForest
  import opened LinkSpec
  import opened LinkNumbers

  /** A node of which only the number is used. */
  ghost function Numbered(n: nat): Info {
    Info(n, 0, [], None, "")
  }

  ghost function OutLinkPlain(s: LinkState, f: Named, maxino: nat): Outcome
    requires Linked(f.st)
  {
    var r := Locate(s.ts, f.st.dev, f.st.ino, maxino, 0);
    if r + 1 >= s.fakedev then Fatal
    else
      var n := Present(s.ts, f.st, r).fino;
      Out(s.(ts := Updated(s.ts, f.st.dev, f.st.ino, r, Numbered(n)), harddev := r + 1),
          [Header(f.name, f.st, r + 1, n, false)])
  }

  ghost function OutPlain(s: LinkState, f: Named, maxino: nat): Outcome
    requires maxino > 0
  {
    if Linked(f.st) then OutLinkPlain(s, f, maxino) else OutSingle(s, f, maxino)
  }

  ghost function RunPlain(fs: seq<Named>, maxino: nat): Outcome
    requires maxino > 0
  {
    if fs == [] then Out(LinkState([], FIRSTFAKEDEV, maxino, 1), [])
    else
      var before := RunPlain(fs[..|fs| - 1], maxino);
      if before.Fatal? then Fatal
      else
        var now := OutPlain(before.s, fs[|fs| - 1], maxino);
        if now.Fatal? then Fatal else Out(now.s, before.es + now.es)
  }

  /** A member is there for a file; a link carries the file's number. */
  ghost predicate Stands(ts: seq<Table>, f: Named, e: Entry) {
    && e.name == f.name && e.size == f.st.size && e.dir == f.st.dir && (IsLink(e) <==> Linked(f.st))
    && e.nlink == (if f.st.nlink > 0xFFFF_FFFF then 0xFFFF_FFFF else f.st.nlink)
    && (Linked(f.st) ==> Carries(ts, e, f.st.dev, f.st.ino))
  }

  /** Handling one file keeps the numbers of all the others. */
  lemma StillCarries(s: LinkState, f: Named, maxino: nat, e: Entry, dev: nat, ino: nat)
    requires maxino > 0 && Inv(s.ts, maxino) && OutPlain(s, f, maxino).Out? && Carries(s.ts, e, dev, ino)
    ensures Carries(OutPlain(s, f, maxino).s.ts, e, dev, ino)
  {
    hide PlaceOf, Inv, Locate, Chosen, Present, Updated;
    if Linked(f.st) {
      var r := Locate(s.ts, f.st.dev, f.st.ino, maxino, 0);
      LocateChooses(s.ts, f.st.dev, f.st.ino, maxino);
      PresentIs(s.ts, f.st, r, maxino);
      UpdatedPlaces(s.ts, f.st.dev, f.st.ino, r, Numbered(Present(s.ts, f.st, r).fino), maxino, dev, ino);
    }
  }

  lemma PlainKeeps(s: LinkState, f: Named, maxino: nat)
    requires maxino > 0 && Inv(s.ts, maxino) && OutPlain(s, f, maxino).Out?
    ensures var o := OutPlain(s, f, maxino);
      Inv(o.s.ts, maxino) && |o.es| == 1 && Stands(o.s.ts, f, o.es[0])
  {
    hide PlaceOf, Inv, Locate, Chosen, Updated;
    if Linked(f.st) {
      var r := Locate(s.ts, f.st.dev, f.st.ino, maxino, 0);
      var p := Numbered(Present(s.ts, f.st, r).fino);
      LocateChooses(s.ts, f.st.dev, f.st.ino, maxino);
      PresentCollects(s.ts, f, r, maxino);
      hide Present;
      UpdatedKeeps(s.ts, f.st.dev, f.st.ino, r, p, maxino);
      UpdatedPlaces(s.ts, f.st.dev, f.st.ino, r, p, maxino, f.st.dev, f.st.ino);
    }
  }

  ghost predicate AllStand(ts: seq<Table>, fs: seq<Named>, es: seq<Entry>) {
    |es| == |fs| && forall i :: 0 <= i < |fs| ==> Stands(ts, fs[i], es[i])
  }

  lemma OneStands(ts: seq<Table>, fs: seq<Named>, es: seq<Entry>, f: Named, e: Entry)
    requires AllStand(ts, fs, es) && Stands(ts, f, e)
    ensures AllStand(ts, fs + [f], es + [e])
  {
    hide Stands;
  }

  lemma {:induction false} RunStands(fs: seq<Named>, maxino: nat)
    requires maxino > 0 && RunPlain(fs, maxino).Out?
    ensures Inv(RunPlain(fs, maxino).s.ts, maxino) && AllStand(RunPlain(fs, maxino).s.ts, fs, RunPlain(fs, maxino).es)
  {
    hide *;
    if fs != [] {
      var n := |fs| - 1;
      PlainLast(fs, maxino);
      RunStands(fs[..n], maxino);
      var b := RunPlain(fs[..n], maxino);
      var now := OutPlain(b.s, fs[n], maxino);
      PlainKeeps(b.s, fs[n], maxino);
      AllStillStand(b.s, fs[n], maxino, fs[..n], b.es);
      OneStands(now.s.ts, fs[..n], b.es, fs[n], now.es[0]);
      assert fs[..n] + [fs[n]] == fs && now.es == [now.es[0]];
    } else {
      NonePlain(maxino);
    }
  }

  lemma PlainLast(fs: seq<Named>, maxino: nat)
    requires maxino > 0 && fs != [] && RunPlain(fs, maxino).Out?
    ensures var b := RunPlain(fs[..|fs| - 1], maxino);
      b.Out? && var now := OutPlain(b.s, fs[|fs| - 1], maxino); now.Out? && RunPlain(fs, maxino) == Out(now.s, b.es + now.es)
  {
    hide OutPlain;
  }

  lemma NonePlain(maxino: nat)
    requires maxino > 0
    ensures var o := RunPlain([], maxino); o.Out? && Inv(o.s.ts, maxino) && AllStand(o.s.ts, [], o.es)
  {
  }

  lemma StillStands(s: LinkState, f: Named, maxino: nat, g: Named, e: Entry)
    requires maxino > 0 && Inv(s.ts, maxino) && OutPlain(s, f, maxino).Out? && Stands(s.ts, g, e)
    ensures Stands(OutPlain(s, f, maxino).s.ts, g, e)
  {
    hide Inv, OutPlain, Carries;
    if Linked(g.st) {
      StillCarries(s, f, maxino, e, g.st.dev, g.st.ino);
    }
  }

  lemma AllStillStand(s: LinkState, f: Named, maxino: nat, gs: seq<Named>, es: seq<Entry>)
    requires maxino > 0 && Inv(s.ts, maxino) && OutPlain(s, f, maxino).Out? && AllStand(s.ts, gs, es)
    ensures AllStand(OutPlain(s, f, maxino).s.ts, gs, es)
  {
    hide Inv, OutPlain, Stands;
    forall i | 0 <= i < |gs| ensures Stands(OutPlain(s, f, maxino).s.ts, gs[i], es[i]) {
      StillStands(s, f, maxino, gs[i], es[i]);
    }
  }

  /** Every file given is written at once and with its data; and two links in
      the archive share device and inode exactly when they are links to the
      same file, however many slots its device has filled. */
  lemma PlainLinks(fs: seq<Named>, maxino: nat, i: nat, j: nat)
    requires maxino > 0 && RunPlain(fs, maxino).Out? && i < |fs| && j < |fs| && Linked(fs[i].st) && Linked(fs[j].st)
    ensures var es := RunPlain(fs, maxino).es;
      && |es| == |fs| && es[i].name == fs[i].name && es[i].size == fs[i].st.size && IsLink(es[i])
      && ((es[i].dev == es[j].dev && es[i].ino == es[j].ino) <==>
          (fs[i].st.dev == fs[j].st.dev && fs[i].st.ino == fs[j].st.ino))
  {
    hide RunPlain, PlaceOf, Inv;
    RunStands(fs, maxino);
    assert Stands(RunPlain(fs, maxino).s.ts, fs[i], RunPlain(fs, maxino).es[i]);
    assert Stands(RunPlain(fs, maxino).s.ts, fs[j], RunPlain(fs, maxino).es[j]);
    SameNumberSameFile(RunPlain(fs, maxino).s.ts, maxino, fs[i].st.dev, fs[i].st.ino, fs[j].st.dev, fs[j].st.ino);
  }

  // ---- links and single files ----

  /** A file has a place only if it was given with links. */
  lemma {:induction false} PlacedPlain(fs: seq<Named>, maxino: nat, dev: nat, ino: nat)
    requires maxino > 0 && RunPlain(fs, maxino).Out? && PlaceOf(RunPlain(fs, maxino).s.ts, dev, ino).At?
    ensures exists i :: 0 <= i < |fs| && IsFile(fs[i], dev, ino)
  {
    hide PlaceOf, OutPlain, Inv, RunPlain, AllStand, IsFile;
    if fs == [] {
      NoPlace(maxino, dev, ino);
    } else {
      var n := |fs| - 1;
      PlainLast(fs, maxino);
      RunStands(fs[..n], maxino);
      var b := RunPlain(fs[..n], maxino);
      PlacedOne(b.s, fs[n], maxino, dev, ino);
      if PlaceOf(b.s.ts, dev, ino).At? {
        PlacedPlain(fs[..n], maxino, dev, ino);
        var i :| 0 <= i < n && IsFile(fs[..n][i], dev, ino);
        assert IsFile(fs[i], dev, ino);
      }
    }
  }

  ghost predicate IsFile(f: Named, dev: nat, ino: nat) {
    Linked(f.st) && f.st.dev == dev && f.st.ino == ino
  }

  lemma NoPlace(maxino: nat, dev: nat, ino: nat)
    requires maxino > 0
    ensures PlaceOf(RunPlain([], maxino).s.ts, dev, ino).Nowhere?
  {
  }

  lemma PlacedOne(s: LinkState, f: Named, maxino: nat, dev: nat, ino: nat)
    requires maxino > 0 && Inv(s.ts, maxino) && OutPlain(s, f, maxino).Out?
    ensures PlaceOf(OutPlain(s, f, maxino).s.ts, dev, ino).At? ==> PlaceOf(s.ts, dev, ino).At? || IsFile(f, dev, ino)
  {
    hide PlaceOf, Inv, Locate, Chosen, Present, Updated;
    if Linked(f.st) {
      var r := Locate(s.ts, f.st.dev, f.st.ino, maxino, 0);
      LocateChooses(s.ts, f.st.dev, f.st.ino, maxino);
      UpdatedPlaces(s.ts, f.st.dev, f.st.ino, r, Numbered(Present(s.ts, f.st, r).fino), maxino, dev, ino);
    }
  }

  /** The links carry exactly the numbers given out. */
  lemma LinksCarryPlain(fs: seq<Named>, maxino: nat, d: nat, k: nat)
    requires maxino > 0 && RunPlain(fs, maxino).Out?
    ensures LinkIn(RunPlain(fs, maxino).es, d, k) <==> LinkNumber(RunPlain(fs, maxino).s, d, k)
  {
    hide RunPlain, Inv, PlaceOf;
    RunStands(fs, maxino);
    var o := RunPlain(fs, maxino);
    if LinkIn(o.es, d, k) {
      var i :| 0 <= i < |o.es| && IsLink(o.es[i]) && o.es[i].dev == d && o.es[i].ino == k;
      assert Stands(o.s.ts, fs[i], o.es[i]);
      CarriedNumber(o.s.ts, maxino, o.es[i], fs[i].st.dev, fs[i].st.ino);
    }
    if LinkNumber(o.s, d, k) {
      var e := Entry("", d, k, 0, 0, false);
      NumberHeld(o.s.ts, maxino, e);
      var dev, ino :| Carries(o.s.ts, e, dev, ino);
      PlacedPlain(fs, maxino, dev, ino);
      var i :| 0 <= i < |fs| && IsFile(fs[i], dev, ino);
      assert Stands(o.s.ts, fs[i], o.es[i]);
    }
  }

  lemma CarriedNumber(ts: seq<Table>, maxino: nat, e: Entry, dev: nat, ino: nat)
    requires Inv(ts, maxino) && Carries(ts, e, dev, ino)
    ensures 1 <= e.dev <= |ts| && 1 <= e.ino <= ts[e.dev - 1].cnt
  {
    var q := PlaceOf(ts, dev, ino);
    assert TableOk(ts[q.slot], q.slot, maxino);
  }

  /** The other members are numbered in turn, and the slots stay below the
      first fake device. */
  lemma {:induction false} PlainSingles(fs: seq<Named>, maxino: nat)
    requires maxino > 0 && RunPlain(fs, maxino).Out?
    ensures var o := RunPlain(fs, maxino); var ss := Singles(o.es);
      Counted(o.s, |ss|, maxino) && |o.s.ts| < FIRSTFAKEDEV &&
      forall i :: 0 <= i < |ss| ==> ss[i].dev == FIRSTFAKEDEV - i / maxino && ss[i].ino == maxino - i % maxino
  {
    hide RunPlain, OutPlain, Singles, Counted;
    if fs == [] {
      PlainNone(maxino);
      ZeroTimes(maxino);
      NoSingles([]);
    } else {
      var n := |fs| - 1;
      PlainLast(fs, maxino);
      PlainSingles(fs[..n], maxino);
      var b := RunPlain(fs[..n], maxino);
      SinglesConcat(b.es, OutPlain(b.s, fs[n], maxino).es);
      PlainStep(b.s, fs[n], |Singles(b.es)|, maxino);
    }
  }

  lemma PlainNone(maxino: nat)
    requires maxino > 0
    ensures RunPlain([], maxino) == Out(LinkState([], FIRSTFAKEDEV, maxino, 1), [])
  {
  }

  lemma PlainStep(s: LinkState, f: Named, n: nat, maxino: nat)
    requires maxino > 0 && Counted(s, n, maxino) && |s.ts| < FIRSTFAKEDEV && OutPlain(s, f, maxino).Out?
    ensures var o := OutPlain(s, f, maxino);
      && |o.s.ts| < FIRSTFAKEDEV
      && if Linked(f.st) then Singles(o.es) == [] && Counted(o.s, n, maxino)
         else Singles(o.es) == o.es && |o.es| == 1 && Counted(o.s, n + 1, maxino) &&
              o.es[0].dev == FIRSTFAKEDEV - n / maxino && o.es[0].ino == maxino - n % maxino
  {
    hide Locate, Present, Singles;
    var o := OutPlain(s, f, maxino);
    if Linked(f.st) {
      NoSingles(o.es);
    } else {
      SingleStep(s, f, n, maxino);
      OneSingle(o.es);
    }
  }

  /** In these formats too no link shares its number with a single file exactly
      while the single-file device lies above all slots, or on the last slot
      with enough inodes left. */
  lemma PlainApart(fs: seq<Named>, maxino: nat)
    requires maxino > 0 && RunPlain(fs, maxino).Out?
    ensures NoShared(RunPlain(fs, maxino).es) <==> Apart(RunPlain(fs, maxino).s)
  {
    hide *;
    var o := RunPlain(fs, maxino);
    RunStands(fs, maxino);
    PlainSingles(fs, maxino);
    forall d, k ensures LinkIn(o.es, d, k) <==> LinkNumber(o.s, d, k) {
      LinksCarryPlain(fs, maxino, d, k);
    }
    forall d, k ensures SingleIn(o.es, d, k) <==> SingleNumber(o.s, maxino, d, k) {
      SinglesIn(o.es, [], d, k);
      assert o.es + [] == o.es;
      SinglesAt(o.s, maxino, Singles(o.es), d, k);
    }
    SharedNumbers(o.es, o.s, maxino, |Singles(o.es)|);
  }
}
