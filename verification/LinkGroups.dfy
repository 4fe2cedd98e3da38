/**
 Writer and reader together, while the link counts of the files do not change:
 every group that outfile completes is offered whole, with its data, when its
 last member is read.
 */
module LinkGroups {
  import opened Basics
  import opened InodeForest
  import opened LinkSpec
  import opened LinkNumbers
  import opened LinkReadSpec
  import opened LinkData

  type Links = (nat, nat) -> nat

  /** Every file shows the same link count each time it is met. */
  ghost predicate Steady(fs: seq<Named>, links: Links) {
    forall i :: 0 <= i < |fs| && Linked(fs[i].st) ==>
      fs[i].st.nlink == links(fs[i].st.dev, fs[i].st.ino) <= MAXNLINK
  }

  /** Names collected and names outstanding make up the link count. */
  ghost predicate Counts(p: Info, n: nat) {
    p.nlk > 0 ==> |p.lnk| + p.nlk == n
  }

  ghost predicate Counting(ts: seq<Table>, links: Links) {
    forall d, k :: PlaceOf(ts, d, k).At? ==> Counts(PlaceOf(ts, d, k).info, links(d, k))
  }

  ghost predicate IsComplete(b: seq<Entry>, names: seq<string>, last: string, st: Stat, dev: nat, ino: nat) {
    Linked(st) && |names| + 1 == Header("", st, dev, ino, false).nlink && b == Group(names, last, st, dev, ino)
  }

  /** One single file, or a group with as many members as the file has links. */
  ghost predicate Complete(b: seq<Entry>) {
    || (|b| == 1 && !IsLink(b[0]))
    || (exists names, last, st, dev, ino :: IsComplete(b, names, last, st, dev, ino))
  }

  ghost predicate Completes(bs: seq<seq<Entry>>, es: seq<Entry>) {
    Joined(bs) == es && forall i :: 0 <= i < |bs| ==> Complete(bs[i])
  }

  lemma AppendComplete(bs: seq<seq<Entry>>, es: seq<Entry>, b: seq<Entry>) returns (cs: seq<seq<Entry>>)
    requires Completes(bs, es) && (b == [] || Complete(b))
    ensures Completes(cs, es + b)
  {
    if b == [] {
      cs := bs;
      assert es + b == es;
    } else {
      cs := bs + [b];
      assert cs[..|bs|] == bs;
    }
  }

  /** One more name keeps the count, and what it releases is complete. */
  lemma CountCollected(p: Info, f: Named, n: nat, dev: nat)
    requires Linked(f.st) && f.st.nlink == n <= MAXNLINK && Counts(p, n)
    ensures Counts(Collected(p, f), n) && (Released(p, f, dev) == [] || Complete(Released(p, f, dev)))
  {
    if p.nlk == 1 {
      assert IsComplete(Released(p, f, dev), p.lnk, f.name, f.st, dev, p.fino);
    }
  }

  lemma LinkCounts(s: LinkState, f: Named, maxino: nat, links: Links)
    requires maxino > 0 && Inv(s.ts, maxino) && Linked(f.st) && OutLink(s, f, maxino).Out? && Counting(s.ts, links)
    requires f.st.nlink == links(f.st.dev, f.st.ino) <= MAXNLINK
    ensures var o := OutLink(s, f, maxino); Counting(o.s.ts, links) && (o.es == [] || Complete(o.es))
  {
    var r := Locate(s.ts, f.st.dev, f.st.ino, maxino, 0);
    var p := Present(s.ts, f.st, r);
    hide Inv, Locate, Present, Collected, Released, Updated, PlaceOf, Complete, Linked, Chosen;
    LocateChooses(s.ts, f.st.dev, f.st.ino, maxino);
    PresentIs(s.ts, f.st, r, maxino);
    CountCollected(p, f, f.st.nlink, r + 1);
    forall d, k | PlaceOf(Updated(s.ts, f.st.dev, f.st.ino, r, Collected(p, f)), d, k).At?
      ensures Counts(PlaceOf(Updated(s.ts, f.st.dev, f.st.ino, r, Collected(p, f)), d, k).info, links(d, k))
    {
      UpdatedPlaces(s.ts, f.st.dev, f.st.ino, r, Collected(p, f), maxino, d, k);
    }
  }

  /** What a run writes before the final flush: single files and complete
      groups, nothing else. */
  lemma {:induction false} RunCompletes(fs: seq<Named>, maxino: nat, links: Links) returns (bs: seq<seq<Entry>>)
    requires maxino > 0 && Run(fs, maxino).Out? && Steady(fs, links)
    ensures Completes(bs, Run(fs, maxino).es) && Counting(Run(fs, maxino).s.ts, links)
  {
    bs := [];
    if fs != [] {
      hide Counting, Complete, OutLink, OutSingle, Inv;
      var n := |fs| - 1;
      RunLast(fs, maxino);
      RunKeeps(fs[..n], maxino);
      bs := RunCompletes(fs[..n], maxino, links);
      var b := Run(fs[..n], maxino);
      var now := OutFile(b.s, fs[n], maxino);
      if Linked(fs[n].st) {
        LinkCounts(b.s, fs[n], maxino, links);
      } else {
        SingleCompletes(b.s, fs[n], maxino);
      }
      bs := AppendComplete(bs, b.es, now.es);
    }
  }

  lemma SingleCompletes(s: LinkState, f: Named, maxino: nat)
    requires maxino > 0 && !Linked(f.st) && OutSingle(s, f, maxino).Out?
    ensures Complete(OutSingle(s, f, maxino).es) && OutSingle(s, f, maxino).s.ts == s.ts
  {
  }

  // ---- reading it ----

  ghost predicate NothingWaits(s: ReadState) {
    Sound(s) && forall d, k :: Pending(s.ts, d, k) == []
  }

  lemma {:induction false} NamesGrow(ev: seq<Offer>, i: nat, dev: nat, ino: nat)
    requires i <= |ev|
    ensures |NamesOffered(ev[..i], dev, ino)| <= |NamesOffered(ev, dev, ino)|
  {
    if i == |ev| {
      assert ev[..i] == ev;
    } else {
      var n := |ev| - 1;
      assert ev[..n][..i] == ev[..i];
      NamesGrow(ev[..n], i, dev, ino);
    }
  }

  lemma {:induction false} MoreConserves(s: ReadState, es: seq<Entry>, sel: Choice, dev: nat, ino: nat)
    requires Sound(s)
    ensures var t := ReadMore(s, es, sel);
      && Sound(t)
      && NamesOffered(t.ev, dev, ino) + Pending(t.ts, dev, ino) ==
         NamesOffered(s.ev, dev, ino) + Pending(s.ts, dev, ino) + NamesOf(es, dev, ino)
  {
    hide ReadOne, NamesOffered, Pending, Sound;
    if es == [] {
      assert NamesOffered(s.ev, dev, ino) + Pending(s.ts, dev, ino) + [] == NamesOffered(s.ev, dev, ino) + Pending(s.ts, dev, ino);
    } else {
      var n := |es| - 1;
      MoreConserves(s, es[..n], sel, dev, ino);
      ReadStep(ReadMore(s, es[..n], sel), es[n], sel, dev, ino);
    }
  }

  /** A complete group is offered at once and leaves nothing waiting. */
  lemma CompleteRead(s: ReadState, b: seq<Entry>, sel: Choice)
    requires NothingWaits(s) && Complete(b)
    ensures NothingWaits(ReadMore(s, b, sel))
  {
    hide NothingWaits, ReadMore, IsComplete;
    if |b| == 1 && !IsLink(b[0]) {
      SingleRead(s, b, sel);
      SameTables(s, ReadMore(s, b, sel));
    } else {
      var names, last, st, dev, ino :| IsComplete(b, names, last, st, dev, ino);
      GroupDone(s, b, names, last, st, dev, ino, sel);
    }
  }

  lemma SameTables(s: ReadState, t: ReadState)
    requires NothingWaits(s) && t.ts == s.ts
    ensures NothingWaits(t)
  {
    hide OneSlot, NodesOk, Pending;
  }

  lemma GroupDone(s: ReadState, b: seq<Entry>, names: seq<string>, last: string, st: Stat, dev: nat, ino: nat, sel: Choice)
    requires NothingWaits(s) && IsComplete(b, names, last, st, dev, ino)
    ensures NothingWaits(ReadMore(s, b, sel))
  {
    hide *;
    var t := ReadMore(s, b, sel);
    Waits(s);
    Completed(b, names, last, st, dev, ino);
    GroupRead(s, names, last, st, dev, ino, sel);
    forall d, k ensures Pending(t.ts, d, k) == [] {
      MoreConserves(s, b, sel, d, k);
      GroupNames(names, last, st, dev, ino, d, k);
      NamesGrow(t.ev, |s.ev|, d, k);
    }
    MoreConserves(s, b, sel, dev, ino);
    WaitsNot(t);
  }

  lemma Waits(s: ReadState)
    requires NothingWaits(s)
    ensures Sound(s) && forall d, k :: Pending(s.ts, d, k) == []
  {
    hide Sound, Pending;
  }

  lemma WaitsNot(s: ReadState)
    requires Sound(s) && forall d, k :: Pending(s.ts, d, k) == []
    ensures NothingWaits(s)
  {
    hide Sound, Pending;
  }

  lemma Completed(b: seq<Entry>, names: seq<string>, last: string, st: Stat, dev: nat, ino: nat)
    requires IsComplete(b, names, last, st, dev, ino)
    ensures Linked(st) && |names| + 1 == Header("", st, dev, ino, false).nlink && b == Group(names, last, st, dev, ino)
  {
  }

  lemma SingleRead(s: ReadState, b: seq<Entry>, sel: Choice)
    requires |b| == 1 && !IsLink(b[0])
    ensures ReadMore(s, b, sel).ts == s.ts
  {
    assert b[..0] == [];
  }

  lemma {:induction false} MoreJoined(s: ReadState, a: seq<Entry>, b: seq<Entry>, sel: Choice)
    ensures ReadMore(s, a + b, sel) == ReadMore(ReadMore(s, a, sel), b, sel)
  {
    hide ReadOne;
    if b == [] {
      assert a + b == a;
    } else {
      assert (a + b)[..|a + b| - 1] == a + b[..|b| - 1];
      MoreJoined(s, a, b[..|b| - 1], sel);
    }
  }

  lemma {:induction false} AllIsMore(es: seq<Entry>, sel: Choice)
    ensures ReadAll(es, sel) == ReadMore(ReadState([], []), es, sel)
  {
    if es != [] {
      AllIsMore(es[..|es| - 1], sel);
    }
  }

  lemma {:induction false} BlocksRead(bs: seq<seq<Entry>>, es: seq<Entry>, sel: Choice)
    requires Completes(bs, es)
    ensures NothingWaits(ReadMore(ReadState([], []), es, sel))
  {
    if bs != [] {
      hide NothingWaits, Complete, ReadMore;
      var n := |bs| - 1;
      BlocksRead(bs[..n], Joined(bs[..n]), sel);
      MoreJoined(ReadState([], []), Joined(bs[..n]), bs[n], sel);
      CompleteRead(ReadMore(ReadState([], []), Joined(bs[..n]), sel), bs[n], sel);
    }
  }

  /** Whatever is selected: once the part written before the final flush has
      been read, no name waits; all links completed so far have been offered. */
  lemma RunRead(fs: seq<Named>, maxino: nat, links: Links, sel: Choice, d: nat, k: nat)
    requires maxino > 0 && Run(fs, maxino).Out? && Steady(fs, links)
    ensures var es := Run(fs, maxino).es; var r := ReadAll(es, sel);
      && Pending(r.ts, d, k) == [] && NamesOffered(r.ev, d, k) == NamesOf(es, d, k) && DataFor(r.ev, d, k) == DataOf(es, d, k)
  {
    var bs := RunCompletes(fs, maxino, links);
    var es := Run(fs, maxino).es;
    hide Completes, ReadAll, NamesOffered, NamesOf, Pending, DataFor, DataOf, Run, Steady, Counting;
    BlocksRead(bs, es, sel);
    AllIsMore(es, sel);
    ReadConserves(es, sel, d, k);
  }

  /** Of the names given for a file all but the last open ones were offered,
      with so many bytes of data, and none waits. */
  ghost predicate HandedOver(r: ReadState, d: nat, k: nat, given: seq<string>, open: int, data: nat) {
    && 0 <= open <= |given| && NamesOffered(r.ev, d, k) == given[..|given| - open]
    && DataFor(r.ev, d, k) == data && Pending(r.ts, d, k) == []
  }

  /** For every linked file given: the names offered are those given, all but
      the ones still collected, and the data offered for it is the data of the
      files that ended its groups. */
  lemma RunDelivered(fs: seq<Named>, maxino: nat, links: Links, sel: Choice, dev: nat, ino: nat)
    requires maxino > 0 && Run(fs, maxino).Out? && Steady(fs, links)
    ensures var o := Run(fs, maxino); var r := ReadAll(o.es, sel); var q := PlaceOf(o.s.ts, dev, ino);
      var a, given := AccountOf(fs, dev, ino), Given(fs, dev, ino);
      if q.Nowhere? then given == []
      else HandedOver(r, q.slot + 1, q.info.fino, given, if a.left == 0 then 0 else links(dev, ino) - a.left, a.data)
  {
    hide Run, ReadAll, PlaceOf, NamesOffered, NamesOf, DataFor, DataOf, Pending, AccountOf, AccountAt, Accounted, Given, Steady;
    var o := Run(fs, maxino);
    var q := PlaceOf(o.s.ts, dev, ino);
    RunAccounts(fs, maxino, dev, ino);
    RunConserves(fs, maxino, dev, ino);
    AccountedIs(o.s.ts, o.es, dev, ino);
    if q.At? {
      RunRead(fs, maxino, links, sel, q.slot + 1, q.info.fino);
      RunCounts(fs, maxino, links, dev, ino);
    }
  }

  lemma AccountedIs(ts: seq<Table>, es: seq<Entry>, dev: nat, ino: nat)
    ensures var q := PlaceOf(ts, dev, ino);
      if q.Nowhere? then Accounted(ts, es, dev, ino) == []
      else
        && Accounted(ts, es, dev, ino) == NamesOf(es, q.slot + 1, q.info.fino) + (if q.info.nlk > 0 then q.info.lnk else [])
        && AccountAt(ts, es, dev, ino) == Account(q.info.nlk, q.info.st, DataOf(es, q.slot + 1, q.info.fino))
  {
    hide PlaceOf, NamesOf, DataOf;
  }

  lemma RunCounts(fs: seq<Named>, maxino: nat, links: Links, dev: nat, ino: nat)
    requires maxino > 0 && Run(fs, maxino).Out? && Steady(fs, links) && PlaceOf(Run(fs, maxino).s.ts, dev, ino).At?
    ensures var p := PlaceOf(Run(fs, maxino).s.ts, dev, ino).info; p.nlk > 0 ==> |p.lnk| + p.nlk == links(dev, ino)
  {
    var bs := RunCompletes(fs, maxino, links);
    hide Run, PlaceOf, Steady, Completes;
  }

  /** Written as a whole archive and read to the end: the data delivered for a
      file is that of the files that ended its groups and of an open one. */
  lemma DataDelivered(fs: seq<Named>, maxino: nat, worders: seq<seq<nat>>, es: seq<Entry>, sel: Choice,
                      rorders: seq<seq<nat>>, dev: nat, ino: nat)
    requires IsArchive(fs, maxino, worders, es)
    requires AllList(rorders, ReadAll(es, sel).ts) && |rorders| == |ReadAll(es, sel).ts|
    ensures var r := ReadAll(es, sel); var q := PlaceOf(Run(fs, maxino).s.ts, dev, ino); var a := AccountOf(fs, dev, ino);
      if q.At? then DataFor(Rest(r.ev, r.ts, rorders, sel), q.slot + 1, q.info.fino) == a.data + Open(a)
      else a == Account(0, None, 0)
  {
    hide Run, ReadAll, PlaceOf, AccountOf, DataFor, DataOf, Rest, AllList, FlushAll, Open;
    ArchiveData(fs, maxino, worders, es, dev, ino);
    var q := PlaceOf(Run(fs, maxino).s.ts, dev, ino);
    if q.At? {
      AllOffered(es, rorders, sel, q.slot + 1, q.info.fino);
    }
  }
}
