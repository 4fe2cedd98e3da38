/**
 Hard links when an SVR4 cpio archive is read, as values: which names are
 offered for extraction, in which order, and which offer takes the file data
 from the archive.
 */
module LinkReadSpec {
  import opened Basics
  import opened InodeForest
  import opened LinkSpec

  /** One call of inpone: the name and status offered, whether the user wants
      it, and how many bytes it takes from the archive. */
  datatype Offer = Offer(e: Entry, taken: bool, bytes: nat)

  datatype Offered = Offered(ev: seq<Offer>, size: nat)

  datatype ReadState = ReadState(ts: seq<Table>, ev: seq<Offer>)

  /** The choice may depend on the name and on everything offered before. */
  type Choice = (nat, string) -> bool

  function StatOf(e: Entry): Stat {
    Stat(e.dev, e.ino, e.nlink, e.size, e.dir)
  }

  function HeaderOf(st: Stat): Entry {
    Entry("", st.dev, st.ino, st.nlink, st.size, st.dir)
  }

  /** Extract or skip; without shallskip an unwanted file leaves its data. */
  function Inpone(ev: seq<Offer>, e: Entry, shallskip: bool, sel: Choice): seq<Offer> {
    var taken := sel(|ev|, e.name);
    ev + [Offer(e, taken, if taken || shallskip then e.size else 0)]
  }

  /** The collected names, all with the status of e; the first one wanted
      takes the data. */
  function OfferNames(ev: seq<Offer>, names: seq<string>, e: Entry, sel: Choice): Offered {
    if names == [] then Offered(ev, e.size)
    else
      var n := |names| - 1;
      var o := OfferNames(ev, names[..n], e, sel);
      Offered(Inpone(o.ev, e.(name := names[n], size := o.size), false, sel),
              if sel(|o.ev|, names[n]) then 0 else o.size)
  }

  function Waiting(p: Option<Info>): seq<string> {
    if p.Some? && p.value.nlk > 0 then p.value.lnk else []
  }

  /** flushnode for a file just read. */
  function FlushNode(ev: seq<Offer>, p: Option<Info>, e: Entry, sel: Choice): seq<Offer> {
    var o := OfferNames(ev, Waiting(p), e, sel);
    Inpone(o.ev, e.(size := o.size), true, sel)
  }

  function Flushed(p: Info): Info {
    if p.nlk > 0 then p.(nlk := 0, lnk := [], st := None) else p
  }

  ghost function FlushLinks(s: ReadState, e: Entry, sel: Choice): ReadState {
    var p := Known(s.ts, e.dev, e.ino);
    ReadState(if p.Some? then Entered(s.ts, e.dev, e.ino, Flushed(p.value)) else WithDev(s.ts, e.dev),
              FlushNode(s.ev, p, e, sel))
  }

  /** The node after storelink, unless it is flushed. */
  ghost function Stored(p: Option<Info>, e: Entry): Info {
    if p.None? then Info(0, e.nlink, [e.name], Some(StatOf(e)), "")
    else if p.value.nlk == 0 then
      p.value.(nlk := e.nlink, name := "", st := Some(StatOf(e)), lnk := p.value.lnk + [e.name])
    else p.value.(nlk := p.value.nlk - 1, lnk := p.value.lnk + [e.name])
  }

  ghost predicate Full(p: Option<Info>) {
    p.Some? && 0 < p.value.nlk <= 2
  }

  ghost function StoreLink(s: ReadState, e: Entry, sel: Choice): ReadState {
    var p := Known(s.ts, e.dev, e.ino);
    if Full(p) then FlushLinks(s, e, sel)
    else s.(ts := Entered(s.ts, e.dev, e.ino, Stored(p, e)))
  }

  ghost function ReadOne(s: ReadState, e: Entry, sel: Choice): ReadState {
    if IsLink(e) then if e.size != 0 then FlushLinks(s, e, sel) else StoreLink(s, e, sel)
    else s.(ev := Inpone(s.ev, e, true, sel))
  }

  ghost function ReadAll(es: seq<Entry>, sel: Choice): ReadState {
    if es == [] then ReadState([], [])
    else ReadOne(ReadAll(es[..|es| - 1], sel), es[|es| - 1], sel)
  }

  // ---- the rest, after the last entry ----

  ghost function RestNode(ev: seq<Offer>, p: Info, sel: Choice): seq<Offer> {
    if p.nlk > 0 && p.st.Some? then OfferNames(ev, p.lnk, HeaderOf(p.st.value), sel).ev else ev
  }

  ghost function RestSlot(ev: seq<Offer>, t: Table, order: seq<nat>, sel: Choice): seq<Offer>
    requires forall i :: 0 <= i < |order| ==> order[i] in t.files
  {
    if order == [] then ev
    else RestNode(RestSlot(ev, t, order[..|order| - 1], sel), t.files[order[|order| - 1]], sel)
  }

  ghost function Rest(ev: seq<Offer>, ts: seq<Table>, orders: seq<seq<nat>>, sel: Choice): seq<Offer>
    requires AllList(orders, ts)
  {
    if orders == [] then ev
    else
      var n := |orders| - 1;
      RestSlot(Rest(ev, ts, orders[..n], sel), ts[n], orders[n], sel)
  }

  // ---- what is counted ----

  ghost function NamesOffered(ev: seq<Offer>, dev: nat, ino: nat): seq<string> {
    if ev == [] then []
    else
      var e := ev[|ev| - 1].e;
      NamesOffered(ev[..|ev| - 1], dev, ino) +
      if IsLink(e) && e.dev == dev && e.ino == ino then [e.name] else []
  }

  ghost function Consumed(ev: seq<Offer>): nat {
    if ev == [] then 0 else Consumed(ev[..|ev| - 1]) + ev[|ev| - 1].bytes
  }

  /** The data offered for one file only. */
  ghost function DataFor(ev: seq<Offer>, dev: nat, ino: nat): nat {
    if ev == [] then 0
    else DataFor(ev[..|ev| - 1], dev, ino) + if Mine(ev[|ev| - 1].e, dev, ino) then ev[|ev| - 1].bytes else 0
  }

  ghost function DataOf(es: seq<Entry>, dev: nat, ino: nat): nat {
    if es == [] then 0
    else DataOf(es[..|es| - 1], dev, ino) + if Mine(es[|es| - 1], dev, ino) then es[|es| - 1].size else 0
  }

  ghost function TotalSize(es: seq<Entry>): nat {
    if es == [] then 0 else TotalSize(es[..|es| - 1]) + es[|es| - 1].size
  }

  ghost predicate Mine(e: Entry, dev: nat, ino: nat) {
    IsLink(e) && e.dev == dev && e.ino == ino
  }

  lemma InponeCounts(ev: seq<Offer>, e: Entry, shallskip: bool, sel: Choice, dev: nat, ino: nat)
    ensures var out := Inpone(ev, e, shallskip, sel);
      && NamesOffered(out, dev, ino) == NamesOffered(ev, dev, ino) + (if Mine(e, dev, ino) then [e.name] else [])
      && Consumed(out) == Consumed(ev) + (if sel(|ev|, e.name) || shallskip then e.size else 0)
      && DataFor(out, dev, ino) ==
         DataFor(ev, dev, ino) + if Mine(e, dev, ino) && (sel(|ev|, e.name) || shallskip) then e.size else 0
  {
    var out := Inpone(ev, e, shallskip, sel);
    assert out[..|out| - 1] == ev;
  }

  /** All names are offered, in order; what is consumed and what remains of
      the data make up the whole. */
  lemma {:induction false} OfferCounts(ev: seq<Offer>, names: seq<string>, e: Entry, sel: Choice, dev: nat, ino: nat)
    ensures var o := OfferNames(ev, names, e, sel);
      && NamesOffered(o.ev, dev, ino) == NamesOffered(ev, dev, ino) + (if Mine(e, dev, ino) then names else [])
      && Consumed(o.ev) + o.size == Consumed(ev) + e.size
      && DataFor(o.ev, dev, ino) + (if Mine(e, dev, ino) then o.size else 0) ==
         DataFor(ev, dev, ino) + if Mine(e, dev, ino) then e.size else 0
  {
    hide *;
    OfferMore(ev, names, e, sel);
    if names != [] {
      var n := |names| - 1;
      var o := OfferNames(ev, names[..n], e, sel);
      OfferCounts(ev, names[..n], e, sel, dev, ino);
      InponeCounts(o.ev, e.(name := names[n], size := o.size), false, sel, dev, ino);
      SameMine(e, names[n], o.size, dev, ino);
      assert names[..n] + [names[n]] == names;
    } else {
      assert NamesOffered(ev, dev, ino) + [] == NamesOffered(ev, dev, ino);
    }
  }

  lemma OfferMore(ev: seq<Offer>, names: seq<string>, e: Entry, sel: Choice)
    ensures names == [] ==> OfferNames(ev, names, e, sel) == Offered(ev, e.size)
    ensures names != [] ==>
      var n := |names| - 1; var o := OfferNames(ev, names[..n], e, sel);
      OfferNames(ev, names, e, sel) == Offered(Inpone(o.ev, e.(name := names[n], size := o.size), false, sel),
                                               if sel(|o.ev|, names[n]) then 0 else o.size)
  {
  }

  lemma SameMine(e: Entry, name: string, size: nat, dev: nat, ino: nat)
    ensures Mine(e.(name := name, size := size), dev, ino) == Mine(e, dev, ino)
  {
  }

  /** The data of a group goes to the first name wanted, and to no other. */
  lemma {:induction false} FirstTakes(ev: seq<Offer>, names: seq<string>, e: Entry, sel: Choice)
    ensures var o := OfferNames(ev, names, e, sel);
      && |o.ev| == |ev| + |names| && o.ev[..|ev|] == ev
      && (forall i :: 0 <= i < |names| ==>
            o.ev[|ev| + i] == Offer(e.(name := names[i], size := if NoneWanted(names[..i], |ev|, sel) then e.size else 0),
                                    sel(|ev| + i, names[i]),
                                    if NoneWanted(names[..i], |ev|, sel) && sel(|ev| + i, names[i]) then e.size else 0))
      && o.size == if NoneWanted(names, |ev|, sel) then e.size else 0
  {
    hide *;
    OfferMore(ev, names, e, sel);
    NoneMore(names, |ev|, sel);
    if names != [] {
      var n := |names| - 1;
      var o := OfferNames(ev, names[..n], e, sel);
      FirstTakes(ev, names[..n], e, sel);
      InponeIs(o.ev, e.(name := names[n], size := o.size), false, sel);
      assert forall i :: 0 <= i <= n ==> names[..n][..i] == names[..i];
    }
  }

  lemma NoneMore(names: seq<string>, at: nat, sel: Choice)
    ensures names == [] ==> NoneWanted(names, at, sel)
    ensures names != [] ==>
              var n := |names| - 1; NoneWanted(names, at, sel) <==> NoneWanted(names[..n], at, sel) && !sel(at + n, names[n])
  {
  }

  lemma InponeIs(ev: seq<Offer>, e: Entry, shallskip: bool, sel: Choice)
    ensures var taken := sel(|ev|, e.name);
      Inpone(ev, e, shallskip, sel) == ev + [Offer(e, taken, if taken || shallskip then e.size else 0)]
  {
  }

  /** None of these names, offered from position at on, is wanted. */
  ghost predicate NoneWanted(names: seq<string>, at: nat, sel: Choice) {
    forall i :: 0 <= i < |names| ==> !sel(at + i, names[i])
  }

  lemma FlushCounts(ev: seq<Offer>, p: Option<Info>, e: Entry, sel: Choice, dev: nat, ino: nat)
    ensures var out := FlushNode(ev, p, e, sel);
      && NamesOffered(out, dev, ino) ==
         NamesOffered(ev, dev, ino) + (if Mine(e, dev, ino) then Waiting(p) + [e.name] else [])
      && Consumed(out) == Consumed(ev) + e.size
      && DataFor(out, dev, ino) == DataFor(ev, dev, ino) + if Mine(e, dev, ino) then e.size else 0
  {
    hide NamesOffered, Consumed, DataFor, Inpone, OfferNames;
    OfferCounts(ev, Waiting(p), e, sel, dev, ino);
    var o := OfferNames(ev, Waiting(p), e, sel);
    InponeCounts(o.ev, e.(size := o.size), true, sel, dev, ino);
  }

  // ---- what every run keeps ----

  /** Collected names are zero-size links of their own file. */
  ghost predicate NodeOk(p: Info, dev: nat, ino: nat) {
    if p.nlk == 0 then p.lnk == [] && p.st == None
    else p.nlk >= 2 && p.lnk != [] && p.st.Some? && Linked(p.st.value) && p.st.value.size == 0 &&
         p.st.value.dev == dev && p.st.value.ino == ino
  }

  ghost predicate OneSlot(ts: seq<Table>) {
    forall i, j :: 0 <= i < j < |ts| ==> ts[i].dev != ts[j].dev
  }

  ghost predicate NodesOk(ts: seq<Table>) {
    forall dev, ino :: Known(ts, dev, ino).Some? ==> NodeOk(Known(ts, dev, ino).value, dev, ino)
  }

  lemma OneSlotKept(ts: seq<Table>, dev: nat, ino: nat, p: Info)
    requires OneSlot(ts)
    ensures OneSlot(WithDev(ts, dev)) && OneSlot(Entered(ts, dev, ino, p))
  {
  }

  lemma NodesKept(ts: seq<Table>, dev: nat, ino: nat, p: Info)
    requires NodesOk(ts) && NodeOk(p, dev, ino)
    ensures NodesOk(Entered(ts, dev, ino, p)) && NodesOk(WithDev(ts, dev))
  {
    hide NodeOk, Entered, WithDev, Known;
    forall d, k ensures Known(Entered(ts, dev, ino, p), d, k).Some? ==> NodeOk(Known(Entered(ts, dev, ino, p), d, k).value, d, k)
      ensures Known(WithDev(ts, dev), d, k) == Known(ts, d, k)
    {
      KnownEntered(ts, dev, ino, p, d, k);
    }
  }

  /** The names still waiting for a file. */
  ghost function Pending(ts: seq<Table>, dev: nat, ino: nat): seq<string> {
    Waiting(Known(ts, dev, ino))
  }

  ghost predicate Sound(s: ReadState) {
    OneSlot(s.ts) && NodesOk(s.ts)
  }

  /** One entry: its name joins those of its file, and exactly its own data
      is consumed. */
  lemma ReadStep(s: ReadState, e: Entry, sel: Choice, dev: nat, ino: nat)
    requires Sound(s)
    ensures var t := ReadOne(s, e, sel);
      && Sound(t) && Consumed(t.ev) == Consumed(s.ev) + e.size
      && DataFor(t.ev, dev, ino) == DataFor(s.ev, dev, ino) + (if Mine(e, dev, ino) then e.size else 0)
      && NamesOffered(t.ev, dev, ino) + Pending(t.ts, dev, ino) ==
         NamesOffered(s.ev, dev, ino) + Pending(s.ts, dev, ino) + if Mine(e, dev, ino) then [e.name] else []
  {
    hide NamesOffered, Consumed, DataFor, Inpone, OfferNames, FlushNode, Known, Entered, WithDev, OneSlot, NodesOk, NodeOk, Waiting;
    if !IsLink(e) {
      InponeCounts(s.ev, e, true, sel, dev, ino);
    } else if e.size != 0 || Full(Known(s.ts, e.dev, e.ino)) {
      FlushStep(s, e, sel, dev, ino);
    } else {
      StoreStep(s, e, sel, dev, ino);
    }
  }

  lemma FlushStep(s: ReadState, e: Entry, sel: Choice, dev: nat, ino: nat)
    requires Sound(s) && IsLink(e)
    ensures var t := FlushLinks(s, e, sel);
      && Sound(t) && Consumed(t.ev) == Consumed(s.ev) + e.size
      && DataFor(t.ev, dev, ino) == DataFor(s.ev, dev, ino) + (if Mine(e, dev, ino) then e.size else 0)
      && NamesOffered(t.ev, dev, ino) + Pending(t.ts, dev, ino) ==
         NamesOffered(s.ev, dev, ino) + Pending(s.ts, dev, ino) + if Mine(e, dev, ino) then [e.name] else []
  {
    hide NamesOffered, Consumed, DataFor, FlushNode, Known, Entered, WithDev, OneSlot;
    var p := Known(s.ts, e.dev, e.ino);
    FlushCounts(s.ev, p, e, sel, dev, ino);
    var q := if p.Some? then Flushed(p.value) else Info(0, 0, [], None, "");
    assert p.Some? ==> NodeOk(p.value, e.dev, e.ino);
    KnownEntered(s.ts, e.dev, e.ino, q, dev, ino);
    OneSlotKept(s.ts, e.dev, e.ino, q);
    NodesKept(s.ts, e.dev, e.ino, q);
  }

  lemma StoreStep(s: ReadState, e: Entry, sel: Choice, dev: nat, ino: nat)
    requires Sound(s) && IsLink(e) && e.size == 0 && !Full(Known(s.ts, e.dev, e.ino))
    ensures var t := StoreLink(s, e, sel);
      && Sound(t) && t.ev == s.ev
      && Pending(t.ts, dev, ino) == Pending(s.ts, dev, ino) + if Mine(e, dev, ino) then [e.name] else []
  {
    hide Known, Entered, WithDev, OneSlot;
    var p := Known(s.ts, e.dev, e.ino);
    var q := Stored(p, e);
    assert p.Some? ==> NodeOk(p.value, e.dev, e.ino);
    KnownEntered(s.ts, e.dev, e.ino, q, dev, ino);
    OneSlotKept(s.ts, e.dev, e.ino, q);
    NodesKept(s.ts, e.dev, e.ino, q);
  }

  /** After any entries, for any choices: the names offered for a file and
      then those waiting are the names read for it, in order, and the archive
      has been consumed to the end of the last entry. */
  lemma {:induction false} ReadConserves(es: seq<Entry>, sel: Choice, dev: nat, ino: nat)
    ensures var s := ReadAll(es, sel);
      && Sound(s) && Consumed(s.ev) == TotalSize(es) && DataFor(s.ev, dev, ino) == DataOf(es, dev, ino)
      && NamesOffered(s.ev, dev, ino) + Pending(s.ts, dev, ino) == NamesOf(es, dev, ino)
  {
    if es != [] {
      hide NamesOffered, Consumed, DataFor, ReadOne, Pending, Sound;
      ReadConserves(es[..|es| - 1], sel, dev, ino);
      ReadStep(ReadAll(es[..|es| - 1], sel), es[|es| - 1], sel, dev, ino);
    }
  }

  // ---- one group ----

  ghost function ReadMore(s: ReadState, es: seq<Entry>, sel: Choice): ReadState {
    if es == [] then s else ReadOne(ReadMore(s, es[..|es| - 1], sel), es[|es| - 1], sel)
  }

  /** The zero-size members before the last one are all collected. */
  lemma {:induction false} HeadersRead(s: ReadState, names: seq<string>, st: Stat, dev: nat, ino: nat, sel: Choice)
    requires Sound(s) && Linked(st) && Pending(s.ts, dev, ino) == []
    requires |names| < Header("", st, dev, ino, false).nlink
    ensures var t := ReadMore(s, Headers(names, st, dev, ino), sel); var p := Known(t.ts, dev, ino);
      && Sound(t) && t.ev == s.ev && Waiting(p) == names
      && (names != [] ==> p.Some? && p.value.nlk == Header("", st, dev, ino, false).nlink + 1 - |names|)
  {
    hide *;
    if names == [] {
      NoHeaders(s, st, dev, ino, sel);
    } else {
      var n := |names| - 1;
      HeadersRead(s, names[..n], st, dev, ino, sel);
      HeadersMore(s, names, st, dev, ino, sel);
      OneHeader(ReadMore(s, Headers(names[..n], st, dev, ino), sel), names[n], names[..n], st, dev, ino, sel);
      assert names[..n] + [names[n]] == names;
    }
  }

  lemma NoHeaders(s: ReadState, st: Stat, dev: nat, ino: nat, sel: Choice)
    requires Pending(s.ts, dev, ino) == []
    ensures ReadMore(s, Headers([], st, dev, ino), sel) == s && Waiting(Known(s.ts, dev, ino)) == []
  {
  }

  lemma HeadersMore(s: ReadState, names: seq<string>, st: Stat, dev: nat, ino: nat, sel: Choice)
    requires names != []
    ensures var n := |names| - 1;
      ReadMore(s, Headers(names, st, dev, ino), sel) ==
      ReadOne(ReadMore(s, Headers(names[..n], st, dev, ino), sel), Header(names[n], st, dev, ino, true), sel)
  {
    hide ReadOne, Header;
    var n := |names| - 1;
    var hs := Headers(names, st, dev, ino);
    assert hs[..|hs| - 1] == Headers(names[..n], st, dev, ino);
  }

  /** One more zero-size member while the group is not complete. */
  lemma OneHeader(t: ReadState, name: string, before: seq<string>, st: Stat, dev: nat, ino: nat, sel: Choice)
    requires Sound(t) && Linked(st) && |before| + 1 < Header("", st, dev, ino, false).nlink
    requires var p := Known(t.ts, dev, ino);
      Waiting(p) == before && (before != [] ==> p.Some? && p.value.nlk == Header("", st, dev, ino, false).nlink + 1 - |before|)
    ensures var u := ReadOne(t, Header(name, st, dev, ino, true), sel); var p := Known(u.ts, dev, ino);
      && Sound(u) && u.ev == t.ev && Waiting(p) == before + [name]
      && p.Some? && p.value.nlk == Header("", st, dev, ino, false).nlink - |before|
  {
    hide Known, Entered, OneSlot, NodesOk, FlushLinks;
    var h := Header(name, st, dev, ino, true);
    NodesOfKey(t.ts, dev, ino);
    StoreStep(t, h, sel, dev, ino);
    KnownEntered(t.ts, dev, ino, Stored(Known(t.ts, dev, ino), h), dev, ino);
  }

  lemma NodesOfKey(ts: seq<Table>, dev: nat, ino: nat)
    requires NodesOk(ts)
    ensures Known(ts, dev, ino).Some? ==> NodeOk(Known(ts, dev, ino).value, dev, ino)
  {
  }

  /** A group of at most as many names as the file has links, read while no
      name of its file is waiting: with data, or when complete, all its names
      are offered together and the first one wanted takes the data; if none is
      wanted, it is skipped.  An empty incomplete group waits for the end. */
  lemma GroupRead(s: ReadState, names: seq<string>, last: string, st: Stat, dev: nat, ino: nat, sel: Choice)
    requires Sound(s) && Linked(st) && Pending(s.ts, dev, ino) == []
    requires |names| < Header("", st, dev, ino, false).nlink
    ensures var t := ReadMore(s, Group(names, last, st, dev, ino), sel); var all := names + [last];
      if st.size > 0 || |all| == Header("", st, dev, ino, false).nlink then
        && Pending(t.ts, dev, ino) == [] && |t.ev| == |s.ev| + |all| && t.ev[..|s.ev|] == s.ev
        && forall i :: 0 <= i < |all| ==>
             var o := t.ev[|s.ev| + i];
             && o.e.name == all[i] && o.taken == sel(|s.ev| + i, all[i])
             && o.bytes == if NoneWanted(all[..i], |s.ev|, sel) && (o.taken || i == |names|) then st.size else 0
      else t.ev == s.ev && Pending(t.ts, dev, ino) == all
  {
    hide *;
    var t, all := ReadMore(s, Headers(names, st, dev, ino), sel), names + [last];
    HeadersRead(s, names, st, dev, ino, sel);
    GroupMore(s, names, last, st, dev, ino, sel);
    TwoLinks(st, dev, ino);
    if st.size > 0 || |names| + 1 == Header("", st, dev, ino, false).nlink {
      LastFlushes(t, names, last, st, dev, ino, sel);
    } else {
      LastWaits(t, names, last, st, dev, ino, sel);
    }
  }

  lemma TwoLinks(st: Stat, dev: nat, ino: nat)
    requires Linked(st)
    ensures Header("", st, dev, ino, false).nlink >= 2
  {
  }

  lemma GroupMore(s: ReadState, names: seq<string>, last: string, st: Stat, dev: nat, ino: nat, sel: Choice)
    ensures ReadMore(s, Group(names, last, st, dev, ino), sel) ==
            ReadOne(ReadMore(s, Headers(names, st, dev, ino), sel), Header(last, st, dev, ino, false), sel)
  {
    hide ReadOne, Header, Headers;
    var g, hs := Group(names, last, st, dev, ino), Headers(names, st, dev, ino);
    assert g[..|g| - 1] == hs;
  }

  lemma LastWaits(t: ReadState, names: seq<string>, last: string, st: Stat, dev: nat, ino: nat, sel: Choice)
    requires Sound(t) && Linked(st) && Waiting(Known(t.ts, dev, ino)) == names && st.size == 0
    requires names != [] ==> Known(t.ts, dev, ino).Some? && Known(t.ts, dev, ino).value.nlk > 2
    ensures var u := ReadOne(t, Header(last, st, dev, ino, false), sel);
      u.ev == t.ev && Pending(u.ts, dev, ino) == names + [last]
  {
    hide Known, Entered, OneSlot, NodesOk;
    NodesOfKey(t.ts, dev, ino);
    StoreStep(t, Header(last, st, dev, ino, false), sel, dev, ino);
  }

  lemma LastFlushes(t: ReadState, names: seq<string>, last: string, st: Stat, dev: nat, ino: nat, sel: Choice)
    requires Sound(t) && Linked(st) && Waiting(Known(t.ts, dev, ino)) == names
    requires st.size > 0 || (names != [] && Known(t.ts, dev, ino).Some? && Known(t.ts, dev, ino).value.nlk == 2)
    ensures var u := ReadOne(t, Header(last, st, dev, ino, false), sel); var all := names + [last];
      && Pending(u.ts, dev, ino) == [] && |u.ev| == |t.ev| + |all| && u.ev[..|t.ev|] == t.ev
      && forall i :: 0 <= i < |all| ==>
           var o := u.ev[|t.ev| + i];
           && o.e.name == all[i] && o.taken == sel(|t.ev| + i, all[i])
           && o.bytes == if NoneWanted(all[..i], |t.ev|, sel) && (o.taken || i == |names|) then st.size else 0
  {
    var h := Header(last, st, dev, ino, false);
    LinkHeader(last, st, dev, ino, false);
    assert h.size != 0 || Full(Known(t.ts, dev, ino));
    hide *;
    FlushTaken(t, h, sel);
    FlushEvents(t.ev, Known(t.ts, dev, ino), names, h, sel);
  }

  lemma FlushTaken(t: ReadState, h: Entry, sel: Choice)
    requires IsLink(h) && (h.size != 0 || Full(Known(t.ts, h.dev, h.ino)))
    ensures var u := ReadOne(t, h, sel);
      u.ev == FlushNode(t.ev, Known(t.ts, h.dev, h.ino), h, sel) && Pending(u.ts, h.dev, h.ino) == []
  {
    var p := Known(t.ts, h.dev, h.ino);
    hide Known, Entered, WithDev, FlushNode;
    KnownEntered(t.ts, h.dev, h.ino, if p.Some? then Flushed(p.value) else Info(0, 0, [], None, ""), h.dev, h.ino);
  }

  /** What one flush offers: the names that waited and the last one; the data
      goes to the first that is wanted, or is skipped at the end. */
  lemma FlushEvents(ev: seq<Offer>, p: Option<Info>, names: seq<string>, h: Entry, sel: Choice)
    requires Waiting(p) == names
    ensures var out := FlushNode(ev, p, h, sel); var all := names + [h.name];
      && |out| == |ev| + |all| && out[..|ev|] == ev
      && forall i :: 0 <= i < |all| ==>
           var o := out[|ev| + i];
           && o.e.name == all[i] && o.taken == sel(|ev| + i, all[i])
           && o.bytes == if NoneWanted(all[..i], |ev|, sel) && (o.taken || i == |names|) then h.size else 0
  {
    hide NoneWanted, OfferNames, IsLink;
    FirstTakes(ev, names, h, sel);
    var o, out := OfferNames(ev, names, h, sel), FlushNode(ev, p, h, sel);
    var n := |names|;
    assert out == o.ev + [out[|o.ev|]];
    forall i | 0 <= i <= n ensures (names + [h.name])[..i] == names[..i] {
    }
  }

  // ---- the final flush ----

  lemma RestNodeCounts(ev: seq<Offer>, p: Info, sel: Choice, d: nat, k: nat, dev: nat, ino: nat)
    requires NodeOk(p, d, k)
    ensures var out := RestNode(ev, p, sel);
      && Consumed(out) == Consumed(ev) && DataFor(out, dev, ino) == DataFor(ev, dev, ino)
      && NamesOffered(out, dev, ino) == NamesOffered(ev, dev, ino) + if d == dev && k == ino then p.lnk else []
  {
    hide NamesOffered, Consumed, DataFor, OfferNames;
    if p.nlk > 0 {
      var e := HeaderOf(p.st.value);
      OfferCounts(ev, p.lnk, e, sel, dev, ino);
      FirstTakes(ev, p.lnk, e, sel);
    }
  }

  ghost predicate SlotOk(t: Table) {
    forall k :: k in t.files ==> NodeOk(t.files[k], t.dev, k)
  }

  lemma {:induction false} RestSlotCounts(ev: seq<Offer>, t: Table, order: seq<nat>, sel: Choice, dev: nat, ino: nat)
    requires SlotOk(t) && forall i :: 0 <= i < |order| ==> order[i] in t.files
    requires forall i, j :: 0 <= i < j < |order| ==> order[i] != order[j]
    ensures var out := RestSlot(ev, t, order, sel);
      && Consumed(out) == Consumed(ev) && DataFor(out, dev, ino) == DataFor(ev, dev, ino)
      && NamesOffered(out, dev, ino) ==
         NamesOffered(ev, dev, ino) + if t.dev == dev && ino in order then t.files[ino].lnk else []
  {
    hide NamesOffered, Consumed, DataFor, RestNode, NodeOk;
    if order != [] {
      var n := |order| - 1;
      RestSlotCounts(ev, t, order[..n], sel, dev, ino);
      RestNodeCounts(RestSlot(ev, t, order[..n], sel), t.files[order[n]], sel, t.dev, order[n], dev, ino);
      assert order == order[..n] + [order[n]];
    }
  }

  lemma SlotsOk(ts: seq<Table>, i: nat)
    requires OneSlot(ts) && NodesOk(ts) && i < |ts|
    ensures SlotOk(ts[i])
    ensures forall k :: Known(ts, ts[i].dev, k) == if k in ts[i].files then Some(ts[i].files[k]) else None
  {
    DevFromIs(ts, ts[i].dev, 0, i);
    forall k | k in ts[i].files ensures NodeOk(ts[i].files[k], ts[i].dev, k) {
      assert Known(ts, ts[i].dev, k) == Some(ts[i].files[k]);
    }
  }

  lemma {:induction false} RestCounts(ev: seq<Offer>, ts: seq<Table>, orders: seq<seq<nat>>, sel: Choice, dev: nat, ino: nat)
    requires OneSlot(ts) && NodesOk(ts) && AllList(orders, ts)
    ensures var out := Rest(ev, ts, orders, sel);
      && Consumed(out) == Consumed(ev) && DataFor(out, dev, ino) == DataFor(ev, dev, ino)
      && NamesOffered(out, dev, ino) == NamesOffered(ev, dev, ino) +
         if DevFrom(ts, dev, 0) < |orders| then Pending(ts, dev, ino) else []
  {
    hide NamesOffered, Consumed, DataFor, RestSlot, NodesOk;
    if orders != [] {
      var n := |orders| - 1;
      RestCounts(ev, ts, orders[..n], sel, dev, ino);
      SlotsOk(ts, n);
      RestSlotCounts(Rest(ev, ts, orders[..n], sel), ts[n], orders[n], sel, dev, ino);
      if ts[n].dev == dev {
        DevFromIs(ts, dev, 0, n);
        assert ino in ts[n].files ==> NodeOk(ts[n].files[ino], dev, ino);
      }
    }
  }

  /** Reading a whole archive, whatever it holds and whatever is selected:
      every link name reaches the user exactly once, in order, and the data
      of every entry is consumed exactly once. */
  lemma AllOffered(es: seq<Entry>, orders: seq<seq<nat>>, sel: Choice, dev: nat, ino: nat)
    requires AllList(orders, ReadAll(es, sel).ts) && |orders| == |ReadAll(es, sel).ts|
    ensures var out := Rest(ReadAll(es, sel).ev, ReadAll(es, sel).ts, orders, sel);
      && NamesOffered(out, dev, ino) == NamesOf(es, dev, ino)
      && Consumed(out) == TotalSize(es) && DataFor(out, dev, ino) == DataOf(es, dev, ino)
  {
    hide NamesOffered, Consumed, DataFor, ReadAll, NamesOf, TotalSize, DataOf, Rest, NodesOk, OneSlot, Waiting;
    ReadConserves(es, sel, dev, ino);
    var s := ReadAll(es, sel);
    RestCounts(s.ev, s.ts, orders, sel, dev, ino);
    Strangers(s.ts, dev, ino);
  }

  lemma Strangers(ts: seq<Table>, dev: nat, ino: nat)
    ensures DevFrom(ts, dev, 0) == |ts| ==> Pending(ts, dev, ino) == []
  {
  }

  /** Writing and then reading: the names given for a file are offered
      exactly once, in order, under its one number. */
  lemma WrittenThenRead(fs: seq<Named>, maxino: nat, worders: seq<seq<nat>>, sel: Choice, rorders: seq<seq<nat>>,
                        dev: nat, ino: nat)
    requires maxino > 0 && Run(fs, maxino).Out?
    requires AllList(worders, Run(fs, maxino).s.ts) && |worders| == |Run(fs, maxino).s.ts|
    requires var es := Run(fs, maxino).es + FlushAll(Run(fs, maxino).s.ts, worders);
      AllList(rorders, ReadAll(es, sel).ts) && |rorders| == |ReadAll(es, sel).ts|
    ensures var o := Run(fs, maxino); var es := o.es + FlushAll(o.s.ts, worders);
      var r := ReadAll(es, sel); var q := PlaceOf(o.s.ts, dev, ino);
      if q.At? then NamesOffered(Rest(r.ev, r.ts, rorders, sel), q.slot + 1, q.info.fino) == Given(fs, dev, ino)
      else Given(fs, dev, ino) == []
  {
    hide *;
    AllWritten(fs, maxino, worders, dev, ino);
    var o := Run(fs, maxino);
    var q := PlaceOf(o.s.ts, dev, ino);
    if q.At? {
      AllOffered(o.es + FlushAll(o.s.ts, worders), rorders, sel, q.slot + 1, q.info.fino);
    }
  }
}
