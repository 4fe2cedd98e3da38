/**
 What reaches the user when an SVR4 archive is read: the members that are no
 links one by one, each under its own name and with its own data, and links
 with the status of their file; every choice is made for the name shown.
 */
module LinkOffers {
  import opened Basics
  import opened InodeForest
  import opened LinkSpec
  import opened LinkNumbers
  import R = LinkReadSpec

  type Offer = R.Offer

  /** The places of the offers that are no links, in order. */
  ghost function PlainAt(ev: seq<Offer>): (at: seq<nat>)
    ensures forall i :: 0 <= i < |at| ==> at[i] < |ev|
  {
    if ev == [] then []
    else PlainAt(ev[..|ev| - 1]) + if IsLink(ev[|ev| - 1].e) then [] else [|ev| - 1]
  }

  /** The offers that are no links are the members ss, in order: each with its
      name and status, chosen by that name at that place, with all its data. */
  ghost predicate PlainRead(ev: seq<Offer>, ss: seq<Entry>, sel: R.Choice) {
    var at := PlainAt(ev);
    |at| == |ss| && forall i :: 0 <= i < |ss| ==> ev[at[i]] == R.Offer(ss[i], sel(at[i], ss[i].name), ss[i].size)
  }

  /** PlainAt leaves out no place and repeats none. */
  lemma {:induction false} PlainPlaces(ev: seq<Offer>)
    ensures var at := PlainAt(ev);
      && (forall i, j :: 0 <= i < j < |at| ==> at[i] < at[j])
      && (forall n :: 0 <= n < |ev| ==> (n in at <==> !IsLink(ev[n].e)))
  {
    if ev != [] {
      var n := |ev| - 1;
      PlainPlaces(ev[..n]);
      assert forall m :: 0 <= m < n ==> ev[..n][m] == ev[m];
    }
  }

  // ---- offers of one file ----

  /** out goes on from ev with offers that show the status of e under some name
      and size, each chosen by the name shown. */
  ghost predicate Extends(ev: seq<Offer>, out: seq<Offer>, e: Entry, sel: R.Choice) {
    ev <= out && forall i :: |ev| <= i < |out| ==> Shows(out[i], i, e, sel)
  }

  ghost predicate Shows(o: Offer, i: nat, e: Entry, sel: R.Choice) {
    o.taken == sel(i, o.e.name) && o.e == e.(name := o.e.name, size := o.e.size)
  }

  lemma InponeExtends(ev: seq<Offer>, e: Entry, size: nat, name: string, shallskip: bool, sel: R.Choice)
    ensures Extends(ev, R.Inpone(ev, e.(name := name, size := size), shallskip, sel), e, sel)
  {
  }

  lemma ExtendsMore(ev: seq<Offer>, mid: seq<Offer>, out: seq<Offer>, e: Entry, sel: R.Choice)
    requires Extends(ev, mid, e, sel) && Extends(mid, out, e, sel)
    ensures Extends(ev, out, e, sel)
  {
    hide Shows;
  }

  lemma {:induction false} OfferExtends(ev: seq<Offer>, names: seq<string>, e: Entry, sel: R.Choice)
    ensures Extends(ev, R.OfferNames(ev, names, e, sel).ev, e, sel)
  {
    hide Shows, R.Inpone;
    R.OfferMore(ev, names, e, sel);
    if names != [] {
      var n := |names| - 1;
      var o := R.OfferNames(ev, names[..n], e, sel);
      OfferExtends(ev, names[..n], e, sel);
      InponeExtends(o.ev, e, o.size, names[n], false, sel);
      ExtendsMore(ev, o.ev, R.OfferNames(ev, names, e, sel).ev, e, sel);
    }
  }

  lemma FlushExtends(ev: seq<Offer>, p: Option<Info>, e: Entry, sel: R.Choice)
    ensures Extends(ev, R.FlushNode(ev, p, e, sel), e, sel)
  {
    hide Extends, R.Inpone, R.OfferNames;
    OfferExtends(ev, R.Waiting(p), e, sel);
    var o := R.OfferNames(ev, R.Waiting(p), e, sel);
    InponeExtends(o.ev, e, o.size, e.name, true, sel);
    ExtendsMore(ev, o.ev, R.FlushNode(ev, p, e, sel), e, sel);
  }

  lemma RestExtends(ev: seq<Offer>, p: Info, sel: R.Choice)
    requires p.nlk > 0 && p.st.Some?
    ensures Extends(ev, R.RestNode(ev, p, sel), R.HeaderOf(p.st.value), sel)
  {
    hide Extends, R.OfferNames;
    OfferExtends(ev, p.lnk, R.HeaderOf(p.st.value), sel);
  }

  // ---- members that are no links ----

  lemma {:induction false} PlainStays(ev: seq<Offer>, out: seq<Offer>)
    requires ev <= out && forall i :: |ev| <= i < |out| ==> IsLink(out[i].e)
    ensures PlainAt(out) == PlainAt(ev)
    decreases |out|
  {
    if out == ev {
    } else {
      var n := |out| - 1;
      assert forall i :: |ev| <= i < n ==> out[..n][i] == out[i];
      PlainStays(ev, out[..n]);
    }
  }

  /** Offers of links change nothing for the others. */
  lemma LinksOffered(ev: seq<Offer>, out: seq<Offer>, e: Entry, ss: seq<Entry>, sel: R.Choice)
    requires PlainRead(ev, ss, sel) && Extends(ev, out, e, sel) && IsLink(e)
    ensures PlainRead(out, ss, sel)
  {
    forall i | |ev| <= i < |out| ensures IsLink(out[i].e) {
      assert Shows(out[i], i, e, sel);
    }
    PlainStays(ev, out);
  }

  lemma SingleOffered(ev: seq<Offer>, e: Entry, ss: seq<Entry>, sel: R.Choice)
    requires PlainRead(ev, ss, sel) && !IsLink(e)
    ensures PlainRead(ev + [R.Offer(e, sel(|ev|, e.name), e.size)], ss + [e], sel)
  {
    var out := ev + [R.Offer(e, sel(|ev|, e.name), e.size)];
    assert out[..|ev|] == ev;
  }

  lemma OnePlain(s: R.ReadState, e: Entry, ss: seq<Entry>, sel: R.Choice)
    requires PlainRead(s.ev, ss, sel)
    ensures PlainRead(R.ReadOne(s, e, sel).ev, ss + (if IsLink(e) then [] else [e]), sel)
  {
    hide PlainRead, R.FlushNode;
    if IsLink(e) {
      assert ss + [] == ss;
      if e.size != 0 || R.Full(Known(s.ts, e.dev, e.ino)) {
        FlushExtends(s.ev, Known(s.ts, e.dev, e.ino), e, sel);
        LinksOffered(s.ev, R.ReadOne(s, e, sel).ev, e, ss, sel);
      }
    } else {
      SingleOffered(s.ev, e, ss, sel);
    }
  }

  lemma NonePlain(sel: R.Choice)
    ensures PlainRead(R.ReadAll([], sel).ev, [], sel) && Singles([]) == []
  {
  }

  lemma SinglesLast(es: seq<Entry>)
    requires es != []
    ensures Singles(es) == Singles(es[..|es| - 1]) + if IsLink(es[|es| - 1]) then [] else [es[|es| - 1]]
  {
  }

  lemma ReadLast(es: seq<Entry>, sel: R.Choice)
    requires es != []
    ensures R.ReadAll(es, sel) == R.ReadOne(R.ReadAll(es[..|es| - 1], sel), es[|es| - 1], sel)
  {
    hide R.ReadOne;
  }

  /** Up to the last member read, the offers that are no links are exactly the
      members that are no links. */
  lemma {:induction false} AllPlain(es: seq<Entry>, sel: R.Choice)
    ensures PlainRead(R.ReadAll(es, sel).ev, Singles(es), sel)
  {
    hide *;
    if es == [] {
      NonePlain(sel);
    } else {
      var n := |es| - 1;
      AllPlain(es[..n], sel);
      ReadLast(es, sel);
      SinglesLast(es);
      OnePlain(R.ReadAll(es[..n], sel), es[n], Singles(es[..n]), sel);
    }
  }

  // ---- the status of links ----

  /** e shows the device, inode, link count and kind of some member. */
  ghost predicate Like(e: Entry, es: seq<Entry>) {
    exists i :: 0 <= i < |es| && e == es[i].(name := e.name, size := e.size)
  }

  lemma LikeStays(e: Entry, es: seq<Entry>, more: seq<Entry>)
    requires Like(e, es)
    ensures Like(e, es + more)
  {
    var i :| 0 <= i < |es| && e == es[i].(name := e.name, size := e.size);
    assert (es + more)[i] == es[i];
  }

  lemma LikeShown(o: Offer, i: nat, e: Entry, es: seq<Entry>, sel: R.Choice)
    requires Shows(o, i, e, sel) && Like(e, es)
    ensures Like(o.e, es)
  {
    var j :| 0 <= j < |es| && e == es[j].(name := e.name, size := e.size);
    assert o.e == es[j].(name := o.e.name, size := o.e.size);
  }

  /** Every offer shows the status of a member and was chosen by its name. */
  ghost predicate Kept(ev: seq<Offer>, es: seq<Entry>, sel: R.Choice) {
    forall i :: 0 <= i < |ev| ==> ev[i].taken == sel(i, ev[i].e.name) && Like(ev[i].e, es)
  }

  lemma KeptMore(ev: seq<Offer>, out: seq<Offer>, e: Entry, es: seq<Entry>, sel: R.Choice)
    requires Kept(ev, es, sel) && Extends(ev, out, e, sel) && Like(e, es)
    ensures Kept(out, es, sel)
  {
    hide Like;
    forall i | |ev| <= i < |out| ensures out[i].taken == sel(i, out[i].e.name) && Like(out[i].e, es) {
      assert Shows(out[i], i, e, sel);
      LikeShown(out[i], i, e, es, sel);
    }
  }

  lemma KeptLonger(ev: seq<Offer>, es: seq<Entry>, more: seq<Entry>, sel: R.Choice)
    requires Kept(ev, es, sel)
    ensures Kept(ev, es + more, sel)
  {
    hide Like;
    forall i | 0 <= i < |ev| ensures Like(ev[i].e, es + more) {
      LikeStays(ev[i].e, es, more);
    }
  }

  /** A node with names holds the status of a member. */
  ghost predicate NodeLike(p: Option<Info>, es: seq<Entry>) {
    p.Some? && p.value.nlk > 0 && p.value.st.Some? ==> Like(R.HeaderOf(p.value.st.value), es)
  }

  ghost predicate NodesLike(ts: seq<Table>, es: seq<Entry>) {
    forall d, k :: NodeLike(Known(ts, d, k), es)
  }

  lemma NodesLikeMore(ts: seq<Table>, es: seq<Entry>, more: seq<Entry>)
    requires NodesLike(ts, es)
    ensures NodesLike(ts, es + more)
  {
    hide Like, Known;
    forall d, k ensures NodeLike(Known(ts, d, k), es + more) {
      var p := Known(ts, d, k);
      assert NodeLike(p, es);
      if p.Some? && p.value.nlk > 0 && p.value.st.Some? {
        LikeStays(R.HeaderOf(p.value.st.value), es, more);
      }
    }
  }

  lemma NodesLikeEntered(ts: seq<Table>, dev: nat, ino: nat, p: Info, es: seq<Entry>)
    requires NodesLike(ts, es) && NodeLike(Some(p), es)
    ensures NodesLike(Entered(ts, dev, ino, p), es) && NodesLike(WithDev(ts, dev), es)
  {
    hide NodeLike, Entered, WithDev, Known;
    forall d, k ensures NodeLike(Known(Entered(ts, dev, ino, p), d, k), es)
      ensures NodeLike(Known(WithDev(ts, dev), d, k), es)
    {
      KnownEntered(ts, dev, ino, p, d, k);
      assert NodeLike(Known(ts, d, k), es);
    }
  }

  lemma LikeLast(e: Entry, es: seq<Entry>)
    ensures Like(e, es + [e]) && Like(R.HeaderOf(R.StatOf(e)), es + [e])
  {
    var all := es + [e];
    assert all[|es|] == e;
    assert e == all[|es|].(name := e.name, size := e.size);
    assert R.HeaderOf(R.StatOf(e)) == all[|es|].(name := "", size := e.size);
  }

  lemma OneKept(s: R.ReadState, e: Entry, es: seq<Entry>, sel: R.Choice)
    requires Kept(s.ev, es, sel) && NodesLike(s.ts, es)
    ensures var t := R.ReadOne(s, e, sel); Kept(t.ev, es + [e], sel) && NodesLike(t.ts, es + [e])
  {
    hide Kept, NodesLike, Like, R.FlushNode, R.Inpone, Known, Entered, WithDev, Extends;
    KeptLonger(s.ev, es, [e], sel);
    NodesLikeMore(s.ts, es, [e]);
    LikeLast(e, es);
    var t, p := R.ReadOne(s, e, sel), Known(s.ts, e.dev, e.ino);
    KnownLike(s.ts, e.dev, e.ino, es + [e]);
    if !IsLink(e) {
      InponeExtends(s.ev, e, e.size, e.name, true, sel);
      KeptMore(s.ev, t.ev, e, es + [e], sel);
    } else if e.size != 0 || R.Full(p) {
      FlushExtends(s.ev, p, e, sel);
      KeptMore(s.ev, t.ev, e, es + [e], sel);
      NodesLikeEntered(s.ts, e.dev, e.ino, if p.Some? then R.Flushed(p.value) else Info(0, 0, [], None, ""), es + [e]);
    } else {
      NodesLikeEntered(s.ts, e.dev, e.ino, R.Stored(p, e), es + [e]);
    }
  }

  lemma KnownLike(ts: seq<Table>, dev: nat, ino: nat, es: seq<Entry>)
    requires NodesLike(ts, es)
    ensures NodeLike(Known(ts, dev, ino), es)
  {
    hide NodeLike;
  }

  lemma NoneKept(sel: R.Choice)
    ensures Kept(R.ReadAll([], sel).ev, [], sel) && NodesLike(R.ReadAll([], sel).ts, [])
  {
  }

  lemma {:induction false} AllKept(es: seq<Entry>, sel: R.Choice)
    ensures var s := R.ReadAll(es, sel); Kept(s.ev, es, sel) && NodesLike(s.ts, es)
  {
    hide *;
    if es == [] {
      NoneKept(sel);
    } else {
      var n := |es| - 1;
      AllKept(es[..n], sel);
      ReadLast(es, sel);
      OneKept(R.ReadAll(es[..n], sel), es[n], es[..n], sel);
      assert es[..n] + [es[n]] == es;
    }
  }

  // ---- the final flush ----

  lemma RestNodeKeeps(ev: seq<Offer>, p: Info, es: seq<Entry>, ss: seq<Entry>, sel: R.Choice, d: nat, k: nat)
    requires Kept(ev, es, sel) && PlainRead(ev, ss, sel) && NodeLike(Some(p), es) && R.NodeOk(p, d, k)
    ensures Kept(R.RestNode(ev, p, sel), es, sel) && PlainRead(R.RestNode(ev, p, sel), ss, sel)
  {
    hide Kept, PlainRead, Like, Extends, R.OfferNames;
    if p.nlk > 0 {
      RestExtends(ev, p, sel);
      KeptMore(ev, R.RestNode(ev, p, sel), R.HeaderOf(p.st.value), es, sel);
      LinksOffered(ev, R.RestNode(ev, p, sel), R.HeaderOf(p.st.value), ss, sel);
    }
  }

  ghost predicate SlotLike(t: Table, es: seq<Entry>) {
    forall k :: k in t.files ==> NodeLike(Some(t.files[k]), es) && R.NodeOk(t.files[k], t.dev, k)
  }

  lemma {:induction false} RestSlotKeeps(ev: seq<Offer>, t: Table, order: seq<nat>, es: seq<Entry>, ss: seq<Entry>, sel: R.Choice)
    requires SlotLike(t, es) && (forall i :: 0 <= i < |order| ==> order[i] in t.files)
    requires Kept(ev, es, sel) && PlainRead(ev, ss, sel)
    ensures var out := R.RestSlot(ev, t, order, sel); Kept(out, es, sel) && PlainRead(out, ss, sel)
  {
    if order != [] {
      hide Kept, PlainRead, NodeLike, R.NodeOk, R.RestNode;
      var n := |order| - 1;
      RestSlotKeeps(ev, t, order[..n], es, ss, sel);
      RestNodeKeeps(R.RestSlot(ev, t, order[..n], sel), t.files[order[n]], es, ss, sel, t.dev, order[n]);
    }
  }

  lemma SlotIsLike(ts: seq<Table>, i: nat, es: seq<Entry>)
    requires R.OneSlot(ts) && R.NodesOk(ts) && NodesLike(ts, es) && i < |ts|
    ensures SlotLike(ts[i], es)
  {
    hide NodeLike, R.NodeOk, Known, R.OneSlot, R.NodesOk;
    R.SlotsOk(ts, i);
    forall k | k in ts[i].files ensures NodeLike(Some(ts[i].files[k]), es) {
      assert NodeLike(Known(ts, ts[i].dev, k), es);
    }
  }

  lemma {:induction false} RestKeeps(ev: seq<Offer>, ts: seq<Table>, orders: seq<seq<nat>>, es: seq<Entry>,
                                     ss: seq<Entry>, sel: R.Choice)
    requires R.OneSlot(ts) && R.NodesOk(ts) && NodesLike(ts, es) && AllList(orders, ts)
    requires Kept(ev, es, sel) && PlainRead(ev, ss, sel)
    ensures var out := R.Rest(ev, ts, orders, sel); Kept(out, es, sel) && PlainRead(out, ss, sel)
  {
    if orders != [] {
      hide Kept, PlainRead, R.OneSlot, R.NodesOk, NodesLike, R.RestSlot, SlotLike;
      var n := |orders| - 1;
      RestKeeps(ev, ts, orders[..n], es, ss, sel);
      SlotIsLike(ts, n, es);
      RestSlotKeeps(R.Rest(ev, ts, orders[..n], sel), ts[n], orders[n], es, ss, sel);
    }
  }

  /** A whole archive, whatever it holds and whatever is selected: the members
      that are no links are offered in order, each under its own name and with
      its own data; every offer shows the status of a member and is taken as
      the choice says for the name shown. */
  lemma WholeArchive(es: seq<Entry>, orders: seq<seq<nat>>, sel: R.Choice)
    requires AllList(orders, R.ReadAll(es, sel).ts)
    ensures var s := R.ReadAll(es, sel); var out := R.Rest(s.ev, s.ts, orders, sel);
      PlainRead(out, Singles(es), sel) && Kept(out, es, sel)
  {
    hide *;
    var s := R.ReadAll(es, sel);
    AllPlain(es, sel);
    AllKept(es, sel);
    R.ReadConserves(es, sel, 0, 0);
    SoundParts(s);
    RestKeeps(s.ev, s.ts, orders, es, Singles(es), sel);
  }

  lemma SoundParts(s: R.ReadState)
    requires R.Sound(s)
    ensures R.OneSlot(s.ts) && R.NodesOk(s.ts)
  {
    hide R.OneSlot, R.NodesOk;
  }
}
