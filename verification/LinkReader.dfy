/**
 storelink, flushlinks, flushnode, flushrest and the read loop on the
 splay-tree forest: they do what LinkReadSpec describes.
 */
module LinkReader {
  import opened Basics
  import opened SplayTree
  import opened InodeForest
  import opened LinkSpec
  import opened LinkWriter
  import opened LinkNumbers
  import S = LinkReadSpec
  import O = LinkOffers

  class Reader {
    const forest: Forest
    const sel: S.Choice
    var ev: seq<S.Offer>

    ghost predicate Holds(s: S.ReadState)
      reads this, forest, forest.repr
    {
      this !in forest.repr && forest.Models(s.ts) && ev == s.ev && S.Sound(s)
    }

    constructor (sel: S.Choice)
      ensures Holds(S.ReadState([], [])) && this.sel == sel && fresh(forest.repr)
    {
      forest := new Forest();
      this.sel := sel;
      ev := [];
    }

    method Inpone(e: Entry, shallskip: bool) returns (taken: bool)
      modifies this`ev
      ensures ev == S.Inpone(old(ev), e, shallskip, sel) && taken == sel(|old(ev)|, e.name)
    {
      taken := sel(|ev|, e.name);
      ev := ev + [S.Offer(e, taken, if taken || shallskip then e.size else 0)];
    }

    /** The collected names of a node; what is left of the data. */
    method OfferNames(lnk: seq<string>, e: Entry) returns (size: nat)
      modifies this`ev
      ensures S.Offered(ev, size) == S.OfferNames(old(ev), lnk, e, sel)
    {
      size := e.size;
      for i := 0 to |lnk|
        invariant S.Offered(ev, size) == S.OfferNames(old(ev), lnk[..i], e, sel)
      {
        assert lnk[..i + 1][..i] == lnk[..i];
        var taken := Inpone(e.(name := lnk[i], size := size), false);
        if taken {
          size := 0;
        }
      }
      assert lnk[..|lnk|] == lnk;
    }

    /** flushnode for a file just read, up to the update of the node. */
    method OfferGroup(ip: Islot?, e: Entry)
      modifies this`ev
      ensures ev == S.FlushNode(old(ev), if ip == null then None else Some(InfoOf(ip)), e, sel)
    {
      hide S.Inpone;
      var size := e.size;
      if ip != null && ip.nlk > 0 {
        size := OfferNames(ip.lnk, e);
      }
      var _ := Inpone(e.(size := size), true);
    }

    /** flushnode: offer what was collected and the file, then empty the node. */
    method FlushNode(ip: Islot?, e: Entry, ghost i: nat, ghost ts: seq<Table>) returns (ghost us: seq<Table>)
      requires forest.Models(ts) && this !in forest.repr && i < |forest.slots| && i < |ts|
      requires ip != null ==> ip.ino in ts[i].files && InfoOf(ip) == ts[i].files[ip.ino]
      requires ip != null ==> ip.ino in Slots(forest.slots[i].shape) && ip == Slots(forest.slots[i].shape)[ip.ino]
      requires ip != null ==> ip in forest.repr
      modifies this`ev, forest.repr
      ensures forest.repr == old(forest.repr) && forest.Models(us)
      ensures ev == S.FlushNode(old(ev), if ip == null then None else Some(old(InfoOf(ip))), e, sel)
      ensures us == if ip == null then ts
                    else var k := old(ip.ino); ts[i := ts[i].(files := ts[i].files[k := S.Flushed(ts[i].files[k])])]
    {
      hide Forest.Models, Slots, S.FlushNode;
      us := ts;
      OfferGroup(ip, e);
      if ip != null {
        var p := Info(ip.fino, ip.nlk, ip.lnk, ip.st, ip.name);
        if p.nlk > 0 {
          p := p.(lnk := [], st := None, nlk := 0);
        }
        us := ts[i := ts[i].(files := ts[i].files[ip.ino := p])];
        forest.Store(ip, p, i, ts);
      }
    }

    /** dfind and ifind, as storelink and flushlinks begin. */
    method FindNode(e: Entry, ghost ts: seq<Table>) returns (ds: Dslot, ip: Islot?, ghost i: nat)
      requires forest.Models(ts) && this !in forest.repr
      modifies forest.repr
      ensures forest.Models(WithDev(ts, e.dev)) && fresh(forest.repr - old(forest.repr)) && this !in forest.repr
      ensures i == DevFrom(ts, e.dev, 0) && i < |forest.slots| && ds == forest.slots[i]
      ensures var p := Known(ts, e.dev, e.ino);
        if ip == null then p == None && (ds.shape.Node? ==> Parted(ds.shape, e.ino))
        else p == Some(InfoOf(ip)) && ip.ino == e.ino && ip in forest.repr &&
             ip.ino in Slots(ds.shape) && ip == Slots(ds.shape)[ip.ino]
    {
      hide Forest.Models, Slots, Parted, InfoOf;
      i := DevFrom(ts, e.dev, 0);
      forest.SlotFacts(ts, 0);
      ds := forest.Device(e.dev, ts);
      forest.SlotFacts(WithDev(ts, e.dev), i);
      ip := forest.Lookup(ds, e.ino, i, WithDev(ts, e.dev));
    }

    method FlushLinks(e: Entry, ghost s: S.ReadState) returns (ghost t: S.ReadState)
      requires Holds(s) && IsLink(e)
      modifies this`ev, forest.repr
      ensures t == S.FlushLinks(s, e, sel) && Holds(t) && fresh(forest.repr - old(forest.repr))
    {
      hide Forest.Models, Slots, S.FlushNode, S.Sound, InfoOf, Parted;
      t := S.FlushLinks(s, e, sel);
      S.FlushStep(s, e, sel, 0, 0);
      var ds, ip;
      ghost var i;
      ds, ip, i := FindNode(e, s.ts);
      forest.SlotFacts(WithDev(s.ts, e.dev), i);
      ghost var us := FlushNode(ip, e, i, WithDev(s.ts, e.dev));
      assert t.ts == us;
    }

    method StoreLink(e: Entry, ghost s: S.ReadState) returns (ghost t: S.ReadState)
      requires Holds(s) && IsLink(e) && e.size == 0
      modifies this`ev, forest.repr
      ensures t == S.StoreLink(s, e, sel) && Holds(t) && fresh(forest.repr - old(forest.repr))
    {
      hide Forest.Models, Slots, S.FlushNode, S.Sound, InfoOf, Parted;
      t := S.StoreLink(s, e, sel);
      StaysSound(s, e, sel);
      var ds, ip;
      ghost var i;
      ds, ip, i := FindNode(e, s.ts);
      ghost var us := WithDev(s.ts, e.dev);
      forest.SlotFacts(us, i);
      if ip == null {
        ip := NewNode(e);
        forest.Insert(ds, ip, i, us);
        assert t.ts == us[i := us[i].(files := us[i].files[e.ino := InfoOf(ip)])];
      } else {
        Describe(ip);
        if 0 < ip.nlk <= 2 {
          us := FlushNode(ip, e, i, us);
          return;
        }
        var p := Again(ip, e);
        forest.Store(ip, p, i, us);
        assert t.ts == us[i := us[i].(files := us[i].files[e.ino := p])];
      }
    }

    method NewNode(e: Entry) returns (ip: Islot)
      ensures fresh(ip) && ip.ino == e.ino && InfoOf(ip) == S.Stored(None, e)
    {
      ip := new Islot(e.ino);
      ip.nlk, ip.st, ip.lnk := e.nlink, Some(S.StatOf(e)), [e.name];
    }

    /** One more name for a node: a fresh start after a completed group. */
    method Again(ip: Islot, e: Entry) returns (p: Info)
      requires !(0 < ip.nlk <= 2)
      ensures p == S.Stored(Some(InfoOf(ip)), e)
    {
      p := Info(ip.fino, ip.nlk, ip.lnk, ip.st, ip.name);
      if ip.nlk == 0 {
        p := p.(nlk := e.nlink, name := "", st := Some(S.StatOf(e)));
      } else {
        p := p.(nlk := p.nlk - 1);
      }
      p := p.(lnk := p.lnk + [e.name]);
    }

    lemma Describe(ip: Islot)
      ensures InfoOf(ip).nlk == ip.nlk
    {
    }

    /** The body of the read loop. */
    method ReadOne(e: Entry, ghost s: S.ReadState) returns (ghost t: S.ReadState)
      requires Holds(s)
      modifies this`ev, forest.repr
      ensures t == S.ReadOne(s, e, sel) && Holds(t) && fresh(forest.repr - old(forest.repr))
    {
      hide Forest.Models, S.FlushLinks, S.StoreLink, S.OneSlot, S.NodesOk;
      if e.nlink > 1 && !e.dir {
        if e.size != 0 {
          t := FlushLinks(e, s);
        } else {
          t := StoreLink(e, s);
        }
      } else {
        var _ := Inpone(e, true);
        t := s.(ev := ev);
      }
    }

    /** flushtree: the nodes left with names, in post order. */
    method FlushTree(ip: Islot, nil: Islot, ghost t: Tree, ghost ns: set<Islot>, ghost tb: Table)
      requires Nodes(t) <= ns && IsTree(ip, t, nil) && Separate(t) && nil !in Nodes(t) && Shows(t, tb.files)
      modifies this`ev, Nodes(t)`nlk, Nodes(t)`lnk, Nodes(t)`st
      ensures forall k :: k in PostOrder(t) ==> k in tb.files
      ensures ev == S.RestSlot(old(ev), tb, PostOrder(t), sel)
      decreases t
    {
      hide S.RestSlot, S.RestNode, InfoOf;
      ShownKeys(t, tb.files);
      if ip == nil {
        NoRest(ev, tb, sel);
        return;
      }
      RestBoth(ev, tb, t, sel);
      FlushTree(ip.lln, nil, t.left, ns, tb);
      FlushTree(ip.rln, nil, t.right, ns, tb);
      FlushRestNode(ip);
    }

    method FlushRestNode(ip: Islot)
      modifies this`ev, ip`nlk, ip`lnk, ip`st
      ensures ev == S.RestNode(old(ev), old(InfoOf(ip)), sel)
    {
      if ip.nlk > 0 && ip.st.Some? {
        var _ := OfferNames(ip.lnk, S.HeaderOf(ip.st.value));
        ip.lnk, ip.st, ip.nlk := [], None, 0;
      }
    }

    method FlushSlot(ds: Dslot, ghost i: nat, ghost ts: seq<Table>)
      requires i < |ts| == |forest.slots| && ds == forest.slots[i] && this !in forest.repr && forest.Apart()
      requires forall j :: i <= j < |ts| ==> Ready(forest.slots[j], ts[j], forest.nil)
      modifies this`ev, Nodes(ds.shape)`nlk, Nodes(ds.shape)`lnk, Nodes(ds.shape)`st
      ensures Lists(PostOrder(ds.shape), ts[i])
      ensures ev == S.RestSlot(old(ev), ts[i], PostOrder(ds.shape), sel)
      ensures forall j :: i < j < |ts| ==> Ready(forest.slots[j], ts[j], forest.nil)
    {
      hide S.RestSlot, PostOrder, Lists, Shows, IsTree, Separate;
      assert Ready(ds, ts[i], forest.nil);
      if ds.isl != null {
        FlushTree(ds.isl, forest.nil, ds.shape, Nodes(ds.shape), ts[i]);
      } else {
        NoRest(ev, ts[i], sel);
      }
    }

    /** flushrest: every slot that has a tree. */
    method FlushRest(ghost s: S.ReadState) returns (ghost orders: seq<seq<nat>>)
      requires Holds(s)
      modifies this`ev, forest.repr
      ensures AllList(orders, s.ts) && |orders| == |s.ts| && ev == S.Rest(s.ev, s.ts, orders, sel)
    {
      hide S.RestSlot, S.Rest, AllList, PostOrder, Forest.Models, S.Sound, Ready, Lists, Nodes;
      NoneRead(s, sel);
      var ds := forest.devices;
      ghost var i, ts := 0, s.ts;
      orders := [];
      forest.SlotFacts(ts, 0);
      RestFacts(forest, ts);
      while ds != null
        invariant |ts| == |forest.slots| && i <= |ts| && ds == (if i < |ts| then forest.slots[i] else null)
        invariant forest.repr == old(forest.repr) && forest.slots == old(forest.slots) && this !in forest.repr
        invariant forest.Chained() && forest.Apart()
        invariant forall j :: i <= j < |ts| ==> Ready(forest.slots[j], ts[j], forest.nil)
        invariant AllList(orders, ts) && |orders| == i && ev == S.Rest(s.ev, ts, orders, sel)
        decreases |ts| - i
      {
        FlushSlot(ds, i, ts);
        OneRead(s.ev, ts, orders, PostOrder(ds.shape), sel);
        orders := orders + [PostOrder(ds.shape)];
        ds, i := ds.nxt, i + 1;
      }
    }

    /** A whole archive: everything in it reaches the user. */
    method ReadAll(es: seq<Entry>) returns (ghost s: S.ReadState, ghost orders: seq<seq<nat>>)
      requires Holds(S.ReadState([], []))
      modifies this`ev, forest.repr
      ensures s == S.ReadAll(es, sel) && AllList(orders, s.ts) && |orders| == |s.ts|
      ensures ev == S.Rest(s.ev, s.ts, orders, sel)
      ensures O.PlainRead(ev, Singles(es), sel) && O.Kept(ev, es, sel) && LinksRead(ev, es)
    {
      hide Forest.Models, S.ReadOne, S.Rest, S.Sound, O.PlainRead, O.Kept, LinksRead, S.ReadAll, AllList;
      NothingRead(sel);
      s := S.ReadState([], []);
      for i := 0 to |es|
        invariant Holds(s) && s == S.ReadAll(es[..i], sel) && fresh(forest.repr - old(forest.repr))
      {
        assert es[..i + 1][..i] == es[..i];
        O.ReadLast(es[..i + 1], sel);
        s := ReadOne(es[i], s);
      }
      assert es[..|es|] == es;
      orders := FlushRest(s);
      O.WholeArchive(es, orders, sel);
      AllLinksRead(es, orders, sel);
    }
  }

  /** Of every link number exactly the names and the data in the archive have
      been offered, and the archive has been used up. */
  ghost predicate LinksRead(ev: seq<S.Offer>, es: seq<Entry>) {
    && (forall d, k :: S.NamesOffered(ev, d, k) == NamesOf(es, d, k))
    && (forall d, k :: S.DataFor(ev, d, k) == S.DataOf(es, d, k))
    && S.Consumed(ev) == S.TotalSize(es)
  }

  lemma AllLinksRead(es: seq<Entry>, orders: seq<seq<nat>>, sel: S.Choice)
    requires AllList(orders, S.ReadAll(es, sel).ts) && |orders| == |S.ReadAll(es, sel).ts|
    ensures var s := S.ReadAll(es, sel); LinksRead(S.Rest(s.ev, s.ts, orders, sel), es)
  {
    hide S.NamesOffered, S.DataFor, S.Consumed, S.ReadAll, S.Rest, NamesOf, S.DataOf, S.TotalSize, AllList;
    S.AllOffered(es, orders, sel, 0, 0);
    forall d: nat, k: nat
      ensures S.NamesOffered(S.Rest(S.ReadAll(es, sel).ev, S.ReadAll(es, sel).ts, orders, sel), d, k) == NamesOf(es, d, k)
      ensures S.DataFor(S.Rest(S.ReadAll(es, sel).ev, S.ReadAll(es, sel).ts, orders, sel), d, k) == S.DataOf(es, d, k)
    {
      S.AllOffered(es, orders, sel, d, k);
    }
  }

  lemma NothingRead(sel: S.Choice)
    ensures S.ReadAll([], sel) == S.ReadState([], [])
  {
  }

  lemma NoneRead(s: S.ReadState, sel: S.Choice)
    ensures AllList([], s.ts) && S.Rest(s.ev, s.ts, [], sel) == s.ev
  {
  }

  lemma StaysSound(s: S.ReadState, e: Entry, sel: S.Choice)
    requires S.Sound(s) && IsLink(e) && e.size == 0
    ensures S.Sound(S.StoreLink(s, e, sel))
  {
    hide S.Sound, Known, Entered, IsLink;
    if S.Full(Known(s.ts, e.dev, e.ino)) {
      S.FlushStep(s, e, sel, 0, 0);
    } else {
      S.StoreStep(s, e, sel, 0, 0);
    }
  }

  /** One more slot in the order of the flush. */
  lemma OneRead(ev: seq<S.Offer>, ts: seq<Table>, orders: seq<seq<nat>>, order: seq<nat>, sel: S.Choice)
    requires AllList(orders, ts) && |orders| < |ts| && Lists(order, ts[|orders|])
    ensures AllList(orders + [order], ts)
    ensures S.Rest(ev, ts, orders + [order], sel) == S.RestSlot(S.Rest(ev, ts, orders, sel), ts[|orders|], order, sel)
  {
    hide *;
    var more := orders + [order];
    OneInList(ts, orders, order);
    LastRead(ev, ts, more, sel);
    assert more[..|orders|] == orders && more[|orders|] == order;
  }

  lemma LastRead(ev: seq<S.Offer>, ts: seq<Table>, orders: seq<seq<nat>>, sel: S.Choice)
    requires AllList(orders, ts) && orders != []
    ensures var n := |orders| - 1;
      && n < |ts| && AllList(orders[..n], ts) && (forall i :: 0 <= i < |orders[n]| ==> orders[n][i] in ts[n].files)
      && S.Rest(ev, ts, orders, sel) == S.RestSlot(S.Rest(ev, ts, orders[..n], sel), ts[n], orders[n], sel)
  {
    hide S.RestSlot;
  }

  lemma NoRest(ev: seq<S.Offer>, t: Table, sel: S.Choice)
    ensures S.RestSlot(ev, t, [], sel) == ev && PostOrder(Leaf) == []
  {
  }

  lemma {:induction false} RestJoin(ev: seq<S.Offer>, t: Table, a: seq<nat>, b: seq<nat>, sel: S.Choice)
    requires (forall i :: 0 <= i < |a| ==> a[i] in t.files) && forall i :: 0 <= i < |b| ==> b[i] in t.files
    ensures S.RestSlot(ev, t, a + b, sel) == S.RestSlot(S.RestSlot(ev, t, a, sel), t, b, sel)
  {
    if b == [] {
      assert a + b == a;
    } else {
      assert (a + b)[..|a + b| - 1] == a + b[..|b| - 1];
      RestJoin(ev, t, a, b[..|b| - 1], sel);
    }
  }

  lemma RestBoth(ev: seq<S.Offer>, tb: Table, t: Tree, sel: S.Choice)
    requires t.Node? && Shows(t, tb.files)
    ensures (forall k :: k in PostOrder(t) ==> k in tb.files) && t.key in tb.files
    ensures (forall k :: k in PostOrder(t.left) ==> k in tb.files) && forall k :: k in PostOrder(t.right) ==> k in tb.files
    ensures S.RestSlot(ev, tb, PostOrder(t), sel) ==
            S.RestNode(S.RestSlot(S.RestSlot(ev, tb, PostOrder(t.left), sel), tb, PostOrder(t.right), sel),
                       tb.files[t.key], sel)
  {
    ShownKeys(t, tb.files);
    ShownKeys(t.left, tb.files);
    ShownKeys(t.right, tb.files);
    var a, b := PostOrder(t.left), PostOrder(t.right);
    RestJoin(ev, tb, a, b, sel);
    assert (a + b + [t.key])[..|a + b|] == a + b;
  }

  lemma RestFacts(f: Forest, ts: seq<Table>)
    requires f.Models(ts)
    ensures |ts| == |f.slots| && f.Chained() && f.Apart()
    ensures forall i :: 0 <= i < |ts| ==> Ready(f.slots[i], ts[i], f.nil)
  {
    hide IsTree, Shows, Nodes, Slots, Lists, PostOrder, Ordered, Separate, Keys;
    forall i | 0 <= i < |ts| ensures Ready(f.slots[i], ts[i], f.nil) {
      SlotReady(f, ts, i);
    }
  }
}
