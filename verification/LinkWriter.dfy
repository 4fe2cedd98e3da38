/**
 outfile, iflush and lflush on the splay-tree forest: they compute what LinkSpec
 describes.
 */
module LinkWriter {
  import opened Basics
  import opened SplayTree
  import opened InodeForest
  import opened LinkSpec
  import N = LinkNumbers
  import D = LinkData

  class Writer {
    const forest: Forest
    const maxino: nat
    var archive: seq<Entry>
    var fakedev: nat
    var fakeino: nat
    var harddev: nat

    ghost function State(ts: seq<Table>): LinkState
      reads this
    {
      LinkState(ts, fakedev, fakeino, harddev)
    }

    ghost predicate Holds(ts: seq<Table>)
      reads this, forest, forest.repr
    {
      this !in forest.repr && maxino > 0 && forest.Models(ts) && Inv(ts, maxino)
    }

    constructor (maxino: nat)
      requires maxino > 0
      ensures Holds([]) && this.maxino == maxino && archive == []
      ensures State([]) == LinkState([], FIRSTFAKEDEV, maxino, 1) && fresh(forest.repr)
    {
      forest := new Forest();
      this.maxino := maxino;
      archive, fakedev, fakeino, harddev := [], FIRSTFAKEDEV, maxino, 1;
    }

    method AddFile(name: string, st: Stat, dev: nat, ino: nat, zerolink: bool)
      modifies this`archive
      ensures archive == old(archive) + [Header(name, st, dev, ino, zerolink)]
    {
      archive := archive + [Header(name, st, dev, ino, zerolink)];
    }

    /** The next slot of a device, appended when there is none. */
    method NextDev(ds0: Dslot?, dp0: Dslot?, dev0: nat, d: nat, ghost ts: seq<Table>)
      returns (ok: bool, ds: Dslot?, dev: nat, ghost us: seq<Table>)
      requires forest.Models(ts) && this !in forest.repr && 1 <= dev0 <= |forest.slots| + 1
      requires ds0 == if dev0 <= |forest.slots| then forest.slots[dev0 - 1] else null
      requires dp0 == if dev0 == 1 then null else forest.slots[dev0 - 2]
      modifies forest.repr, this`harddev
      ensures |ts| == |old(forest.slots)|
      ensures var r := DevFrom(ts, d, dev0 - 1);
        && dev == r + 1 && ok == (dev < fakedev)
        && (ok ==> us == Slotted(ts, d, r) && harddev == dev && dev <= |forest.slots| && ds == forest.slots[r])
        && (r < |ts| ==> forest.repr == old(forest.repr) && forest.slots == old(forest.slots))
      ensures ok ==> forest.Models(us) && fresh(forest.repr - old(forest.repr)) && this !in forest.repr
      ensures !ok ==> forest.repr == old(forest.repr)
    {
      hide Slots, Agree, Parted, Forest.Models;
      us, ds, dev := ts, ds0, dev0;
      var dp, i := dp0, 0;
      forest.SlotFacts(ts, 0);
      ds, dp, i := forest.Seek(ds, dp, dev - 1, d, ts);
      dev := i + 1;
      if dev >= fakedev {
        return false, null, dev, ts;
      }
      ok := true;
      if ds == null {
        ds := forest.Append(dp, d, dev, ts);
        us := ts + [Table(d, dev, 0, map[])];
      }
      harddev := dev;
    }

    /** The next slot of the device of a file, and the file on it. */
    method NextSlot(ds0: Dslot?, dp0: Dslot?, dev0: nat, f: Named, ghost ts: seq<Table>)
      returns (ok: bool, ds: Dslot?, dev: nat, ip: Islot?, ghost us: seq<Table>)
      requires forest.Models(ts) && this !in forest.repr && 1 <= dev0 <= |forest.slots| + 1
      requires ds0 == if dev0 <= |forest.slots| then forest.slots[dev0 - 1] else null
      requires dp0 == if dev0 == 1 then null else forest.slots[dev0 - 2]
      modifies forest.repr, this`harddev
      ensures |ts| == |old(forest.slots)|
      ensures var r := DevFrom(ts, f.st.dev, dev0 - 1);
        && dev == r + 1 && ok == (dev < fakedev)
        && (ok ==> us == (if r < |ts| then ts else ts + [Table(f.st.dev, dev, 0, map[])]) && r < |us| && us[r].dev == f.st.dev)
        && (r < |ts| ==> forest.repr == old(forest.repr) && forest.slots == old(forest.slots))
      ensures fresh(forest.repr - old(forest.repr)) && this !in forest.repr
      ensures ok ==> forest.Models(us) && harddev == dev && 1 <= dev <= |forest.slots| == |us|
      ensures ok ==> ds == forest.slots[dev - 1] && ds.cnt == us[dev - 1].cnt
      ensures ok ==> ds.nxt == if dev < |forest.slots| then forest.slots[dev] else null
      ensures ok ==> (ip != null <==> f.st.ino in us[dev - 1].files)
      ensures ok && ip != null ==> ip.ino == f.st.ino && InfoOf(ip) == us[dev - 1].files[f.st.ino]
      ensures ok && ip != null ==> ip in forest.repr && ip.ino in Slots(ds.shape) && ip == Slots(ds.shape)[ip.ino]
      ensures ok && ip == null ==> ds.shape.Node? ==> Parted(ds.shape, f.st.ino)
    {
      hide *;
      forest.SlotFacts(ts, 0);
      SlottedIs(ts, f.st.dev, DevFrom(ts, f.st.dev, dev0 - 1));
      ip := null;
      ok, ds, dev, us := NextDev(ds0, dp0, dev0, f.st.dev, ts);
      if ok {
        forest.SlotFacts(us, dev - 1);
        ip := forest.Lookup(ds, f.st.ino, dev - 1, us);
        forest.SlotFacts(us, dev - 1);
      }
    }

    /** The search for the device slot of a file. */
    method FindSlot(f: Named, ghost ts: seq<Table>)
      returns (ok: bool, ds: Dslot?, dev: nat, ip: Islot?, ghost us: seq<Table>)
      requires forest.Models(ts) && this !in forest.repr && maxino > 0
      modifies forest.repr, this`harddev
      ensures var r := Locate(ts, f.st.dev, f.st.ino, maxino, 0);
        && ok == (r + 1 < fakedev)
        && (ok ==> dev == r + 1 && us == (if r < |ts| then ts else ts + [Table(f.st.dev, dev, 0, map[])]) && harddev == dev)
      ensures ok ==> forest.Models(us)
      ensures fresh(forest.repr - old(forest.repr)) && this !in forest.repr
      ensures ok ==> ds != null && dev - 1 < |forest.slots| && ds == forest.slots[dev - 1]
      ensures ok ==> (ip != null <==> f.st.ino in us[dev - 1].files)
      ensures ok && ip != null ==> ip.ino == f.st.ino && InfoOf(ip) == us[dev - 1].files[f.st.ino]
      ensures ok && ip != null ==> ip in forest.repr && ip.ino in Slots(ds.shape) && ip == Slots(ds.shape)[ip.ino]
      ensures ok && ip == null ==> ds.shape.Node? ==> Parted(ds.shape, f.st.ino)
    {
      hide *;
      us, ip := ts, null;
      ds, dev := forest.devices, 1;
      var dp: Dslot? := null;
      forest.SlotFacts(ts, 0);
      while true
        invariant us == ts && forest.Models(ts) && forest.repr == old(forest.repr) && this !in forest.repr
        invariant 1 <= dev <= |ts| + 1 && |ts| == |forest.slots|
        invariant ds == (if dev <= |ts| then forest.slots[dev - 1] else null)
        invariant dp == (if dev == 1 then null else forest.slots[dev - 2])
        invariant Locate(ts, f.st.dev, f.st.ino, maxino, dev - 1) == Locate(ts, f.st.dev, f.st.ino, maxino, 0)
        decreases |ts| + 1 - dev
      {
        LocateStep(ts, f.st.dev, f.st.ino, maxino, dev - 1);
        ok, ds, dev, ip, us := NextSlot(ds, dp, dev, f, ts);
        if !ok || ip != null || ds.cnt < maxino {
          return;
        }
        dp, ds, dev := ds, ds.nxt, dev + 1;
      }
    }

    /** A node for a file met for the first time on a slot. */
    method NewNode(ds: Dslot, st: Stat, ghost i: nat, ghost ts: seq<Table>) returns (ip: Islot, ghost us: seq<Table>)
      requires forest.Models(ts) && i < |forest.slots| && forest.slots[i] == ds && st.ino !in ts[i].files
      requires ds.shape.Node? ==> Parted(ds.shape, st.ino)
      modifies forest.repr
      ensures var p := Info(ts[i].cnt + 1, st.nlink, [], Some(st), "");
        us == ts[i := ts[i].(cnt := ts[i].cnt + 1, files := ts[i].files[st.ino := p])] && InfoOf(ip) == p
      ensures forest.Models(us) && forest.slots == old(forest.slots) && ip.ino == st.ino
      ensures ip.ino in Slots(ds.shape) && ip == Slots(ds.shape)[ip.ino]
      ensures fresh(ip) && forest.repr == old(forest.repr) + {ip}
    {
      hide Rooting, Nodes, Slots, Agree, Parted, Forest.Models;
      forest.SlotFacts(ts, i);
      ip := new Islot(st.ino);
      ip.fino := forest.NextNumber(ds, i, ts);
      us := ts[i := ts[i].(cnt := ts[i].cnt + 1)];
      ip.nlk, ip.st := st.nlink, Some(st);
      forest.Insert(ds, ip, i, us);
      us := us[i := us[i].(files := us[i].files[ip.ino := InfoOf(ip)])];
    }

    /** One more name for a file with several links: written together with
        the names collected before it, or collected. */
    method Collect(ip: Islot, f: Named, dev: nat, ghost ts: seq<Table>) returns (ghost us: seq<Table>)
      requires forest.Models(ts) && this !in forest.repr && 1 <= dev <= |forest.slots| && Linked(f.st)
      requires ip.ino in ts[dev - 1].files && InfoOf(ip) == ts[dev - 1].files[ip.ino]
      requires ip.ino in Slots(forest.slots[dev - 1].shape) && ip == Slots(forest.slots[dev - 1].shape)[ip.ino]
      modifies this`archive, ip`fino, ip`nlk, ip`lnk, ip`st, ip`name
      ensures var t := ts[dev - 1];
        us == ts[dev - 1 := t.(files := t.files[ip.ino := Collected(t.files[ip.ino], f)])] && forest.Models(us)
      ensures archive == old(archive) + Released(ts[dev - 1].files[ip.ino], f, dev)
    {
      hide Slots, Forest.Models, Headers, Header, Linked;
      forest.SlotFacts(ts, dev - 1);
      var p := Info(ip.fino, ip.nlk, ip.lnk, ip.st, ip.name);
      ghost var q := p;
      if p.nlk == 1 {
        p := p.(nlk := p.nlk - 1, st := None);
        AddLinks(ip.lnk, f.st, dev, ip.fino);
        AddFile(f.name, f.st, dev, ip.fino, false);
      } else {
        if p.nlk == 0 {
          p := p.(nlk := f.st.nlink, lnk := [], st := Some(f.st));
        }
        SomeLinks(p.nlk, f.st, q.nlk);
        p := p.(nlk := p.nlk - 1, lnk := p.lnk + [f.name]);
      }
      assert p == Collected(q, f);
      forest.Store(ip, p, dev - 1, ts);
      us := ts[dev - 1 := ts[dev - 1].(files := ts[dev - 1].files[ip.ino := p])];
    }

    /** The zero-size headers of all collected names. */
    method AddLinks(lnk: seq<string>, st: Stat, dev: nat, ino: nat)
      modifies this`archive
      ensures archive == old(archive) + Headers(lnk, st, dev, ino)
    {
      hide Header;
      for i := 0 to |lnk|
        invariant archive == old(archive) + Headers(lnk[..i], st, dev, ino)
      {
        assert lnk[..i + 1][..i] == lnk[..i];
        AddFile(lnk[i], st, dev, ino, true);
      }
      assert lnk[..|lnk|] == lnk;
    }

    /** The file of f on its slot: a new node if need be, and one more name. */
    method AddName(ds: Dslot, ip0: Islot?, f: Named, dev: nat, ghost ts: seq<Table>) returns (ghost us: seq<Table>)
      requires forest.Models(ts) && this !in forest.repr && Linked(f.st)
      requires 1 <= dev <= |forest.slots| == |ts| && ds == forest.slots[dev - 1]
      requires ip0 != null <==> f.st.ino in ts[dev - 1].files
      requires ip0 != null ==> ip0.ino == f.st.ino && InfoOf(ip0) == ts[dev - 1].files[f.st.ino]
      requires ip0 != null ==> ip0 in forest.repr && ip0.ino in Slots(ds.shape) && ip0 == Slots(ds.shape)[ip0.ino]
      requires ip0 == null ==> ds.shape.Node? ==> Parted(ds.shape, f.st.ino)
      modifies this`archive, forest.repr
      ensures forest.Models(us) && this !in forest.repr && fresh(forest.repr - old(forest.repr))
      ensures var p := OnSlot(ts[dev - 1], f.st);
        us == ts[dev - 1 := WithInfo(ts[dev - 1], f.st.ino, Collected(p, f))] && archive == old(archive) + Released(p, f, dev)
    {
      hide *;
      var ip := ip0;
      us := ts;
      OnSlotIs(ts[dev - 1], f.st);
      if ip == null {
        ip, us := NewNode(ds, f.st, dev - 1, us);
      }
      forest.SlotFacts(us, dev - 1);
      us := Collect(ip, f, dev, us);
      WithInfoIs(ts[dev - 1], f.st, Collected(OnSlot(ts[dev - 1], f.st), f));
    }

    /** outfile for a file with several links. */
    method OutLinked(f: Named, ghost ts: seq<Table>) returns (ok: bool, ghost us: seq<Table>)
      requires forest.Models(ts) && this !in forest.repr && maxino > 0 && Linked(f.st)
      modifies this, forest.repr
      ensures var o := OutLink(old(State(ts)), f, maxino);
        && ok == o.Out?
        && (ok ==> State(us) == o.s && archive == old(archive) + o.es && forest.Models(us))
      ensures this !in forest.repr && fresh(forest.repr - old(forest.repr))
    {
      hide Slots, Forest.Models, Released, Collected, Locate, Linked, Parted, InfoOf, Updated, Present, OnSlot, WithInfo;
      var ds, dev, ip;
      ghost var r := Locate(ts, f.st.dev, f.st.ino, maxino, 0);
      ok, ds, dev, ip, us := FindSlot(f, ts);
      if ok {
        forest.SlotFacts(us, r);
        SlotUpdated(ts, f, r);
        us := AddName(ds, ip, f, dev, us);
      }
    }

    /** outfile: whatever it writes ends with the entry of f and its data. */
    method OutFile(f: Named, ghost ts: seq<Table>) returns (ok: bool, ghost us: seq<Table>)
      requires Holds(ts)
      modifies this, forest.repr
      ensures var o := LinkSpec.OutFile(old(State(ts)), f, maxino);
        && ok == o.Out?
        && (ok ==> Holds(us) && State(us) == o.s && archive == old(archive) + o.es && (o.es == [] || Ends(f, o.es)))
      ensures fresh(forest.repr - old(forest.repr))
    {
      hide Forest.Models, OutLink, Inv, Header, Issued, Ends;
      us := ts;
      if LinkSpec.OutFile(State(ts), f, maxino).Out? {
        FileEnds(State(ts), f, maxino);
      }
      if f.st.nlink > 1 && !f.st.dir {
        ghost var s := State(ts);
        ok, us := OutLinked(f, ts);
        if ok {
          StillHolds(s, f, maxino);
        }
      } else {
        var dev, ino := fakedev, fakeino;
        if ino == 0 {
          dev := dev - 1;
          if dev <= harddev {
            return false, us;
          }
          fakedev, ino := dev, maxino;
          fakeino := ino - 1;
        } else {
          fakeino := fakeino - 1;
        }
        AddFile(f.name, f.st, dev, ino, false);
        ok := true;
      }
    }

    /** iflush: the left subtree, the right subtree, then the node. */
    method IFlush(ip: Islot, dev: nat, nil: Islot, ghost t: Tree, ghost ns: set<Islot>, ghost tb: Table)
      requires Nodes(t) <= ns && IsTree(ip, t, nil) && nil !in Nodes(t) && Shows(t, tb.files)
      requires (forall k :: k in tb.files ==> Sane(tb.files[k])) && dev == tb.fake
      modifies this`archive
      ensures forall k :: k in PostOrder(t) ==> k in tb.files
      ensures archive == old(archive) + FlushSlot(tb, PostOrder(t))
      decreases t
    {
      hide FlushSlot, Leftover, Sane, InfoOf, PostOrder;
      ShownKeys(t, tb.files);
      if ip == nil {
        NoKeys(t);
        NoneFlushed(tb);
        return;
      }
      FlushBoth(tb, t);
      IFlush(ip.lln, dev, nil, t.left, ns, tb);
      IFlush(ip.rln, dev, nil, t.right, ns, tb);
      FlushNode(ip, dev);
    }

    method FlushNode(ip: Islot, dev: nat)
      requires Sane(InfoOf(ip))
      modifies this`archive
      ensures archive == old(archive) + Leftover(InfoOf(ip), dev)
    {
      if ip.nlk > 0 && ip.st.Some? {
        var n := |ip.lnk| - 1;
        AddLinks(ip.lnk[..n], ip.st.value, dev, ip.fino);
        AddFile(ip.lnk[n], ip.st.value, dev, ip.fino, false);
      }
    }

    method FlushTree(ds: Dslot, ghost i: nat, ghost ts: seq<Table>)
      requires Holds(ts) && i < |ts| && i < |forest.slots| && ds == forest.slots[i]
      modifies this`archive
      ensures Lists(PostOrder(ds.shape), ts[i])
      ensures archive == old(archive) + FlushSlot(ts[i], PostOrder(ds.shape))
    {
      hide Forest.Models, FlushSlot, Lists, IsTree, Shows, PostOrder, Nodes, Separate;
      forest.SlotFacts(ts, i);
      assert TableOk(ts[i], i, maxino);
      TreeFacts(forest, ts, i);
      IFlush(ds.isl, ds.fake, forest.nil, ds.shape, Nodes(ds.shape), ts[i]);
    }

    /** lflush: every slot, in the order of the list. */
    method LFlush(ghost ts: seq<Table>) returns (ghost orders: seq<seq<nat>>)
      requires Holds(ts)
      modifies this`archive
      ensures AllList(orders, ts) && |orders| == |ts| && archive == old(archive) + FlushAll(ts, orders)
    {
      hide Forest.Models, FlushSlot, FlushAll, Lists, Inv, AllList, PostOrder;
      NoneListed(ts);
      var ds := forest.devices;
      ghost var i := 0;
      orders := [];
      forest.SlotFacts(ts, i);
      while ds != null
        invariant Holds(ts) && |ts| == |forest.slots|
        invariant i <= |ts| && ds == (if i < |ts| then forest.slots[i] else null)
        invariant AllList(orders, ts) && |orders| == i && archive == old(archive) + FlushAll(ts, orders)
        decreases |ts| - i
      {
        forest.SlotFacts(ts, i);
        FlushTree(ds, i, ts);
        OneListed(ts, orders, PostOrder(ds.shape));
        orders := orders + [PostOrder(ds.shape)];
        ds, i := ds.nxt, i + 1;
        forest.SlotFacts(ts, i);
      }
    }

    /** A whole archive: outfile for each file, then lflush.  Every file given
        is in it, with its names and its data. */
    method WriteAll(files: seq<Named>) returns (ok: bool, ghost ts: seq<Table>, ghost orders: seq<seq<nat>>)
      requires Holds([]) && State([]) == LinkState([], FIRSTFAKEDEV, maxino, 1) && archive == []
      modifies this, forest.repr
      ensures var o := Run(files, maxino);
        && ok == o.Out?
        && (ok ==> ts == o.s.ts && AllList(orders, ts) && |orders| == |ts| && archive == o.es + FlushAll(ts, orders))
      ensures ok ==> D.AllThere(files, ts, archive)
    {
      hide Forest.Models, Inv, LinkSpec.OutFile, FlushAll, D.AllThere;
      ts, orders := [], [];
      for i := 0 to |files|
        invariant Holds(ts) && fresh(forest.repr - old(forest.repr))
        invariant Run(files[..i], maxino) == Out(State(ts), archive)
      {
        assert files[..i + 1][..i] == files[..i];
        ok, ts := OutFile(files[i], ts);
        if !ok {
          Stopped(files, i + 1, maxino);
          return;
        }
      }
      assert files[..|files|] == files;
      orders := LFlush(ts);
      ok := true;
      D.ArchiveThere(files, maxino, orders, archive);
    }
  }

  // ---- the flush order ----

  ghost function PostOrder(t: Tree): seq<nat> {
    if t.Leaf? then [] else PostOrder(t.left) + PostOrder(t.right) + [t.key]
  }

  /** Every node says what files has for its key. */
  ghost predicate Shows(t: Tree, files: map<nat, Info>)
    reads Nodes(t)`fino, Nodes(t)`nlk, Nodes(t)`lnk, Nodes(t)`st, Nodes(t)`name
  {
    t.Node? ==>
      && Shows(t.left, files) && Shows(t.right, files)
      && t.key in files && InfoOf(t.slot) == files[t.key]
  }

  lemma {:induction false} ShownKeys(t: Tree, files: map<nat, Info>)
    requires Shows(t, files)
    ensures forall k :: k in PostOrder(t) ==> k in files
  {
    if t.Node? {
      ShownKeys(t.left, files);
      ShownKeys(t.right, files);
    }
  }

  lemma {:induction false} AllShown(t: Tree, files: map<nat, Info>)
    requires Ordered(t) && forall k :: k in Slots(t) ==> k in files && InfoOf(Slots(t)[k]) == files[k]
    ensures Shows(t, files)
  {
    if t.Node? {
      var l, r := t.left, t.right;
      hide InfoOf, Slots;
      SlotsFrom(t);
      AllShown(l, files);
      AllShown(r, files);
    }
  }

  /** Post order visits every key once. */
  lemma {:induction false} PostOrderOnce(t: Tree)
    requires Ordered(t)
    ensures forall k :: k in PostOrder(t) <==> k in Keys(t)
    ensures forall i, j :: 0 <= i < j < |PostOrder(t)| ==> PostOrder(t)[i] != PostOrder(t)[j]
  {
    if t.Node? {
      PostOrderOnce(t.left);
      PostOrderOnce(t.right);
      var a, b := PostOrder(t.left), PostOrder(t.right);
      forall i, j | 0 <= i < j < |PostOrder(t)| ensures PostOrder(t)[i] != PostOrder(t)[j] {
        if i < |a| <= j {
          assert a[i] in Keys(t.left);
          assert j < |a| + |b| ==> b[j - |a|] in Keys(t.right);
        } else if |a| <= i && j == |a| + |b| {
          assert b[i - |a|] in Keys(t.right);
        }
      }
    }
  }

  /** The tree of a slot shows exactly the files of its table. */
  ghost predicate Ready(d: Dslot, t: Table, nil: Islot)
    reads d, Nodes(d.shape)
  {
    && (if d.isl == null then d.shape == Leaf else IsTree(d.isl, d.shape, nil))
    && Separate(d.shape) && nil !in Nodes(d.shape)
    && Shows(d.shape, t.files) && Lists(PostOrder(d.shape), t)
  }

  lemma SlotReady(f: Forest, ts: seq<Table>, i: nat)
    requires f.Models(ts) && i < |f.slots|
    ensures Ready(f.slots[i], ts[i], f.nil)
  {
    hide IsTree, Nodes, PostOrder, Ordered, Keys, Shows;
    var d := f.slots[i];
    assert f.Held(i, ts[i]);
    Wellformed(d.isl, d.shape, f.nil);
    SlotsKeys(d.shape);
    AllShown(d.shape, ts[i].files);
    PostOrderOnce(d.shape);
    TreeOf(d.isl, d.shape, f.nil);
    assert Slots(d.shape).Keys == ts[i].files.Keys;
  }

  lemma {:induction false} TreeOf(x: Islot?, t: Tree, nil: Islot)
    requires Rooting(x, t, nil)
    ensures if x == null then t == Leaf else IsTree(x, t, nil)
  {
  }

  lemma TreeFacts(f: Forest, ts: seq<Table>, i: nat)
    requires f.Models(ts) && i < |f.slots| && ts[i].files.Keys != {}
    ensures var d := f.slots[i]; d.isl != null && Ready(d, ts[i], f.nil)
  {
    hide IsTree, Nodes, Ordered, Separate, Keys, Shows;
    SlotReady(f, ts, i);
  }

  lemma {:induction false} FlushJoin(t: Table, a: seq<nat>, b: seq<nat>)
    requires (forall i :: 0 <= i < |a| ==> a[i] in t.files) && forall i :: 0 <= i < |b| ==> b[i] in t.files
    ensures FlushSlot(t, a + b) == FlushSlot(t, a) + FlushSlot(t, b)
  {
    hide FlushSlot, Leftover;
    FlushMore(t, b);
    FlushMore(t, a + b);
    if b == [] {
      assert a + b == a;
    } else {
      assert (a + b)[..|a + b| - 1] == a + b[..|b| - 1];
      FlushJoin(t, a, b[..|b| - 1]);
    }
  }

  lemma NoneListed(ts: seq<Table>)
    ensures AllList([], ts) && FlushAll(ts, []) == []
  {
  }

  /** One more slot in the order of the flush. */
  lemma OneListed(ts: seq<Table>, orders: seq<seq<nat>>, order: seq<nat>)
    requires AllList(orders, ts) && |orders| < |ts| && Lists(order, ts[|orders|])
    ensures AllList(orders + [order], ts)
    ensures FlushAll(ts, orders + [order]) == FlushAll(ts, orders) + FlushSlot(ts[|orders|], order)
  {
    hide *;
    var more := orders + [order];
    OneInList(ts, orders, order);
    LastFlushed(ts, more);
    assert more[..|orders|] == orders && more[|orders|] == order;
  }

  lemma OneInList(ts: seq<Table>, orders: seq<seq<nat>>, order: seq<nat>)
    requires AllList(orders, ts) && |orders| < |ts| && Lists(order, ts[|orders|])
    ensures AllList(orders + [order], ts)
  {
    hide Lists;
  }

  lemma LastFlushed(ts: seq<Table>, orders: seq<seq<nat>>)
    requires AllList(orders, ts) && orders != []
    ensures var n := |orders| - 1;
      && n < |ts| && AllList(orders[..n], ts) && Lists(orders[n], ts[n])
      && (forall i :: 0 <= i < |orders[n]| ==> orders[n][i] in ts[n].files)
      && FlushAll(ts, orders) == FlushAll(ts, orders[..n]) + FlushSlot(ts[n], orders[n])
  {
    hide FlushSlot;
  }

  lemma NoneFlushed(t: Table)
    ensures FlushSlot(t, []) == []
  {
  }

  lemma NoKeys(t: Tree)
    ensures t.Leaf? ==> PostOrder(t) == []
  {
  }

  lemma FlushBoth(tb: Table, t: Tree)
    requires t.Node? && Shows(t, tb.files)
    ensures (forall k :: k in PostOrder(t) ==> k in tb.files) && t.key in tb.files
    ensures (forall k :: k in PostOrder(t.left) ==> k in tb.files) && forall k :: k in PostOrder(t.right) ==> k in tb.files
    ensures FlushSlot(tb, PostOrder(t)) ==
            FlushSlot(tb, PostOrder(t.left)) + FlushSlot(tb, PostOrder(t.right)) + Leftover(tb.files[t.key], tb.fake)
  {
    ShownKeys(t, tb.files);
    ShownKeys(t.left, tb.files);
    ShownKeys(t.right, tb.files);
    var a, b := PostOrder(t.left), PostOrder(t.right);
    FlushJoin(tb, a, b);
    assert (a + b + [t.key])[..|a + b|] == a + b;
  }

  lemma {:induction false} Stopped(fs: seq<Named>, i: nat, maxino: nat)
    requires maxino > 0 && i <= |fs| && Run(fs[..i], maxino).Fatal?
    ensures Run(fs, maxino).Fatal?
    decreases |fs| - i
  {
    if i == |fs| {
      assert fs[..i] == fs;
    } else {
      assert fs[..i + 1][..i] == fs[..i];
      Stopped(fs, i + 1, maxino);
    }
  }

  lemma StillHolds(s: LinkState, f: Named, maxino: nat)
    requires maxino > 0 && Inv(s.ts, maxino) && Linked(f.st) && OutLink(s, f, maxino).Out?
    ensures Inv(OutLink(s, f, maxino).s.ts, maxino)
  {
    hide Inv, OutLink;
    assert Issued(s.ts, []);
    LinkKeeps(s, f, maxino, []);
  }

  /** A new file is entered first and then collects its name. */
  /** What a slot says about a file, or would say if it were new. */
  ghost function OnSlot(t: Table, st: Stat): Info {
    if st.ino in t.files then t.files[st.ino] else Info(t.cnt + 1, st.nlink, [], Some(st), "")
  }

  ghost function WithInfo(t: Table, ino: nat, p: Info): Table {
    Table(t.dev, t.fake, if ino in t.files then t.cnt else t.cnt + 1, t.files[ino := p])
  }

  lemma OnSlotIs(t: Table, st: Stat)
    ensures OnSlot(t, st) == if st.ino in t.files then t.files[st.ino] else Info(t.cnt + 1, st.nlink, [], Some(st), "")
  {
  }

  /** Entering a new file and then replacing it is one step. */
  lemma WithInfoIs(t: Table, st: Stat, c: Info)
    ensures var p := OnSlot(t, st);
      var u := if st.ino in t.files then t else t.(cnt := t.cnt + 1, files := t.files[st.ino := p]);
      u.(files := u.files[st.ino := c]) == WithInfo(t, st.ino, c)
  {
    assert t.files[st.ino := OnSlot(t, st)][st.ino := c] == t.files[st.ino := c];
  }

  lemma SlotUpdated(ts: seq<Table>, f: Named, r: nat)
    requires r <= |ts| && Linked(f.st)
    ensures var us := if r < |ts| then ts else ts + [Table(f.st.dev, r + 1, 0, map[])];
      var p := OnSlot(us[r], f.st);
      p == Present(ts, f.st, r) &&
      us[r := WithInfo(us[r], f.st.ino, Collected(p, f))] == Updated(ts, f.st.dev, f.st.ino, r, Collected(p, f))
  {
    hide Collected;
  }

  /** The decrement of a link count is never below zero. */
  lemma SomeLinks(nlk: nat, st: Stat, before: nat)
    requires Linked(st) && nlk == if before == 0 then st.nlink else before
    ensures nlk > 0
  {
  }

  lemma SlottedIs(ts: seq<Table>, dev: nat, r: nat)
    requires r <= |ts|
    ensures Slotted(ts, dev, r) == if r < |ts| then ts else ts + [Table(dev, r + 1, 0, map[])]
  {
  }

  lemma LocateStep(ts: seq<Table>, dev: nat, ino: nat, maxino: nat, i: nat)
    requires i <= |ts|
    ensures var r := DevFrom(ts, dev, i);
      i <= r <= |ts| && r <= Locate(ts, dev, ino, maxino, i) &&
      if r == |ts| || ino in ts[r].files || ts[r].cnt < maxino then Locate(ts, dev, ino, maxino, i) == r
      else Locate(ts, dev, ino, maxino, i) == Locate(ts, dev, ino, maxino, r + 1)
  {
  }
}
