/**
 The list of devices, each with its own inode tree, and the link test of cp
 that runs on it.
 */
module InodeForest {
  import opened Basics
  import opened SplayTree

  class Dslot {
    var nxt: Dslot?
    var isl: Islot?
    var cnt: nat
    var fake: nat
    var dev: nat
    ghost var shape: Tree

    constructor (dev: nat)
      ensures nxt == null && isl == null && cnt == 0 && fake == 0 && this.dev == dev && shape == Leaf
    {
      nxt, isl, cnt, fake, this.dev, shape := null, null, 0, 0, dev, Leaf;
    }
  }

  /** What a tree node says about its file. */
  datatype Info = Info(fino: nat, nlk: nat, lnk: seq<string>, st: Option<Stat>, name: string)

  /** One device slot with the files known on it. */
  datatype Table = Table(dev: nat, fake: nat, cnt: nat, files: map<nat, Info>)

  ghost function InfoOf(n: Islot): Info
    reads n`fino, n`nlk, n`lnk, n`st, n`name
  {
    Info(n.fino, n.nlk, n.lnk, n.st, n.name)
  }

  ghost predicate Agree(m: map<nat, Islot>, files: map<nat, Info>)
    reads m.Values`fino, m.Values`nlk, m.Values`lnk, m.Values`st, m.Values`name
  {
    m.Keys == files.Keys && forall k :: k in m ==> InfoOf(m[k]) == files[k]
  }

  /** A slot holds exactly the files of a table. */
  ghost predicate Tabled(d: Dslot, t: Table)
    reads d`dev, d`fake, d`cnt, d`shape
    reads Slots(d.shape).Values`fino, Slots(d.shape).Values`nlk, Slots(d.shape).Values`lnk
    reads Slots(d.shape).Values`st, Slots(d.shape).Values`name
  {
    d.dev == t.dev && d.fake == t.fake && d.cnt == t.cnt && Agree(Slots(d.shape), t.files)
  }

  /** With one more file. */
  lemma OneMoreFile(d: Dslot, t: Table, m: map<nat, Islot>, k: nat, n: Islot)
    requires d.dev == t.dev && d.fake == t.fake && d.cnt == t.cnt && Agree(m, t.files) && Slots(d.shape) == m[k := n]
    ensures Tabled(d, t.(files := t.files[k := InfoOf(n)]))
  {
    hide InfoOf, Slots;
  }

  // ---- the tables alone ----

  /** The first slot of a device from slot i on, or the number of slots. */
  ghost function DevFrom(ts: seq<Table>, dev: nat, i: nat): (r: nat)
    requires i <= |ts|
    ensures i <= r <= |ts| && (r < |ts| ==> ts[r].dev == dev)
    ensures forall j :: i <= j < r ==> ts[j].dev != dev
    decreases |ts| - i
  {
    if i == |ts| || ts[i].dev == dev then i else DevFrom(ts, dev, i + 1)
  }

  /** The tables after dfind. */
  ghost function WithDev(ts: seq<Table>, dev: nat): (us: seq<Table>)
    ensures DevFrom(ts, dev, 0) < |us|
  {
    if DevFrom(ts, dev, 0) < |ts| then ts else ts + [Table(dev, 0, 0, map[])]
  }

  ghost function Known(ts: seq<Table>, dev: nat, ino: nat): Option<Info> {
    var i := DevFrom(ts, dev, 0);
    if i < |ts| && ino in ts[i].files then Some(ts[i].files[ino]) else None
  }

  /** Enter or replace a file on the first slot of its device. */
  ghost function Entered(ts: seq<Table>, dev: nat, ino: nat, p: Info): seq<Table> {
    var i := DevFrom(ts, dev, 0);
    var us := WithDev(ts, dev);
    us[i := us[i].(files := us[i].files[ino := p])]
  }

  lemma DevFromIs(ts: seq<Table>, dev: nat, i: nat, r: nat)
    requires i <= r <= |ts| && (r < |ts| ==> ts[r].dev == dev)
    requires forall j :: i <= j < r ==> ts[j].dev != dev
    ensures DevFrom(ts, dev, i) == r
  {
  }

  /** Looking up and entering behave as on one finite map. */
  lemma KnownEntered(ts: seq<Table>, dev: nat, ino: nat, p: Info, d: nat, k: nat)
    ensures Known(Entered(ts, dev, ino, p), d, k) ==
            if d == dev && k == ino then Some(p) else Known(ts, d, k)
    ensures Known(WithDev(ts, dev), d, k) == Known(ts, d, k)
  {
    var us, vs := WithDev(ts, dev), Entered(ts, dev, ino, p);
    var r := DevFrom(ts, d, 0);
    if d == dev || r < |ts| {
      DevFromIs(us, d, 0, r);
      DevFromIs(vs, d, 0, r);
    } else {
      DevFromIs(us, d, 0, |us|);
      DevFromIs(vs, d, 0, |vs|);
    }
  }

  lemma OneMoreValue(m: map<nat, Islot>, k: nat, n: Islot)
    ensures m[k := n].Values <= m.Values + {n}
  {
  }

  lemma NewTabled(d: Dslot)
    ensures Slots(Leaf) == map[]
    ensures d.shape == Leaf && d.cnt == 0 ==> Tabled(d, Table(d.dev, d.fake, 0, map[]))
  {
  }

  /** What a slot says about one file. */
  lemma TabledFile(d: Dslot, t: Table, k: nat)
    requires Tabled(d, t)
    ensures d.dev == t.dev && d.fake == t.fake && d.cnt == t.cnt && Agree(Slots(d.shape), t.files)
    ensures (k in Slots(d.shape) <==> k in t.files) && (k in t.files ==> InfoOf(Slots(d.shape)[k]) == t.files[k])
  {
    hide InfoOf, Slots;
  }

  lemma TabledBy(d: Dslot, t: Table)
    requires d.dev == t.dev && d.fake == t.fake && d.cnt == t.cnt && Agree(Slots(d.shape), t.files)
    ensures Tabled(d, t)
  {
  }

  lemma Empty(t: Tree, nil: Islot)
    requires t == Leaf
    ensures Nodes(t) == {} && Rooting(null, t, nil)
  {
  }

  class Forest {
    var devices: Dslot?
    const nil: Islot
    ghost var slots: seq<Dslot>
    ghost var repr: set<object>

    ghost predicate Chained()
      reads this`devices, this`slots, slots`nxt
    {
      && devices == (if |slots| == 0 then null else slots[0])
      && forall i {:trigger slots[i].nxt} :: 0 <= i < |slots| ==>
           slots[i].nxt == if i + 1 < |slots| then slots[i + 1] else null
    }

    /** The device slots and trees are separate objects, all of them in repr. */
    ghost predicate Apart()
      reads this`slots, this`repr, slots`shape
    {
      && this in repr && nil in repr
      && (forall i, j :: 0 <= i < j < |slots| ==> slots[i] != slots[j])
      && (forall d :: d in slots ==> d in repr && Nodes(d.shape) <= repr && nil !in Nodes(d.shape))
      && (forall d, e :: d in slots && e in slots && d != e ==> Nodes(d.shape) !! Nodes(e.shape))
    }

    ghost predicate Valid()
      reads this, repr
    {
      && this in repr && (forall d :: d in slots ==> d in repr)
      && Chained() && Apart()
      && forall d :: d in slots ==> Rooting(d.isl, d.shape, nil)
    }

    constructor ()
      ensures Valid() && fresh(repr) && slots == [] && Models([])
    {
      nil := new Islot(0);
      devices, slots := null, [];
      new;
      nil.lln, nil.rln := nil, nil;
      repr := {this, nil};
    }

    /** The trees of the other slots are apart from that of ds. */
    lemma Others(ds: Dslot)
      requires Valid() && ds in slots
      ensures nil !in Nodes(ds.shape)
      ensures forall d :: d in slots && d != ds ==>
                nil !in Nodes(d.shape) && Nodes(d.shape) !! Nodes(ds.shape) && Rooting(d.isl, d.shape, nil)
    {
      hide Rooting, Nodes, Chained;
    }

    /** ifind on one device. */
    method Find(ds: Dslot, ino: nat) returns (ip: Islot?)
      requires Valid() && ds in slots
      modifies ds`isl, ds`shape, nil`ino, Nodes(ds.shape)`lln, Nodes(ds.shape)`rln
      ensures Valid() && Nodes(ds.shape) == old(Nodes(ds.shape))
      ensures Slots(ds.shape) == old(Slots(ds.shape)) && (ds.shape.Node? ==> Parted(ds.shape, ino))
      ensures if ino in Slots(ds.shape) then ip == Slots(ds.shape)[ino] && ip.ino == ino else ip == null
    {
      hide Slots, Wf, Parted, Rooting, Chained, Nodes;
      var root;
      ghost var t;
      Others(ds);
      ip, root, t := IFind(ino, ds.isl, nil, ds.shape);
      assert forall d :: d in slots && d != ds ==> Rooting(d.isl, d.shape, nil);
      ds.isl, ds.shape := root, t;
    }

    /** iput on one device, right after a failed Find for the same number. */
    method Put(ds: Dslot, ik: Islot)
      requires Valid() && ds in slots && ik !in repr
      requires ds.shape.Node? ==> Parted(ds.shape, ik.ino)
      modifies this`repr, ds`isl, ds`shape, ik`lln, ik`rln, Nodes(ds.shape)`lln, Nodes(ds.shape)`rln
      ensures Valid() && repr == old(repr) + {ik}
      ensures Nodes(ds.shape) <= old(Nodes(ds.shape)) + {ik}
      ensures Slots(ds.shape) == var m := old(Slots(ds.shape)); if ik.ino in m then m else m[ik.ino := ik]
    {
      hide Nodes, Slots, Parted, Chained, Rooting;
      Others(ds);
      PutIn(ds, ik);
      assert forall d :: d in slots && d != ds ==> Rooting(d.isl, d.shape, nil);
      repr := repr + {ik};
    }

    method PutIn(ds: Dslot, ik: Islot)
      requires Rooting(ds.isl, ds.shape, nil) && (ds.shape.Node? ==> Parted(ds.shape, ik.ino))
      requires ik !in Nodes(ds.shape) && ik != nil
      modifies ds`isl, ds`shape, ik`lln, ik`rln, Nodes(ds.shape)`lln, Nodes(ds.shape)`rln
      ensures Rooting(ds.isl, ds.shape, nil) && Nodes(ds.shape) <= old(Nodes(ds.shape)) + {ik}
      ensures Slots(ds.shape) == var m := old(Slots(ds.shape)); if ik.ino in m then m else m[ik.ino := ik]
    {
      hide *;
      var root;
      ghost var t;
      root, t := IPut(ik, ds.isl, nil, ds.shape);
      ds.isl, ds.shape := root, t;
    }

    method AppendSlot(dp: Dslot?, dev: nat, fake: nat) returns (ds: Dslot)
      requires Valid() && dp == (if |slots| == 0 then null else slots[|slots| - 1])
      modifies this`devices, this`slots, this`repr, slots`nxt
      ensures Valid() && fresh(ds) && repr == old(repr) + {ds}
      ensures ds.dev == dev && ds.fake == fake && ds.cnt == 0 && ds.shape == Leaf && slots == old(slots) + [ds]
    {
      hide Rooting, Nodes;
      ds := new Dslot(dev);
      ds.fake := fake;
      if devices == null {
        devices := ds;
      } else {
        dp.nxt := ds;
      }
      slots, repr := slots + [ds], repr + {ds};
      Empty(ds.shape, nil);
    }

    /** Slot i holds exactly the files of table t. */
    ghost predicate Held(i: nat, t: Table)
      reads this, repr
      requires i < |slots| && slots[i] in repr
    {
      Slots(slots[i].shape).Values <= repr && Tabled(slots[i], t)
    }

    lemma OtherSlots(i: nat)
      requires Valid() && i < |slots|
      ensures forall j :: 0 <= j < |slots| && j != i ==> slots[j] != slots[i]
      ensures this in repr && nil in repr && slots[i] in repr && Nodes(slots[i].shape) <= repr
    {
      hide Rooting, Nodes, Chained;
    }

    /** The forest as a value: ts gives, slot by slot, the files it holds. */
    ghost predicate Models(ts: seq<Table>)
      reads this, repr
    {
      Valid() && |ts| == |slots| && forall i :: 0 <= i < |slots| ==> Held(i, ts[i])
    }

    lemma OnlyPlace(ip: Islot, i: nat, j: nat, k: nat)
      requires Valid() && i < |slots| && j < |slots|
      requires ip.ino in Slots(slots[i].shape) && ip == Slots(slots[i].shape)[ip.ino]
      requires k in Slots(slots[j].shape) && Slots(slots[j].shape)[k] == ip
      ensures j == i && k == ip.ino
    {
      SlotsKeys(slots[i].shape);
      SlotsKeys(slots[j].shape);
      SlotsIno(if slots[j].isl == null then nil else slots[j].isl, slots[j].shape, nil);
    }

    /** What one slot shows of the tables. */
    lemma SlotFacts(ts: seq<Table>, i: nat)
      requires Models(ts)
      ensures |ts| == |slots| && devices == if |slots| == 0 then null else slots[0]
      ensures this in repr && forall d :: d in slots ==> d in repr
      ensures i < |slots| ==> slots[i].dev == ts[i].dev && slots[i].cnt == ts[i].cnt && slots[i].fake == ts[i].fake &&
                              slots[i] in repr && slots[i].nxt == if i + 1 < |slots| then slots[i + 1] else null
    {
      if i < |slots| {
        assert Held(i, ts[i]);
      }
    }

    /** Move on to the next slot of a device. */
    method Seek(ds0: Dslot?, dp0: Dslot?, i0: nat, dev: nat, ghost ts: seq<Table>)
      returns (ds: Dslot?, dp: Dslot?, i: nat)
      requires Models(ts) && i0 <= |slots| && ds0 == (if i0 < |slots| then slots[i0] else null)
      requires dp0 == if i0 == 0 then null else slots[i0 - 1]
      ensures i == DevFrom(ts, dev, i0) && i <= |slots| && ds == (if i < |slots| then slots[i] else null)
      ensures dp == if i == 0 then null else slots[i - 1]
    {
      hide Models;
      ds, dp, i := ds0, dp0, i0;
      SlotFacts(ts, i);
      while ds != null && ds.dev != dev
        invariant i <= |slots| && |slots| == |ts| && ds == (if i < |slots| then slots[i] else null)
        invariant dp == if i == 0 then null else slots[i - 1]
        invariant DevFrom(ts, dev, i) == DevFrom(ts, dev, i0)
        invariant i < |slots| ==> slots[i].dev == ts[i].dev
        decreases |slots| - i
      {
        SlotFacts(ts, i);
        dp, ds, i := ds, ds.nxt, i + 1;
        SlotFacts(ts, i);
      }
    }

    /** A new slot at the end of the list. */
    method Append(dp: Dslot?, dev: nat, fake: nat, ghost ts: seq<Table>) returns (ds: Dslot)
      requires Models(ts) && dp == (if |slots| == 0 then null else slots[|slots| - 1])
      modifies this`devices, this`slots, this`repr, slots`nxt
      ensures Models(ts + [Table(dev, fake, 0, map[])]) && fresh(ds) && repr == old(repr) + {ds}
      ensures slots == old(slots) + [ds]
    {
      hide Rooting, Nodes, Slots, Apart, Chained, Tabled;
      assert |ts| == |slots| && forall j :: 0 <= j < |slots| ==> Held(j, ts[j]);
      ds := AppendSlot(dp, dev, fake);
      NewTabled(ds);
      assert forall j :: 0 <= j < |slots| ==> Held(j, (ts + [Table(dev, fake, 0, map[])])[j]);
    }

    /** Look a file up on one device slot. */
    method Lookup(ds: Dslot, ino: nat, ghost i: nat, ghost ts: seq<Table>) returns (ip: Islot?)
      requires Models(ts) && i < |slots| && slots[i] == ds
      modifies repr
      ensures Models(ts) && slots == old(slots) && repr == old(repr)
      ensures ip != null <==> ino in ts[i].files
      ensures ip != null ==> ip in repr && ip.ino == ino && ino in Slots(ds.shape) && ip == Slots(ds.shape)[ino]
      ensures ip != null ==> InfoOf(ip) == ts[i].files[ino]
      ensures ip == null ==> ds.shape.Node? ==> Parted(ds.shape, ino)
    {
      hide Rooting, Nodes, Slots, Parted, InfoOf, Chained, Apart, Agree, Tabled;
      OtherSlots(i);
      assert Held(i, ts[i]);
      TabledFile(ds, ts[i], ino);
      ip := Find(ds, ino);
      TabledBy(ds, ts[i]);
      assert forall j :: 0 <= j < |slots| ==> Held(j, ts[j]);
    }

    /** Put on a slot that stands for table t. */
    method PutFile(ds: Dslot, ik: Islot, ghost t: Table)
      requires Valid() && ds in slots && ik !in repr && Tabled(ds, t) && ik.ino !in t.files
      requires ds.shape.Node? ==> Parted(ds.shape, ik.ino)
      requires Slots(ds.shape).Values <= repr
      modifies this`repr, ds`isl, ds`shape, ik`lln, ik`rln, Nodes(ds.shape)`lln, Nodes(ds.shape)`rln
      ensures Valid() && repr == old(repr) + {ik}
      ensures Tabled(ds, t.(files := t.files[ik.ino := InfoOf(ik)])) && Slots(ds.shape).Values <= repr
      ensures ik.ino in Slots(ds.shape) && Slots(ds.shape)[ik.ino] == ik
    {
      hide Rooting, Nodes, Slots, Parted, InfoOf, Valid, Tabled, Agree;
      ghost var m := Slots(ds.shape);
      TabledFile(ds, t, ik.ino);
      Put(ds, ik);
      OneMoreFile(ds, t, m, ik.ino, ik);
      OneMoreValue(m, ik.ino, ik);
    }

    /** Enter a file, right after a failed Lookup. */
    method Insert(ds: Dslot, ik: Islot, ghost i: nat, ghost ts: seq<Table>)
      requires Models(ts) && i < |slots| && slots[i] == ds && ik !in repr && ik.ino !in ts[i].files
      requires ds.shape.Node? ==> Parted(ds.shape, ik.ino)
      modifies repr, ik`lln, ik`rln
      ensures Models(ts[i := ts[i].(files := ts[i].files[ik.ino := InfoOf(ik)])]) && repr == old(repr) + {ik}
      ensures slots == old(slots)
      ensures ik.ino in Slots(ds.shape) && Slots(ds.shape)[ik.ino] == ik
    {
      hide Rooting, Nodes, Slots, Parted, InfoOf, Valid, Tabled;
      OtherSlots(i);
      SlotFacts(ts, i);
      assert Held(i, ts[i]);
      PutFile(ds, ik, ts[i]);
      ghost var us := ts[i := ts[i].(files := ts[i].files[ik.ino := InfoOf(ik)])];
      assert forall j :: 0 <= j < |slots| ==> Held(j, us[j]);
    }

    /** Take the next number of a slot. */
    method NextNumber(ds: Dslot, ghost i: nat, ghost ts: seq<Table>) returns (n: nat)
      requires Models(ts) && i < |slots| && slots[i] == ds
      modifies ds`cnt
      ensures Models(ts[i := ts[i].(cnt := ts[i].cnt + 1)]) && n == ts[i].cnt + 1
    {
      hide Rooting, Nodes, Slots, Agree;
      assert forall j :: 0 <= j < |slots| ==> Held(j, ts[j]);
      ds.cnt := ds.cnt + 1;
      n := ds.cnt;
      assert Chained() && Apart();
      ghost var us := ts[i := ts[i].(cnt := ts[i].cnt + 1)];
      assert forall j :: 0 <= j < |slots| ==> Held(j, us[j]);
    }

    /** Replace what a node says about its file. */
    method Store(ip: Islot, p: Info, ghost i: nat, ghost ts: seq<Table>)
      requires Models(ts) && i < |slots| && ip.ino in ts[i].files
      requires ip.ino in Slots(slots[i].shape) && ip == Slots(slots[i].shape)[ip.ino]
      modifies ip`fino, ip`nlk, ip`lnk, ip`st, ip`name
      ensures Models(ts[i := ts[i].(files := ts[i].files[ip.ino := p])])
    {
      hide Rooting, Nodes, Slots, Tabled, InfoOf;
      assert Held(i, ts[i]);
      forall j, k | 0 <= j < |slots| && k in Slots(slots[j].shape) && Slots(slots[j].shape)[k] == ip
        ensures j == i && k == ip.ino
      {
        OnlyPlace(ip, i, j, k);
      }
      ghost var us := ts[i := ts[i].(files := ts[i].files[ip.ino := p])];
      Tell(ip, p, slots[i], ts[i]);
      assert forall d :: d in slots ==> Rooting(d.isl, d.shape, nil);
      assert forall j :: 0 <= j < |slots| ==> Held(j, us[j]);
    }

    /** Write what is known about a file into its node. */
    method Tell(ip: Islot, p: Info, ghost d: Dslot, ghost t: Table)
      requires Tabled(d, t) && ip.ino in t.files
      requires forall k :: k in Slots(d.shape) ==> (Slots(d.shape)[k] == ip <==> k == ip.ino)
      modifies ip`fino, ip`nlk, ip`lnk, ip`st, ip`name
      ensures Tabled(d, t.(files := t.files[ip.ino := p]))
    {
      hide Slots;
      ip.fino, ip.nlk, ip.lnk, ip.st, ip.name := p.fino, p.nlk, p.lnk, p.st, p.name;
    }

    /** dfind: the first slot of the device, appended when there is none. */
    method Device(dev: nat, ghost ts: seq<Table>) returns (ds: Dslot)
      requires Models(ts)
      modifies this`devices, this`slots, this`repr, slots`nxt
      ensures Models(WithDev(ts, dev)) && fresh(repr - old(repr)) && old(repr) <= repr
      ensures ds == slots[DevFrom(ts, dev, 0)]
    {
      hide *;
      FirstSlot(ts, dev, 0);
      SlotFacts(ts, 0);
      var d, dp, i := Seek(devices, null, 0, dev, ts);
      if d != null {
        ds := d;
      } else {
        ds := Append(dp, dev, 0, ts);
      }
    }

    /** What Known and Entered say, by the first slot of the device. */
    lemma FirstSlot(ts: seq<Table>, dev: nat, ino: nat)
      ensures var i, us := DevFrom(ts, dev, 0), WithDev(ts, dev);
        && i < |us| && us[i].dev == dev && us == (if i < |ts| then ts else ts + [Table(dev, 0, 0, map[])])
        && Known(ts, dev, ino) == (if ino in us[i].files then Some(us[i].files[ino]) else None)
        && forall p :: Entered(ts, dev, ino, p) == us[i := us[i].(files := us[i].files[ino := p])]
    {
    }

    lemma Describe(ip: Islot?)
      ensures ip != null ==> InfoOf(ip) == Info(ip.fino, ip.nlk, ip.lnk, ip.st, ip.name)
    {
    }

    /** canlink of cp: the path to link to when the file was met before;
        otherwise its path is remembered. */
    method Canlink(path: string, dev: nat, ino: nat, ghost ts: seq<Table>)
      returns (target: Option<string>, ghost us: seq<Table>)
      requires Models(ts)
      modifies repr
      ensures Models(us) && fresh(repr - old(repr))
      ensures var known := Known(ts, dev, ino);
        if known.Some? then target == Some(known.value.name) && us == WithDev(ts, dev)
        else target == None && us == Entered(ts, dev, ino, Info(0, 0, [], None, path))
    {
      hide *;
      FirstSlot(ts, dev, ino);
      SlotFacts(ts, 0);
      var ds := Device(dev, ts);
      us := WithDev(ts, dev);
      ghost var i := DevFrom(ts, dev, 0);
      SlotFacts(us, i);
      var ip := Lookup(ds, ino, i, us);
      Describe(ip);
      if ip == null {
        ip := new Islot(ino);
        ip.name := path;
        Describe(ip);
        Insert(ds, ip, i, us);
        us := us[i := us[i].(files := us[i].files[ino := InfoOf(ip)])];
        target := None;
      } else {
        target := Some(ip.name);
      }
    }

    /** A whole run of cp over files with several links: each is linked to
        the first path seen for its device and inode, if there is one. */
    method LinkAll(files: seq<File>) returns (targets: seq<Option<string>>)
      requires Models([])
      modifies repr
      ensures |targets| == |files|
      ensures forall i :: 0 <= i < |files| ==> targets[i] == FirstPath(files[..i], files[i].dev, files[i].ino)
    {
      hide Models, Entered, WithDev, Known, FirstPath, Remembers;
      ghost var ts: seq<Table> := [];
      targets := [];
      NothingRemembered(files);
      for i := 0 to |files|
        invariant Models(ts) && fresh(repr - old(repr)) && |targets| == i
        invariant Remembers(ts, files[..i])
        invariant forall j :: 0 <= j < i ==> targets[j] == FirstPath(files[..j], files[j].dev, files[j].ino)
      {
        var f := files[i];
        RememberStep(ts, files, i);
        var target;
        target, ts := Canlink(f.path, f.dev, f.ino, ts);
        targets := targets + [target];
      }
    }
  }

  datatype File = File(path: string, dev: nat, ino: nat)

  /** The path of the first file with this device and inode. */
  ghost function FirstPath(files: seq<File>, dev: nat, ino: nat): Option<string> {
    if files == [] then None
    else
      var n := |files| - 1;
      var earlier := FirstPath(files[..n], dev, ino);
      if earlier.Some? then earlier
      else if files[n].dev == dev && files[n].ino == ino then Some(files[n].path)
      else None
  }

  ghost predicate SameFile(f: File, dev: nat, ino: nat) {
    f.dev == dev && f.ino == ino
  }

  /** There is one exactly when the file occurs, and it is the path of its first
      occurrence. */
  lemma {:induction false} FirstPathIs(files: seq<File>, dev: nat, ino: nat)
    ensures FirstPath(files, dev, ino).None? <==> forall i :: 0 <= i < |files| ==> !SameFile(files[i], dev, ino)
    ensures forall i :: 0 <= i < |files| && SameFile(files[i], dev, ino) &&
                        (forall j :: 0 <= j < i ==> !SameFile(files[j], dev, ino)) ==>
              FirstPath(files, dev, ino) == Some(files[i].path)
  {
    if files != [] {
      var n := |files| - 1;
      FirstPathIs(files[..n], dev, ino);
      assert forall i :: 0 <= i < n ==> files[..n][i] == files[i];
    }
  }

  ghost function NameOf(p: Option<Info>): Option<string> {
    if p.Some? then Some(p.value.name) else None
  }

  /** The tables know exactly the files met so far, by their first paths. */
  ghost predicate Remembers(ts: seq<Table>, files: seq<File>) {
    forall dev, ino :: NameOf(Known(ts, dev, ino)) == FirstPath(files, dev, ino)
  }

  lemma NothingRemembered(files: seq<File>)
    ensures Remembers([], files[..0])
  {
  }

  lemma RememberStep(ts: seq<Table>, files: seq<File>, i: nat)
    requires i < |files| && Remembers(ts, files[..i])
    ensures var f := files[i]; var known := Known(ts, f.dev, f.ino);
      NameOf(known) == FirstPath(files[..i], f.dev, f.ino) &&
      Remembers(if known.Some? then WithDev(ts, f.dev)
                else Entered(ts, f.dev, f.ino, Info(0, 0, [], None, f.path)), files[..i + 1])
  {
    var f := files[i];
    var p := Info(0, 0, [], None, f.path);
    assert files[..i + 1][..i] == files[..i];
    assert NameOf(Known(ts, f.dev, f.ino)) == FirstPath(files[..i], f.dev, f.ino);
    forall dev, ino
      ensures NameOf(Known(WithDev(ts, f.dev), dev, ino)) == FirstPath(files[..i], dev, ino)
      ensures NameOf(Known(Entered(ts, f.dev, f.ino, p), dev, ino)) ==
              if dev == f.dev && ino == f.ino then Some(f.path) else FirstPath(files[..i], dev, ino)
    {
      KnownEntered(ts, f.dev, f.ino, p, dev, ino);
      assert NameOf(Known(ts, dev, ino)) == FirstPath(files[..i], dev, ino);
    }
  }
}
