/**
 The inode index of cpio and cp: a top-down splay tree on mutable nodes that
 share one sentinel.  Everything the heap does is described by an immutable
 tree value; the methods say how that value changes.
 */
module SplayTree {
  import opened Basics

  /** A tree node.  The fake number, link count, collected names, file status
      and first name belong to the hard-link code; the tree operations never
      touch them. */
  class Islot {
    var lln: Islot?
    var rln: Islot?
    var ino: nat
    var fino: nat
    var nlk: nat
    var lnk: seq<string>
    var st: Option<Stat>
    var name: string

    constructor (ino: nat)
      ensures this.ino == ino && fino == 0 && nlk == 0 && lnk == [] && st == None && name == ""
    {
      this.ino := ino;
      lln, rln := null, null;
      fino, nlk, lnk, st, name := 0, 0, [], None, "";
    }
  }

  /** The shape of a tree, with the node objects and their keys. */
  datatype Tree = Leaf | Node(left: Tree, slot: Islot, key: nat, right: Tree)

  datatype Keyed = Keyed(slot: Islot, key: nat)

  ghost function Nodes(t: Tree): set<Islot> {
    match t
    case Leaf => {}
    case Node(l, n, _, r) => Nodes(l) + {n} + Nodes(r)
  }

  ghost function Keys(t: Tree): set<nat> {
    match t
    case Leaf => {}
    case Node(l, _, k, r) => Keys(l) + {k} + Keys(r)
  }

  ghost function InOrder(t: Tree): seq<Keyed> {
    match t
    case Leaf => []
    case Node(l, n, k, r) => InOrder(l) + [Keyed(n, k)] + InOrder(r)
  }

  ghost function Size(t: Tree): nat {
    match t
    case Leaf => 0
    case Node(l, _, _, r) => Size(l) + 1 + Size(r)
  }

  /** No node occurs twice. */
  ghost predicate Separate(t: Tree) {
    match t
    case Leaf => true
    case Node(l, n, _, r) =>
      Separate(l) && Separate(r) && n !in Nodes(l) && n !in Nodes(r) && Nodes(l) !! Nodes(r)
  }

  ghost predicate Below(t: Tree, k: nat) {
    forall j :: j in Keys(t) ==> j < k
  }

  ghost predicate Above(t: Tree, k: nat) {
    forall j :: j in Keys(t) ==> k < j
  }

  /** The search-tree order. */
  ghost predicate Ordered(t: Tree) {
    match t
    case Leaf => true
    case Node(l, _, k, r) => Ordered(l) && Ordered(r) && Below(l, k) && Above(r, k)
  }

  ghost predicate Increasing(es: seq<Keyed>) {
    forall i, j :: 0 <= i < j < |es| ==> es[i].key < es[j].key
  }

  /** x heads a heap structure of shape t whose empty subtrees are nil. */
  ghost predicate IsTree(x: Islot?, t: Tree, nil: Islot)
    reads Nodes(t)`lln, Nodes(t)`rln, Nodes(t)`ino
  {
    match t
    case Leaf => x == nil
    case Node(l, n, k, r) =>
      x == n && n != nil && n.ino == k && IsTree(n.lln, l, nil) && IsTree(n.rln, r, nil)
  }

  ghost predicate Wf(x: Islot?, t: Tree, nil: Islot)
    reads Nodes(t)`lln, Nodes(t)`rln, Nodes(t)`ino
  {
    IsTree(x, t, nil) && Separate(t) && Ordered(t) && nil !in Nodes(t)
  }

  // ---- order of the tree and order of its in-order list ----

  lemma {:induction false} EntryOf(t: Tree, i: nat)
    requires i < |InOrder(t)|
    ensures InOrder(t)[i].key in Keys(t) && InOrder(t)[i].slot in Nodes(t)
  {
    match t
    case Node(l, n, k, r) =>
      var m := |InOrder(l)|;
      if i < m {
        EntryOf(l, i);
      } else if m < i {
        EntryOf(r, i - m - 1);
      }
  }

  lemma {:induction false} IndexOf(t: Tree, k: nat) returns (i: nat)
    requires k in Keys(t)
    ensures i < |InOrder(t)| && InOrder(t)[i].key == k
  {
    match t
    case Node(l, n, key, r) =>
      if k in Keys(l) {
        i := IndexOf(l, k);
      } else if k == key {
        i := |InOrder(l)|;
      } else {
        i := IndexOf(r, k);
        i := i + |InOrder(l)| + 1;
      }
  }

  lemma {:induction false} OrderedIncreases(t: Tree)
    requires Ordered(t)
    ensures Increasing(InOrder(t))
  {
    match t
    case Leaf =>
    case Node(l, n, k, r) =>
      OrderedIncreases(l);
      OrderedIncreases(r);
      var a, b := InOrder(l), InOrder(r);
      forall i | 0 <= i < |a| ensures a[i].key < k { EntryOf(l, i); }
      forall i | 0 <= i < |b| ensures k < b[i].key { EntryOf(r, i); }
  }

  lemma IncreasingParts(a: seq<Keyed>, e: Keyed, b: seq<Keyed>)
    requires Increasing(a + [e] + b)
    ensures Increasing(a) && Increasing(b)
    ensures forall i :: 0 <= i < |a| ==> a[i].key < e.key
    ensures forall i :: 0 <= i < |b| ==> e.key < b[i].key
  {
    var es := a + [e] + b;
    assert es[|a|] == e;
    assert forall i :: 0 <= i < |a| ==> a[i] == es[i];
    assert forall i :: 0 <= i < |b| ==> b[i] == es[|a| + 1 + i];
  }

  lemma {:induction false} IncreasingOrders(t: Tree)
    requires Increasing(InOrder(t))
    ensures Ordered(t)
  {
    match t
    case Leaf =>
    case Node(l, n, k, r) =>
      var a, b := InOrder(l), InOrder(r);
      IncreasingParts(a, Keyed(n, k), b);
      IncreasingOrders(l);
      IncreasingOrders(r);
      forall j | j in Keys(l) ensures j < k { var i := IndexOf(l, j); }
      forall j | j in Keys(r) ensures k < j { var i := IndexOf(r, j); }
  }

  lemma {:induction false} PlaceOf(t: Tree, n: Islot) returns (i: nat)
    requires n in Nodes(t)
    ensures i < |InOrder(t)| && InOrder(t)[i].slot == n
  {
    match t
    case Node(l, slot, key, r) =>
      if n in Nodes(l) {
        i := PlaceOf(l, n);
      } else if n == slot {
        i := |InOrder(l)|;
      } else {
        i := PlaceOf(r, n);
        i := i + |InOrder(l)| + 1;
      }
  }

  /** The in-order list decides the node set, the key set and the order. */
  lemma {:induction false} SameOrder(t: Tree, u: Tree)
    requires InOrder(t) == InOrder(u) && Ordered(t)
    ensures Nodes(t) == Nodes(u) && Keys(t) == Keys(u) && Ordered(u)
  {
    OrderedIncreases(t);
    IncreasingOrders(u);
    forall n | n in Nodes(t) ensures n in Nodes(u) { var i := PlaceOf(t, n); EntryOf(u, i); }
    forall n | n in Nodes(u) ensures n in Nodes(t) { var i := PlaceOf(u, n); EntryOf(t, i); }
    forall k | k in Keys(t) ensures k in Keys(u) { var i := IndexOf(t, k); EntryOf(u, i); }
    forall k | k in Keys(u) ensures k in Keys(t) { var i := IndexOf(u, k); EntryOf(t, i); }
  }

  /** Distinct keys keep the subtrees apart. */
  lemma {:induction false} KeysOfNodes(x: Islot?, t: Tree, nil: Islot)
    requires IsTree(x, t, nil)
    ensures forall n :: n in Nodes(t) ==> n.ino in Keys(t)
  {
    match t
    case Leaf =>
    case Node(l, n, k, r) =>
      KeysOfNodes(n.lln, l, nil);
      KeysOfNodes(n.rln, r, nil);
  }

  lemma {:induction false} OrderedApart(x: Islot?, t: Tree, nil: Islot)
    requires IsTree(x, t, nil) && Ordered(t)
    ensures Separate(t)
  {
    match t
    case Leaf =>
    case Node(l, n, k, r) =>
      OrderedApart(n.lln, l, nil);
      OrderedApart(n.rln, r, nil);
      KeysOfNodes(n.lln, l, nil);
      KeysOfNodes(n.rln, r, nil);
  }

  // ---- partial trees under construction ----

  /** The left tree of a top-down splay: nodes linked so far through their
      right links, each with its finished left subtree; the last one's right
      link is still open.  The right tree is the mirror image. */
  datatype Spine = Top | Hung(up: Spine, sub: Tree, slot: Islot, key: nat)

  ghost function SpineNodes(s: Spine): set<Islot> {
    match s
    case Top => {}
    case Hung(u, t, n, _) => SpineNodes(u) + Nodes(t) + {n}
  }

  ghost function SpineKeys(s: Spine): set<nat> {
    match s
    case Top => {}
    case Hung(u, t, _, k) => SpineKeys(u) + Keys(t) + {k}
  }

  /** The node whose link is open. */
  ghost function Open(s: Spine, hdr: Islot): (r: Islot)
    ensures if s.Top? then r == hdr else r in SpineNodes(s)
  {
    if s.Top? then hdr else s.slot
  }

  ghost function PlugLeft(s: Spine, m: Tree): Tree {
    match s
    case Top => m
    case Hung(u, t, n, k) => PlugLeft(u, Node(t, n, k, m))
  }

  ghost function PlugRight(s: Spine, m: Tree): Tree {
    match s
    case Top => m
    case Hung(u, t, n, k) => PlugRight(u, Node(m, n, k, t))
  }

  ghost function LeftOrder(s: Spine): seq<Keyed> {
    match s
    case Top => []
    case Hung(u, t, n, k) => LeftOrder(u) + (InOrder(t) + [Keyed(n, k)])
  }

  ghost function RightOrder(s: Spine): seq<Keyed> {
    match s
    case Top => []
    case Hung(u, t, n, k) => [Keyed(n, k)] + InOrder(t) + RightOrder(u)
  }

  /** first is where the header's link leads. */
  ghost predicate IsLeftSpine(first: Islot?, s: Spine, nil: Islot)
    reads SpineNodes(s)
  {
    match s
    case Top => true
    case Hung(u, t, n, k) =>
      && n != nil && n.ino == k && IsTree(n.lln, t, nil)
      && (if u.Top? then first else u.slot.rln) == n
      && n !in SpineNodes(u) + Nodes(t) && Nodes(t) !! SpineNodes(u) && IsLeftSpine(first, u, nil)
  }

  ghost predicate IsRightSpine(first: Islot?, s: Spine, nil: Islot)
    reads SpineNodes(s)
  {
    match s
    case Top => true
    case Hung(u, t, n, k) =>
      && n != nil && n.ino == k && IsTree(n.rln, t, nil)
      && (if u.Top? then first else u.slot.lln) == n
      && n !in SpineNodes(u) + Nodes(t) && Nodes(t) !! SpineNodes(u) && IsRightSpine(first, u, nil)
  }

  lemma {:induction false} PlugLeftOrder(s: Spine, m: Tree)
    ensures InOrder(PlugLeft(s, m)) == LeftOrder(s) + InOrder(m)
  {
    match s
    case Top =>
    case Hung(u, t, n, k) =>
      PlugLeftOrder(u, Node(t, n, k, m));
  }

  lemma {:induction false} PlugLeftNodes(s: Spine, m: Tree)
    ensures Nodes(PlugLeft(s, m)) == SpineNodes(s) + Nodes(m)
  {
    match s
    case Top =>
    case Hung(u, t, n, k) =>
      PlugLeftNodes(u, Node(t, n, k, m));
  }

  lemma {:induction false} PlugLeftKeys(s: Spine, m: Tree)
    ensures Keys(PlugLeft(s, m)) == SpineKeys(s) + Keys(m)
  {
    match s
    case Top =>
    case Hung(u, t, n, k) =>
      PlugLeftKeys(u, Node(t, n, k, m));
  }

  lemma {:induction false} PlugLeftShape(s: Spine, m: Tree)
    ensures InOrder(PlugLeft(s, m)) == LeftOrder(s) + InOrder(m)
    ensures Nodes(PlugLeft(s, m)) == SpineNodes(s) + Nodes(m)
    ensures Keys(PlugLeft(s, m)) == SpineKeys(s) + Keys(m)
  {
    hide *;
    PlugLeftOrder(s, m);
    PlugLeftNodes(s, m);
    PlugLeftKeys(s, m);
  }

  lemma {:induction false} PlugRightOrder(s: Spine, m: Tree)
    ensures InOrder(PlugRight(s, m)) == InOrder(m) + RightOrder(s)
  {
    match s
    case Top =>
    case Hung(u, t, n, k) =>
      PlugRightOrder(u, Node(m, n, k, t));
  }

  lemma {:induction false} PlugRightNodes(s: Spine, m: Tree)
    ensures Nodes(PlugRight(s, m)) == SpineNodes(s) + Nodes(m)
  {
    match s
    case Top =>
    case Hung(u, t, n, k) =>
      PlugRightNodes(u, Node(m, n, k, t));
  }

  lemma {:induction false} PlugRightKeys(s: Spine, m: Tree)
    ensures Keys(PlugRight(s, m)) == SpineKeys(s) + Keys(m)
  {
    match s
    case Top =>
    case Hung(u, t, n, k) =>
      PlugRightKeys(u, Node(m, n, k, t));
  }

  lemma {:induction false} PlugRightShape(s: Spine, m: Tree)
    ensures InOrder(PlugRight(s, m)) == InOrder(m) + RightOrder(s)
    ensures Nodes(PlugRight(s, m)) == SpineNodes(s) + Nodes(m)
    ensures Keys(PlugRight(s, m)) == SpineKeys(s) + Keys(m)
  {
    hide *;
    PlugRightOrder(s, m);
    PlugRightNodes(s, m);
    PlugRightKeys(s, m);
  }

  /** Closing the open link turns the spine into a tree under the header. */
  lemma {:induction false} CloseLeft(first: Islot?, s: Spine, m: Tree, nil: Islot)
    requires IsLeftSpine(first, s, nil) && IsTree(if s.Top? then first else s.slot.rln, m, nil)
    ensures IsTree(first, PlugLeft(s, m), nil)
  {
    match s
    case Top =>
    case Hung(u, t, n, k) =>
      CloseLeft(first, u, Node(t, n, k, m), nil);
  }

  lemma {:induction false} CloseRight(first: Islot?, s: Spine, m: Tree, nil: Islot)
    requires IsRightSpine(first, s, nil) && IsTree(if s.Top? then first else s.slot.lln, m, nil)
    ensures IsTree(first, PlugRight(s, m), nil)
  {
    match s
    case Top =>
    case Hung(u, t, n, k) =>
      CloseRight(first, u, Node(m, n, k, t), nil);
  }

  // ---- the splay ----

  /** The root holds the key, or everything on the key's side of the root is
      on the far side of the key. */
  ghost predicate Parted(t: Tree, ino: nat) {
    t.Node? && (t.key < ino ==> Above(t.right, ino)) && (ino < t.key ==> Below(t.left, ino))
  }

  /** What one descent keeps: two spines and the remaining tree, made of
      exactly the nodes of t0 in the order of t0, with ino between them. */
  ghost predicate Descending(ls: Spine, t: Tree, rs: Spine, ino: nat, t0: Tree) {
    && t.Node? && Separate(t) && Ordered(t)
    && SpineNodes(ls) !! SpineNodes(rs) && Nodes(t) !! SpineNodes(ls) && Nodes(t) !! SpineNodes(rs)
    && SpineNodes(ls) + Nodes(t) + SpineNodes(rs) <= Nodes(t0)
    && InOrder(t0) == LeftOrder(ls) + InOrder(t) + RightOrder(rs)
    && (forall k :: k in SpineKeys(ls) ==> k < ino)
    && (forall k :: k in SpineKeys(rs) ==> ino < k)
  }

  ghost function RotatedRight(t: Tree): Tree
    requires t.Node? && t.left.Node?
  {
    Node(t.left.left, t.left.slot, t.left.key, Node(t.left.right, t.slot, t.key, t.right))
  }

  ghost function RotatedLeft(t: Tree): Tree
    requires t.Node? && t.right.Node?
  {
    Node(Node(t.left, t.slot, t.key, t.right.left), t.right.slot, t.right.key, t.right.right)
  }

  lemma {:induction false} RotateRightOrder(t: Tree)
    requires t.Node? && t.left.Node?
    ensures InOrder(RotatedRight(t)) == InOrder(t) && Size(RotatedRight(t)) == Size(t)
  {
  }

  lemma {:induction false} RotateRightShape(t: Tree)
    requires Separate(t) && Ordered(t) && t.Node? && t.left.Node?
    ensures var u := RotatedRight(t);
      Separate(u) && Ordered(u) && Nodes(u) == Nodes(t) && Keys(u) == Keys(t) &&
      InOrder(u) == InOrder(t) && Size(u) == Size(t)
  {
    hide *;
    RotateRightOrder(t);
    SameOrder(t, RotatedRight(t));
    RotateRightApart(t);
  }

  lemma {:induction false} RotateRightApart(t: Tree)
    requires Separate(t) && t.Node? && t.left.Node?
    ensures Separate(RotatedRight(t))
  {
    var s, u := t.left, RotatedRight(t);
    AtRoot(t);
    AtRoot(s);
    AtRoot(u.right);
    SeparateRoot(u);
    SeparateRoot(u.right);
    hide Nodes, Separate;
  }

  lemma {:induction false} SeparateRoot(t: Tree)
    requires t.Node?
    ensures Separate(t) <==> Separate(t.left) && Separate(t.right) && t.slot !in Nodes(t.left) && t.slot !in Nodes(t.right) &&
                             Nodes(t.left) !! Nodes(t.right)
  {
  }

  lemma {:induction false} RotateLeftOrder(t: Tree)
    requires t.Node? && t.right.Node?
    ensures InOrder(RotatedLeft(t)) == InOrder(t) && Size(RotatedLeft(t)) == Size(t)
  {
  }

  lemma {:induction false} RotateLeftShape(t: Tree)
    requires Separate(t) && Ordered(t) && t.Node? && t.right.Node?
    ensures var u := RotatedLeft(t);
      Separate(u) && Ordered(u) && Nodes(u) == Nodes(t) && Keys(u) == Keys(t) &&
      InOrder(u) == InOrder(t) && Size(u) == Size(t)
  {
    hide *;
    RotateLeftOrder(t);
    SameOrder(t, RotatedLeft(t));
    RotateLeftApart(t);
  }

  lemma {:induction false} RotateLeftApart(t: Tree)
    requires Separate(t) && t.Node? && t.right.Node?
    ensures Separate(RotatedLeft(t))
  {
    var s, u := t.right, RotatedLeft(t);
    AtRoot(t);
    AtRoot(s);
    AtRoot(u.left);
    SeparateRoot(u);
    SeparateRoot(u.left);
    hide Nodes, Separate;
  }

  lemma {:induction false} RotationDescends(ls: Spine, t: Tree, rs: Spine, ino: nat, t0: Tree, u: Tree)
    requires Descending(ls, t, rs, ino, t0)
    requires (t.left.Node? && u == RotatedRight(t)) || (t.right.Node? && u == RotatedLeft(t))
    ensures Descending(ls, u, rs, ino, t0) && Nodes(u) == Nodes(t) && Size(u) == Size(t)
  {
    if t.left.Node? && u == RotatedRight(t) {
      RotateRightShape(t);
    } else {
      RotateLeftShape(t);
    }
  }

  lemma {:induction false} Start(x: Islot, nil: Islot, ino: nat, t: Tree)
    requires Wf(x, t, nil) && t.Node?
    ensures Descending(Top, t, Top, ino, t)
    ensures IsTree(x, t, nil) && nil !in Nodes(t) && Ordered(t)
    ensures IsLeftSpine(nil, Top, nil) && IsRightSpine(nil, Top, nil) && SpineNodes(Top) == {}
    ensures forall hdr :: Open(Top, hdr) == hdr
  {
  }

  /** What a descent says about the node under inspection. */
  lemma {:induction false} Inspect(ls: Spine, x: Islot, t: Tree, rs: Spine, nil: Islot, ino: nat, t0: Tree)
    requires Descending(ls, t, rs, ino, t0) && IsTree(x, t, nil) && nil !in Nodes(t0)
    ensures x == t.slot && x.ino == t.key && x != nil && x in Nodes(t)
    ensures IsTree(x.lln, t.left, nil) && IsTree(x.rln, t.right, nil)
    ensures x.lln != null && x.rln != null
    ensures if t.left.Leaf? then x.lln == nil else x.lln == t.left.slot != nil && t.left.slot in Nodes(t)
    ensures if t.right.Leaf? then x.rln == nil else x.rln == t.right.slot != nil && t.right.slot in Nodes(t)
    ensures t.left.Node? ==> t.left.slot.ino == t.left.key
    ensures t.right.Node? ==> t.right.slot.ino == t.right.key
    ensures Wf(x, t, nil) && t.Node?
    ensures SpineNodes(ls) !! SpineNodes(rs) !! Nodes(t)
    ensures SpineNodes(ls) + Nodes(t) + SpineNodes(rs) <= Nodes(t0)
    ensures Nodes(t.left) !! Nodes(t.right) !! {x}
    ensures Nodes(t) == Nodes(t.left) + {x} + Nodes(t.right) && Separate(t.left) && Separate(t.right)
    ensures SpineNodes(Hung(ls, t.left, t.slot, t.key)) <= Nodes(t0)
    ensures SpineNodes(Hung(rs, t.right, t.slot, t.key)) <= Nodes(t0)
    ensures Size(t.left) < Size(t) && Size(t.right) < Size(t)
  {
  }

  lemma Regroup<T>(a: seq<T>, l: seq<T>, m: seq<T>, r: seq<T>, b: seq<T>)
    ensures a + (l + m + r) + b == a + l + (m + r + b)
    ensures a + (l + m + r) + b == (a + (l + m)) + r + b
    ensures a + (l + m + r) + b == (a + l) + m + (r + b)
  {
  }

  /** A tree at its root. */
  lemma {:induction false} AtRoot(t: Tree)
    requires t.Node?
    ensures InOrder(t) == InOrder(t.left) + [Keyed(t.slot, t.key)] + InOrder(t.right)
    ensures Nodes(t) == Nodes(t.left) + {t.slot} + Nodes(t.right) && Keys(t) == Keys(t.left) + {t.key} + Keys(t.right)
    ensures Separate(t) ==> Separate(t.left) && Separate(t.right) && t.slot !in Nodes(t.left) && t.slot !in Nodes(t.right) &&
                            Nodes(t.left) !! Nodes(t.right)
    ensures Ordered(t) <==> Ordered(t.left) && Ordered(t.right) && Below(t.left, t.key) && Above(t.right, t.key)
  {
  }

  /** A spine at its lower end. */
  lemma {:induction false} AtEnd(s: Spine, t: Tree, n: Islot, k: nat)
    ensures var u := Hung(s, t, n, k);
      && SpineNodes(u) == SpineNodes(s) + Nodes(t) + {n} && SpineKeys(u) == SpineKeys(s) + Keys(t) + {k}
      && LeftOrder(u) == LeftOrder(s) + (InOrder(t) + [Keyed(n, k)])
      && RightOrder(u) == [Keyed(n, k)] + InOrder(t) + RightOrder(s)
  {
  }

  lemma {:induction false} HangRight(ls: Spine, t: Tree, rs: Spine, ino: nat, t0: Tree)
    requires Descending(ls, t, rs, ino, t0) && ino < t.key && t.left.Node?
    ensures Descending(ls, t.left, Hung(rs, t.right, t.slot, t.key), ino, t0)
  {
    hide Nodes, Keys, InOrder, Ordered, Separate, SpineNodes, SpineKeys, LeftOrder, RightOrder;
    AtRoot(t);
    AtEnd(rs, t.right, t.slot, t.key);
    Regroup(LeftOrder(ls), InOrder(t.left), [Keyed(t.slot, t.key)], InOrder(t.right), RightOrder(rs));
  }

  lemma {:induction false} HangLeft(ls: Spine, t: Tree, rs: Spine, ino: nat, t0: Tree)
    requires Descending(ls, t, rs, ino, t0) && t.key < ino && t.right.Node?
    ensures Descending(Hung(ls, t.left, t.slot, t.key), t.right, rs, ino, t0)
  {
    hide Nodes, Keys, InOrder, Ordered, Separate, SpineNodes, SpineKeys, LeftOrder, RightOrder;
    AtRoot(t);
    AtEnd(ls, t.left, t.slot, t.key);
    Regroup(LeftOrder(ls), InOrder(t.left), [Keyed(t.slot, t.key)], InOrder(t.right), RightOrder(rs));
  }

  ghost function Assembled(ls: Spine, t: Tree, rs: Spine): Tree
    requires t.Node?
  {
    Node(PlugLeft(ls, t.left), t.slot, t.key, PlugRight(rs, t.right))
  }

  lemma {:induction false} Assemble(ls: Spine, t: Tree, rs: Spine, ino: nat, t0: Tree)
    requires Descending(ls, t, rs, ino, t0) && Ordered(t0)
    requires t.key < ino ==> t.right.Leaf?
    requires ino < t.key ==> t.left.Leaf?
    ensures var u := Assembled(ls, t, rs);
      Ordered(u) && Parted(u, ino) &&
      InOrder(u) == InOrder(t0) && Nodes(u) == Nodes(t0) && Keys(u) == Keys(t0)
  {
    hide Nodes, Keys, InOrder, Ordered, Separate, SpineNodes, SpineKeys, LeftOrder, RightOrder, PlugLeft, PlugRight;
    var u := Assembled(ls, t, rs);
    AtRoot(t);
    AtRoot(u);
    LeafKeys(t.left);
    LeafKeys(t.right);
    PlugLeftShape(ls, t.left);
    PlugRightShape(rs, t.right);
    Regroup(LeftOrder(ls), InOrder(t.left), [Keyed(t.slot, t.key)], InOrder(t.right), RightOrder(rs));
    SameOrder(t0, u);
  }

  lemma LeafKeys(t: Tree)
    ensures t.Leaf? ==> Keys(t) == {}
  {
  }

  lemma {:induction false} Rooted(x: Islot, nil: Islot, ls: Spine, t: Tree, rs: Spine)
    requires t.Node? && x == t.slot && x != nil && x.ino == t.key
    requires nil !in Nodes(Assembled(ls, t, rs)) && Ordered(Assembled(ls, t, rs))
    requires IsTree(x.lln, PlugLeft(ls, t.left), nil) && IsTree(x.rln, PlugRight(rs, t.right), nil)
    ensures Wf(x, Assembled(ls, t, rs), nil)
  {
    OrderedApart(x, Assembled(ls, t, rs), nil);
  }

  /** A descent on the heap. */
  ghost predicate Splaying(hdr: Islot, ls: Spine, x: Islot, t: Tree, rs: Spine, nil: Islot, ino: nat, t0: Tree)
    reads hdr, Nodes(t), SpineNodes(ls), SpineNodes(rs)
  {
    && Descending(ls, t, rs, ino, t0) && hdr !in Nodes(t0) && nil !in Nodes(t0)
    && IsTree(x, t, nil) && IsLeftSpine(hdr.rln, ls, nil) && IsRightSpine(hdr.lln, rs, nil)
  }

  method TurnRight(x: Islot, nil: Islot, ghost t: Tree) returns (y: Islot)
    requires IsTree(x, t, nil) && Separate(t) && t.Node? && t.left.Node?
    modifies x`lln, t.left.slot`rln
    ensures IsTree(y, RotatedRight(t), nil)
  {
    hide Nodes, Separate;
    AtRoot(t);
    AtRoot(t.left);
    y := x.lln;
    x.lln := y.rln;
    y.rln := x;
    assert IsTree(y.rln, RotatedRight(t).right, nil);
  }

  method TurnLeft(x: Islot, nil: Islot, ghost t: Tree) returns (y: Islot)
    requires IsTree(x, t, nil) && Separate(t) && t.Node? && t.right.Node?
    modifies x`rln, t.right.slot`lln
    ensures IsTree(y, RotatedLeft(t), nil)
  {
    hide Nodes, Separate;
    AtRoot(t);
    AtRoot(t.right);
    y := x.rln;
    x.rln := y.lln;
    y.lln := x;
    assert IsTree(y.lln, RotatedLeft(t).left, nil);
  }

  method RotateRight(hdr: Islot, x: Islot, nil: Islot, ino: nat,
                     ghost ls: Spine, ghost t: Tree, ghost rs: Spine, ghost t0: Tree)
    returns (y: Islot)
    requires Splaying(hdr, ls, x, t, rs, nil, ino, t0) && t.left.Node?
    modifies x`lln, t.left.slot`rln
    ensures Splaying(hdr, ls, y, RotatedRight(t), rs, nil, ino, t0)
    ensures Size(RotatedRight(t)) == Size(t) && RotatedRight(t).key == t.left.key
  {
    hide InOrder, LeftOrder, RightOrder, Ordered, Keys, SpineKeys, Size, Descending, SpineNodes, IsLeftSpine, IsRightSpine,
         Wf, Open, Nodes, IsTree, Separate;
    Inspect(ls, x, t, rs, nil, ino, t0);
    AtRoot(t);
    AtRoot(t.left);
    ghost var ns :| ns == SpineNodes(ls) + SpineNodes(rs);
    assert RotatedRight(t).key == t.left.key;
    y := TurnRight(x, nil, t);
    RotationDescends(ls, t, rs, ino, t0, RotatedRight(t));
  }

  method RotateLeft(hdr: Islot, x: Islot, nil: Islot, ino: nat,
                    ghost ls: Spine, ghost t: Tree, ghost rs: Spine, ghost t0: Tree)
    returns (y: Islot)
    requires Splaying(hdr, ls, x, t, rs, nil, ino, t0) && t.right.Node?
    modifies x`rln, t.right.slot`lln
    ensures Splaying(hdr, ls, y, RotatedLeft(t), rs, nil, ino, t0)
    ensures Size(RotatedLeft(t)) == Size(t) && RotatedLeft(t).key == t.right.key
  {
    hide InOrder, LeftOrder, RightOrder, Ordered, Keys, SpineKeys, Size, Descending, SpineNodes, IsLeftSpine, IsRightSpine,
         Wf, Open, Nodes, IsTree, Separate;
    Inspect(ls, x, t, rs, nil, ino, t0);
    AtRoot(t);
    AtRoot(t.right);
    ghost var ns :| ns == SpineNodes(ls) + SpineNodes(rs);
    assert RotatedLeft(t).key == t.right.key;
    y := TurnLeft(x, nil, t);
    RotationDescends(ls, t, rs, ino, t0, RotatedLeft(t));
  }

  method ExtendRight(hdr: Islot, rightmin: Islot, x: Islot, nil: Islot, ghost rs: Spine, ghost u: Tree)
    requires IsRightSpine(hdr.lln, rs, nil) && rightmin == Open(rs, hdr) && x != nil && IsTree(x.rln, u, nil)
    requires x !in SpineNodes(rs) + Nodes(u) && Nodes(u) !! SpineNodes(rs) && hdr !in SpineNodes(rs) + Nodes(u) && hdr != x
    modifies rightmin`lln
    ensures IsRightSpine(hdr.lln, Hung(rs, u, x, x.ino), nil)
  {
    hide Nodes;
    rightmin.lln := x;
  }

  method ExtendLeft(hdr: Islot, leftmax: Islot, x: Islot, nil: Islot, ghost ls: Spine, ghost u: Tree)
    requires IsLeftSpine(hdr.rln, ls, nil) && leftmax == Open(ls, hdr) && x != nil && IsTree(x.lln, u, nil)
    requires x !in SpineNodes(ls) + Nodes(u) && Nodes(u) !! SpineNodes(ls) && hdr !in SpineNodes(ls) + Nodes(u) && hdr != x
    modifies leftmax`rln
    ensures IsLeftSpine(hdr.rln, Hung(ls, u, x, x.ino), nil)
  {
    hide Nodes;
    leftmax.rln := x;
  }

  method LinkRight(hdr: Islot, rightmin: Islot, x: Islot, nil: Islot, ino: nat,
                   ghost ls: Spine, ghost t: Tree, ghost rs: Spine, ghost t0: Tree)
    requires Splaying(hdr, ls, x, t, rs, nil, ino, t0) && t.left.Node? && ino < t.key && rightmin == Open(rs, hdr)
    modifies rightmin`lln
    ensures x.lln == old(x.lln) && x.lln != null
    ensures Splaying(hdr, ls, x.lln, t.left, Hung(rs, t.right, t.slot, t.key), nil, ino, t0)
  {
    hide InOrder, LeftOrder, RightOrder, Keys, SpineKeys, Size, Wf, Ordered, Descending, SpineNodes, Nodes, Separate,
         IsLeftSpine, IsRightSpine, IsTree;
    Inspect(ls, x, t, rs, nil, ino, t0);
    AtRoot(t);
    HangRight(ls, t, rs, ino, t0);
    ghost var ns :| ns == SpineNodes(ls) + Nodes(t);
    ExtendRight(hdr, rightmin, x, nil, rs, t.right);
  }

  method LinkLeft(hdr: Islot, leftmax: Islot, x: Islot, nil: Islot, ino: nat,
                  ghost ls: Spine, ghost t: Tree, ghost rs: Spine, ghost t0: Tree)
    requires Splaying(hdr, ls, x, t, rs, nil, ino, t0) && t.right.Node? && t.key < ino && leftmax == Open(ls, hdr)
    modifies leftmax`rln
    ensures x.rln == old(x.rln) && x.rln != null
    ensures Splaying(hdr, Hung(ls, t.left, t.slot, t.key), x.rln, t.right, rs, nil, ino, t0)
  {
    hide InOrder, LeftOrder, RightOrder, Keys, SpineKeys, Size, Wf, Ordered, Descending, SpineNodes, Nodes, Separate,
         IsLeftSpine, IsRightSpine, IsTree;
    Inspect(ls, x, t, rs, nil, ino, t0);
    AtRoot(t);
    HangLeft(ls, t, rs, ino, t0);
    ghost var ns :| ns == SpineNodes(rs) + Nodes(t);
    ExtendLeft(hdr, leftmax, x, nil, ls, t.left);
  }

  method CloseLeftSpine(hdr: Islot, leftmax: Islot, m: Islot?, nil: Islot, ghost ls: Spine, ghost t: Tree)
    requires IsLeftSpine(hdr.rln, ls, nil) && IsTree(m, t, nil) && leftmax == Open(ls, hdr)
    requires hdr !in SpineNodes(ls) + Nodes(t) && Nodes(t) !! SpineNodes(ls)
    modifies leftmax`rln
    ensures IsTree(hdr.rln, PlugLeft(ls, t), nil)
  {
    leftmax.rln := m;
    CloseLeft(hdr.rln, ls, t, nil);
  }

  method CloseRightSpine(hdr: Islot, rightmin: Islot, m: Islot?, nil: Islot, ghost rs: Spine, ghost t: Tree)
    requires IsRightSpine(hdr.lln, rs, nil) && IsTree(m, t, nil) && rightmin == Open(rs, hdr)
    requires hdr !in SpineNodes(rs) + Nodes(t) && Nodes(t) !! SpineNodes(rs)
    modifies rightmin`lln
    ensures IsTree(hdr.lln, PlugRight(rs, t), nil)
  {
    rightmin.lln := m;
    CloseRight(hdr.lln, rs, t, nil);
  }

  lemma {:induction false} Look(hdr: Islot, ls: Spine, x: Islot, t: Tree, rs: Spine, nil: Islot, ino: nat, t0: Tree)
    requires Splaying(hdr, ls, x, t, rs, nil, ino, t0)
    ensures t.Node? && x == t.slot && x.ino == t.key && x in Nodes(t0) && x.lln != null && x.rln != null
    ensures if t.left.Leaf? then x.lln == nil
            else x.lln == t.left.slot != nil && x.lln in Nodes(t0) && x.lln.ino == t.left.key
    ensures if t.right.Leaf? then x.rln == nil
            else x.rln == t.right.slot != nil && x.rln in Nodes(t0) && x.rln.ino == t.right.key
    ensures Open(ls, hdr) in Nodes(t0) + {hdr} && Open(rs, hdr) in Nodes(t0) + {hdr}
    ensures Size(t.left) < Size(t) && Size(t.right) < Size(t)
  {
    Inspect(ls, x, t, rs, nil, ino, t0);
  }

  lemma {:induction false} Begin(hdr: Islot, x: Islot, nil: Islot, ino: nat, t: Tree)
    requires Wf(x, t, nil) && t.Node? && hdr !in Nodes(t)
    ensures Splaying(hdr, Top, x, t, Top, nil, ino, t) && Open(Top, hdr) == hdr && Ordered(t) && nil !in Nodes(t)
  {
    Start(x, nil, ino, t);
  }

  lemma OpenAt(s: Spine, t: Tree, n: Islot, k: nat)
    ensures forall hdr :: Open(Hung(s, t, n, k), hdr) == n
  {
  }

  /** Close both spines under the final root. */
  method Join(hdr: Islot, leftmax: Islot, rightmin: Islot, x: Islot, nil: Islot, ino: nat,
              ghost ls: Spine, ghost t: Tree, ghost rs: Spine, ghost t0: Tree, ghost ns: set<Islot>)
    requires Splaying(hdr, ls, x, t, rs, nil, ino, t0) && Ordered(t0) && Nodes(t0) == ns
    requires leftmax == Open(ls, hdr) && rightmin == Open(rs, hdr)
    requires t.key < ino ==> t.right.Leaf?
    requires ino < t.key ==> t.left.Leaf?
    modifies leftmax`rln, rightmin`lln, x`lln, x`rln
    ensures Wf(x, Assembled(ls, t, rs), nil) && Parted(Assembled(ls, t, rs), ino)
    ensures var u := Assembled(ls, t, rs);
      InOrder(u) == InOrder(t0) && Nodes(u) == Nodes(t0) && Keys(u) == Keys(t0)
  {
    hide *;
    Rootward(hdr, ls, x, t, rs, nil, ino, t0);
    Assemble(ls, t, rs, ino, t0);
    CloseBoth(hdr, leftmax, rightmin, x, nil, ino, ls, t, rs, t0);
    Rooted(x, nil, ls, t, rs);
  }

  lemma {:induction false} Rootward(hdr: Islot, ls: Spine, x: Islot, t: Tree, rs: Spine, nil: Islot, ino: nat, t0: Tree)
    requires Splaying(hdr, ls, x, t, rs, nil, ino, t0)
    ensures t.Node? && x == t.slot && x != nil && x.ino == t.key && Descending(ls, t, rs, ino, t0) && nil !in Nodes(t0)
  {
    Inspect(ls, x, t, rs, nil, ino, t0);
  }

  /** Close the open links and hang both trees under the root. */
  method CloseBoth(hdr: Islot, leftmax: Islot, rightmin: Islot, x: Islot, nil: Islot, ino: nat,
                   ghost ls: Spine, ghost t: Tree, ghost rs: Spine, ghost t0: Tree)
    requires Splaying(hdr, ls, x, t, rs, nil, ino, t0)
    requires leftmax == Open(ls, hdr) && rightmin == Open(rs, hdr)
    modifies leftmax`rln, rightmin`lln, x`lln, x`rln
    ensures IsTree(x.lln, PlugLeft(ls, t.left), nil) && IsTree(x.rln, PlugRight(rs, t.right), nil)
  {
    hide Nodes, SpineNodes, SpineKeys, InOrder, LeftOrder, RightOrder, Ordered, Separate, Size;
    hide IsTree, IsLeftSpine, IsRightSpine, Descending, Wf, PlugLeft, PlugRight, Keys;
    Inspect(ls, x, t, rs, nil, ino, t0);
    PlugLeftNodes(ls, t.left);
    PlugRightNodes(rs, t.right);
    AtRoot(t);
    CloseSides(hdr, leftmax, rightmin, x.lln, x.rln, nil, ls, t.left, rs, t.right,
               Nodes(t.left) + SpineNodes(ls), Nodes(t.right) + SpineNodes(rs));
    x.lln := hdr.rln;
    x.rln := hdr.lln;
  }

  /** Both trees under the header, on the node sets ns and ms. */
  method CloseSides(hdr: Islot, leftmax: Islot, rightmin: Islot, m: Islot?, n: Islot?, nil: Islot,
                    ghost ls: Spine, ghost t: Tree, ghost rs: Spine, ghost u: Tree, ghost ns: set<Islot>, ghost ms: set<Islot>)
    requires IsLeftSpine(hdr.rln, ls, nil) && IsTree(m, t, nil) && leftmax == Open(ls, hdr) && ns == Nodes(t) + SpineNodes(ls)
    requires IsRightSpine(hdr.lln, rs, nil) && IsTree(n, u, nil) && rightmin == Open(rs, hdr) && ms == Nodes(u) + SpineNodes(rs)
    requires Nodes(t) !! SpineNodes(ls) && Nodes(u) !! SpineNodes(rs) && ns !! ms && hdr !in ns + ms
    modifies leftmax`rln, rightmin`lln
    ensures IsTree(hdr.rln, PlugLeft(ls, t), nil) && IsTree(hdr.lln, PlugRight(rs, u), nil)
  {
    hide *;
    PlugLeftNodes(ls, t);
    CloseLeftSpine(hdr, leftmax, m, nil, ls, t);
    CloseRightSpine(hdr, rightmin, n, nil, rs, u);
  }

  method SplayBelow(hdr: Islot, ino: nat, x0: Islot, nil: Islot, ghost t0: Tree, ghost ns: set<Islot>)
    returns (x: Islot, ghost t: Tree)
    requires Nodes(t0) == ns
    requires Wf(x0, t0, nil) && t0.Node? && hdr !in Nodes(t0) && hdr != nil
    modifies hdr`lln, hdr`rln, nil`ino, Nodes(t0)`lln, Nodes(t0)`rln
    ensures Wf(x, t, nil) && Parted(t, ino)
    ensures InOrder(t) == InOrder(t0) && Nodes(t) == Nodes(t0) && Keys(t) == Keys(t0)
    ensures nil.ino == (if ino == 0 then 1 else 0)
  {
    hide *;
    Begin(hdr, x0, nil, ino, t0);
    hdr.lln, hdr.rln := nil, nil;
    var leftmax, rightmin := hdr, hdr;
    x, t := x0, t0;
    ghost var ls, rs := Top, Top;
    nil.ino := ino;
    Begin(hdr, x0, nil, ino, t0);
    while ino != x.ino
      invariant nil.ino == ino
      invariant leftmax == Open(ls, hdr) && rightmin == Open(rs, hdr)
      invariant Splaying(hdr, ls, x, t, rs, nil, ino, t0)
      decreases Size(t)
    {
      Look(hdr, ls, x, t, rs, nil, ino, t0);
      if ino < x.ino {
        if ino < x.lln.ino {
          x := RotateRight(hdr, x, nil, ino, ls, t, rs, t0);
          t := RotatedRight(t);
          Look(hdr, ls, x, t, rs, nil, ino, t0);
        }
        if x.lln == nil {
          break;
        }
        LinkRight(hdr, rightmin, x, nil, ino, ls, t, rs, t0);
        rightmin := x;
        x := x.lln;
        OpenAt(rs, t.right, t.slot, t.key);
        rs := Hung(rs, t.right, t.slot, t.key);
        t := t.left;
      } else {
        if ino > x.rln.ino {
          x := RotateLeft(hdr, x, nil, ino, ls, t, rs, t0);
          t := RotatedLeft(t);
          Look(hdr, ls, x, t, rs, nil, ino, t0);
        }
        if x.rln == nil {
          break;
        }
        LinkLeft(hdr, leftmax, x, nil, ino, ls, t, rs, t0);
        leftmax := x;
        x := x.rln;
        OpenAt(ls, t.left, t.slot, t.key);
        ls := Hung(ls, t.left, t.slot, t.key);
        t := t.right;
      }
    }
    Look(hdr, ls, x, t, rs, nil, ino, t0);
    Join(hdr, leftmax, rightmin, x, nil, ino, ls, t, rs, t0, ns);
    t := Assembled(ls, t, rs);
    nil.ino := if ino == 0 then 1 else 0;
  }

  method ISplay(ino: nat, x0: Islot, nil: Islot, ghost t0: Tree) returns (x: Islot, ghost t: Tree)
    requires Wf(x0, t0, nil) && t0.Node?
    modifies nil`ino, Nodes(t0)`lln, Nodes(t0)`rln
    ensures Wf(x, t, nil) && Parted(t, ino)
    ensures InOrder(t) == InOrder(t0) && Nodes(t) == Nodes(t0) && Keys(t) == Keys(t0)
    ensures nil.ino == (if ino == 0 then 1 else 0)
  {
    ghost var ns :| ns == Nodes(t0);
    var hdr := new Islot(0);
    assert hdr !in Nodes(t0);
    x, t := SplayBelow(hdr, ino, x0, nil, t0, ns);
  }

  // ---- lookup and insertion ----

  ghost function Slots(t: Tree): map<nat, Islot> {
    match t
    case Leaf => map[]
    case Node(l, n, k, r) => (Slots(l) + Slots(r))[k := n]
  }

  lemma {:induction false} SlotsIno(x: Islot?, t: Tree, nil: Islot)
    requires IsTree(x, t, nil)
    ensures forall k :: k in Slots(t) ==> Slots(t)[k].ino == k
  {
    match t
    case Leaf =>
    case Node(l, n, k, r) =>
      SlotsIno(n.lln, l, nil);
      SlotsIno(n.rln, r, nil);
  }

  lemma {:induction false} SlotsKeys(t: Tree)
    ensures Slots(t).Keys == Keys(t)
    ensures forall k :: k in Slots(t) ==> Slots(t)[k] in Nodes(t)
  {
    match t
    case Leaf =>
    case Node(l, n, k, r) =>
      SlotsKeys(l);
      SlotsKeys(r);
  }

  lemma {:induction false} SlotsFrom(t: Tree)
    requires t.Node? && Ordered(t)
    ensures t.key in Slots(t) && Slots(t)[t.key] == t.slot
    ensures forall k :: k in Slots(t.left) ==> k in Slots(t) && Slots(t)[k] == Slots(t.left)[k]
    ensures forall k :: k in Slots(t.right) ==> k in Slots(t) && Slots(t)[k] == Slots(t.right)[k]
  {
    SlotsKeys(t.left);
    SlotsKeys(t.right);
    var m := Slots(t);
    assert m == (Slots(t.left) + Slots(t.right))[t.key := t.slot];
    hide Slots, Keys;
  }

  /** The map is decided by the in-order list alone. */
  lemma {:induction false} SlotsInOrder(t: Tree, i: nat)
    requires Ordered(t) && i < |InOrder(t)|
    ensures InOrder(t)[i].key in Slots(t) && Slots(t)[InOrder(t)[i].key] == InOrder(t)[i].slot
  {
    var l, r := t.left, t.right;
    SlotsKeys(l);
    SlotsKeys(r);
    var m := |InOrder(l)|;
    assert t.Node?;
    hide Slots, Keys, InOrder;
    AtRoot(t);
    SlotsFrom(t);
    if i < m {
      SlotsInOrder(l, i);
      EntryOf(l, i);
    } else if i > m {
      SlotsInOrder(r, i - m - 1);
      EntryOf(r, i - m - 1);
    }
  }

  lemma {:induction false} SameSlots(t: Tree, u: Tree)
    requires InOrder(t) == InOrder(u) && Ordered(t) && Ordered(u)
    ensures Slots(t) == Slots(u)
  {
    hide *;
    SameOrder(t, u);
    SlotsKeys(t);
    SlotsKeys(u);
    forall k | k in Slots(t) ensures Slots(t)[k] == Slots(u)[k] {
      var i := IndexOf(t, k);
      SlotsInOrder(t, i);
      SlotsInOrder(u, i);
    }
    assert Slots(t).Keys == Slots(u).Keys;
  }

  /** After a splay the root answers the lookup, and an absent key has the
      root as its immediate neighbour in the order. */
  lemma {:induction false} RootDecides(t: Tree, ino: nat)
    requires Ordered(t) && Parted(t, ino)
    ensures ino in Keys(t) <==> t.key == ino
    ensures var es, i := InOrder(t), |InOrder(t.left)|;
      i < |es| && es[i] == Keyed(t.slot, t.key) &&
      (t.key < ino ==> forall j :: i < j < |es| ==> ino < es[j].key) &&
      (ino < t.key ==> forall j :: 0 <= j < i ==> es[j].key < ino)
  {
    var es, i := InOrder(t), |InOrder(t.left)|;
    forall j | 0 <= j < i ensures es[j].key in Keys(t.left) { EntryOf(t.left, j); }
    forall j | i < j < |es| ensures es[j].key in Keys(t.right) {
      EntryOf(t.right, j - i - 1);
      assert es[j] == InOrder(t.right)[j - i - 1];
    }
  }

  lemma {:induction false} Root(x: Islot, t: Tree, nil: Islot)
    requires Wf(x, t, nil) && t.Node?
    ensures x == t.slot && x.ino == t.key && Slots(t)[t.key] == x && Ordered(t)
  {
  }

  /** A heap tree that may be absent: NULL stands for the empty tree. */
  ghost predicate Rooting(it: Islot?, t: Tree, nil: Islot)
    reads Nodes(t)`lln, Nodes(t)`rln, Nodes(t)`ino
  {
    if it == null then t == Leaf else t.Node? && Wf(it, t, nil)
  }

  lemma {:induction false} Wellformed(it: Islot?, t: Tree, nil: Islot)
    requires Rooting(it, t, nil)
    ensures Ordered(t) && Separate(t) && nil !in Nodes(t)
    ensures t.Node? ==> t.slot == it && it != null && t.key == it.ino
    ensures t.Node? ==> it !in Nodes(t.left) && it !in Nodes(t.right) && Nodes(t.left) !! Nodes(t.right)
  {
  }

  method IFind(ino: nat, it: Islot?, nil: Islot, ghost t0: Tree)
    returns (ip: Islot?, root: Islot?, ghost t: Tree)
    requires Rooting(it, t0, nil)
    modifies nil`ino, Nodes(t0)`lln, Nodes(t0)`rln
    ensures Rooting(root, t, nil) && (t.Node? ==> Parted(t, ino))
    ensures InOrder(t) == InOrder(t0) && Nodes(t) == Nodes(t0) && Slots(t) == Slots(t0)
    ensures if ino in Slots(t0) then ip == Slots(t0)[ino] && ip.ino == ino else ip == null
  {
    if it == null {
      return null, null, Leaf;
    }
    hide Nodes, InOrder, Ordered, Separate, Slots, Keys, IsTree;
    root, t := ISplay(ino, it, nil, t0);
    RootDecides(t, ino);
    SlotsKeys(t);
    SameSlots(t0, t);
    Root(root, t, nil);
    ip := if root.ino == ino then root else null;
  }

  ghost function PutAt(t: Tree, ik: Islot, ino: nat): Tree {
    match t
    case Leaf => Node(Leaf, ik, ino, Leaf)
    case Node(l, n, k, r) =>
      if ino < k then Node(l, ik, ino, Node(Leaf, n, k, r))
      else if k < ino then Node(Node(l, n, k, Leaf), ik, ino, r)
      else t
  }

  lemma {:induction false} PutOrdered(t: Tree, ik: Islot, ino: nat)
    requires Ordered(t) && Separate(t) && ik !in Nodes(t) && (t.Node? ==> Parted(t, ino))
    ensures var u := PutAt(t, ik, ino);
      Ordered(u) && Separate(u) && Nodes(u) == if ino in Keys(t) then Nodes(t) else Nodes(t) + {ik}
  {
    match t
    case Leaf =>
    case Node(l, n, k, r) =>
      RootDecides(t, ino);
      assert Nodes(Leaf) == {} && Keys(Leaf) == {};
      if ino < k {
        assert Nodes(Node(Leaf, n, k, r)) == {n} + Nodes(r) && Keys(Node(Leaf, n, k, r)) == {k} + Keys(r);
      } else if k < ino {
        assert Nodes(Node(l, n, k, Leaf)) == Nodes(l) + {n} && Keys(Node(l, n, k, Leaf)) == Keys(l) + {k};
      }
  }

  lemma MoveRoot(ml: map<nat, Islot>, mr: map<nat, Islot>, k: nat, n: Islot)
    requires ml.Keys !! mr.Keys && k !in ml && k !in mr
    ensures (ml + mr)[k := n] == ml + mr[k := n] == ml[k := n] + mr
  {
  }

  lemma {:induction false} SlotsAt(t: Tree)
    ensures Slots(Leaf) == map[] && (t.Node? ==> Slots(t) == (Slots(t.left) + Slots(t.right))[t.key := t.slot])
  {
  }

  lemma {:induction false} SlotsApart(t: Tree)
    requires t.Node? && Ordered(t)
    ensures Slots(t.left).Keys !! Slots(t.right).Keys && t.key !in Slots(t.left) && t.key !in Slots(t.right)
  {
    SlotsKeys(t.left);
    SlotsKeys(t.right);
    hide Slots, Keys;
  }

  lemma {:induction false} PutSlots(t: Tree, ik: Islot, ino: nat)
    requires Ordered(t) && (t.Node? ==> Parted(t, ino))
    ensures Slots(PutAt(t, ik, ino)) == if ino in Keys(t) then Slots(t) else Slots(t)[ino := ik]
  {
    hide Ordered, Keys, Slots, InOrder;
    SlotsAt(t);
    SlotsAt(PutAt(t, ik, ino));
    if t.Leaf? {
      LeafKeys(t);
      assert Slots(Leaf) + Slots(Leaf) == Slots(Leaf);
    } else {
      var l, n, k, r := t.left, t.slot, t.key, t.right;
      RootDecides(t, ino);
      SlotsApart(t);
      MoveRoot(Slots(l), Slots(r), k, n);
      SlotsAt(Node(Leaf, n, k, r));
      SlotsAt(Node(l, n, k, Leaf));
      assert map[] + Slots(r) == Slots(r) && Slots(l) + map[] == Slots(l);
    }
  }

  /** iput relies on the lookup that came before: the root neighbours the key. */
  method IPut(ik: Islot, it: Islot?, nil: Islot, ghost t0: Tree) returns (root: Islot, ghost t: Tree)
    requires Rooting(it, t0, nil) && (t0.Node? ==> Parted(t0, ik.ino)) && ik !in Nodes(t0) && ik != nil
    modifies ik`lln, ik`rln, Nodes(t0)`lln, Nodes(t0)`rln
    ensures Rooting(root, t, nil)
    ensures Nodes(t) == if ik.ino in Slots(t0) then Nodes(t0) else Nodes(t0) + {ik}
    ensures Slots(t) == if ik.ino in Slots(t0) then Slots(t0) else Slots(t0)[ik.ino := ik]
  {
    hide Ordered, Separate, Slots, Parted, Nodes, IsTree;
    t := PutAt(t0, ik, ik.ino);
    Wellformed(it, t0, nil);
    PutOrdered(t0, ik, ik.ino);
    PutSlots(t0, ik, ik.ino);
    SlotsKeys(t0);
    if it == null {
      root := PutAlone(ik, nil);
    } else if ik.ino < it.ino {
      AtRoot(t0);
      root := PutLeft(ik, it, nil, t0);
    } else if it.ino < ik.ino {
      AtRoot(t0);
      root := PutRight(ik, it, nil, t0);
    } else {
      root := it;
    }
  }

  method PutAlone(ik: Islot, nil: Islot) returns (root: Islot)
    requires ik != nil
    modifies ik`lln, ik`rln
    ensures root == ik && IsTree(root, Node(Leaf, ik, ik.ino, Leaf), nil)
  {
    ik.lln, ik.rln := nil, nil;
    root := ik;
  }

  /** The new root between the left subtree and the old root. */
  method PutLeft(ik: Islot, it: Islot, nil: Islot, ghost t: Tree) returns (root: Islot)
    requires IsTree(it, t, nil) && Separate(t) && t.Node? && ik !in Nodes(t) && ik != nil
    modifies ik`lln, ik`rln, it`lln
    ensures root == ik && IsTree(root, Node(t.left, ik, ik.ino, Node(Leaf, t.slot, t.key, t.right)), nil)
  {
    hide Nodes, Separate;
    AtRoot(t);
    ik.lln := it.lln;
    ik.rln := it;
    it.lln := nil;
    root := ik;
    assert IsTree(ik.lln, t.left, nil) && IsTree(ik.rln, Node(Leaf, t.slot, t.key, t.right), nil);
  }

  method PutRight(ik: Islot, it: Islot, nil: Islot, ghost t: Tree) returns (root: Islot)
    requires IsTree(it, t, nil) && Separate(t) && t.Node? && ik !in Nodes(t) && ik != nil
    modifies ik`lln, ik`rln, it`rln
    ensures root == ik && IsTree(root, Node(Node(t.left, t.slot, t.key, Leaf), ik, ik.ino, t.right), nil)
  {
    hide Nodes, Separate;
    AtRoot(t);
    ik.rln := it.rln;
    ik.lln := it;
    it.rln := nil;
    root := ik;
    assert IsTree(ik.lln, Node(t.left, t.slot, t.key, Leaf), nil) && IsTree(ik.rln, t.right, nil);
  }
}
