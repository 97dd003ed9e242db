/** The top-down splay tree of rb_tree/sys-tree.h: nodes with left and right links, a splay
    loop that takes the tree apart into a left and a right spine and reassembles it. */
module Splay {
  import opened SeqLemmas
  import opened Sides

  class Node {
    const key: int
    var left: Node?
    var right: Node?

    constructor (k: int)
      ensures key == k && left == null && right == null
    {
      key, left, right := k, null, null;
    }
  }

  datatype Tree = Leaf | Bin(l: Tree, n: Node, r: Tree)

  /** A half-built tree: nodes that keep the subtree on one side, each linked to the next
      one through its other side; the last node's link is still open. */
  datatype Spine = Nil | Snoc(up: Spine, sub: Tree, n: Node)

  function Mk(s: Side, a: Tree, n: Node, b: Tree): Tree {
    if s == L then Bin(a, n, b) else Bin(b, n, a)
  }

  function Kid(t: Tree, s: Side): Tree
    requires t.Bin?
  {
    if s == L then t.l else t.r
  }

  function Size(t: Tree): nat {
    if t.Leaf? then 0 else Size(t.l) + 1 + Size(t.r)
  }

  function Nodes(t: Tree): set<Node> {
    if t.Leaf? then {} else Nodes(t.l) + {t.n} + Nodes(t.r)
  }

  function SNodes(sp: Spine): set<Node> {
    if sp.Nil? then {} else SNodes(sp.up) + Nodes(sp.sub) + {sp.n}
  }

  ghost predicate Distinct(t: Tree) {
    t.Bin? ==>
      Distinct(t.l) && Distinct(t.r) && t.n !in Nodes(t.l) && t.n !in Nodes(t.r) && Nodes(t.l) !! Nodes(t.r)
  }

  ghost predicate SDistinct(sp: Spine) {
    sp.Snoc? ==>
      && SDistinct(sp.up) && Distinct(sp.sub)
      && sp.n !in SNodes(sp.up) && sp.n !in Nodes(sp.sub) && SNodes(sp.up) !! Nodes(sp.sub)
  }

  // ---------- order ----------

  function InOrder(t: Tree): seq<Node> {
    if t.Leaf? then [] else InOrder(t.l) + [t.n] + InOrder(t.r)
  }

  /** The elements of a spine that keeps side `k`, in order. */
  function SOrder(k: Side, sp: Spine): seq<Node> {
    if sp.Nil? then []
    else if k == L then SOrder(k, sp.up) + InOrder(sp.sub) + [sp.n]
    else [sp.n] + InOrder(sp.sub) + SOrder(k, sp.up)
  }

  /** The spine that keeps side `k`, closed off with the subtree `x`. */
  function Close(k: Side, sp: Spine, x: Tree): Tree {
    if sp.Nil? then x else Close(k, sp.up, Mk(k, sp.sub, sp.n, x))
  }

  lemma {:induction false} CloseOrder(k: Side, sp: Spine, x: Tree)
    ensures InOrder(Close(k, sp, x)) == if k == L then SOrder(k, sp) + InOrder(x) else InOrder(x) + SOrder(k, sp)
  {
    if sp.Snoc? {
      hide InOrder, SOrder, Mk;
      SpineOrder(k, sp.up, sp.sub, sp.n);
      var o, y, n := SOrder(k, sp.up), InOrder(sp.sub), sp.n;
      CloseOrder(k, sp.up, Mk(k, sp.sub, n, x));
      MkOrder(k, sp.sub, n, x);
      if k == L {
        Associate(o, y, [n], InOrder(x));
      } else {
        Associate(InOrder(x), [n], y, o);
      }
    }
  }

  lemma {:induction false} CloseNodes(k: Side, sp: Spine, x: Tree)
    ensures Nodes(Close(k, sp, x)) == SNodes(sp) + Nodes(x)
    ensures Distinct(Close(k, sp, x)) <==> SDistinct(sp) && Distinct(x) && SNodes(sp) !! Nodes(x)
  {
    if sp.Snoc? {
      CloseNodes(k, sp.up, Mk(k, sp.sub, sp.n, x));
    }
  }

  ghost predicate Sorted(s: seq<Node>) {
    forall i, j :: 0 <= i < j < |s| ==> s[i].key < s[j].key
  }

  /** What a splay looks for: a key, or the end of the tree (SPLAY_NEGINF, SPLAY_INF). */
  datatype Probe = Key(k: int) | NegInf | Inf

  /** The sign of the comparison of a probe with a node. */
  function Cmp(p: Probe, n: Node): int {
    match p
    case Key(k) => k - n.key
    case NegInf => -1
    case Inf => 1
  }

  /** The probe lies on side `s` of the node. */
  predicate Towards(s: Side, p: Probe, n: Node) {
    if s == L then Cmp(p, n) < 0 else Cmp(p, n) > 0
  }

  /** Every node is on side `s` of the probe. */
  ghost predicate Beyond(s: Side, q: seq<Node>, p: Probe) {
    forall n :: n in q ==> Towards(Other(s), p, n)
  }

  /** The elements in order while the tree is taken apart. */
  function Whole(s: Side, a: Spine, t: Tree, b: Spine): seq<Node> {
    if s == L then SOrder(L, a) + InOrder(t) + SOrder(R, b) else SOrder(L, b) + InOrder(t) + SOrder(R, a)
  }

  lemma RotateOrder(s: Side, x: Tree, m: Node, y: Tree, n: Node, z: Tree)
    ensures InOrder(Mk(s, x, m, Mk(s, y, n, z))) == InOrder(Mk(s, Mk(s, x, m, y), n, z))
  {
    if s == L {
      Shift(InOrder(x), m, InOrder(y), n, InOrder(z));
    } else {
      Shift(InOrder(z), n, InOrder(y), m, InOrder(x));
    }
  }

  lemma LinkOrder(s: Side, a: Spine, x: Tree, n: Node, y: Tree, b: Spine)
    ensures Whole(s, a, x, Snoc(b, y, n)) == Whole(s, a, Mk(s, x, n, y), b)
  {
    if s == L {
      Regroup(SOrder(L, a), InOrder(x), [n], InOrder(y), SOrder(R, b));
    } else {
      Regroup(SOrder(L, b), InOrder(y), [n], InOrder(x), SOrder(R, a));
    }
  }

  /** When the root lies beyond the key, so does everything linked away with it. */
  lemma LinkBeyond(s: Side, a: Spine, x: Tree, n: Node, y: Tree, b: Spine, p: Probe)
    requires Sorted(Whole(s, a, Mk(s, x, n, y), b))
    requires Towards(s, p, n)
    ensures Beyond(Other(s), SOrder(Other(s), Snoc(b, y, n)), p)
  {
    hide Beyond, InOrder, Sorted, SOrder, Mk, Towards;
    MkOrder(s, x, n, y);
    SpineOrder(Other(s), b, y, n);
    if s == L {
      BeyondRight(SOrder(L, a), InOrder(x), n, InOrder(y), SOrder(R, b), p);
    } else {
      BeyondLeft(SOrder(L, b), InOrder(y), n, InOrder(x), SOrder(R, a), p);
    }
  }

  lemma SpineOrder(k: Side, sp: Spine, y: Tree, n: Node)
    ensures SOrder(k, Snoc(sp, y, n)) ==
            if k == L then SOrder(k, sp) + InOrder(y) + [n] else [n] + InOrder(y) + SOrder(k, sp)
  {
  }

  lemma BeyondRight(a: seq<Node>, x: seq<Node>, n: Node, y: seq<Node>, o: seq<Node>, p: Probe)
    requires Sorted(a + (x + [n] + y) + o) && Towards(L, p, n)
    ensures Beyond(R, [n] + y + o, p)
  {
    hide Sorted;
    Regroup(a, x, [n], y, o);
    SortedSplit(a + x, n, y + o);
    assert [n] + y + o == [n] + (y + o);
    BeyondMore(R, y + o, n, p);
  }

  lemma BeyondLeft(o: seq<Node>, y: seq<Node>, n: Node, x: seq<Node>, a: seq<Node>, p: Probe)
    requires Sorted(o + (y + [n] + x) + a) && Towards(R, p, n)
    ensures Beyond(L, o + y + [n], p)
  {
    hide Sorted;
    Regroup(o, y, [n], x, a);
    SortedSplit(o + y, n, x + a);
    BeyondMore(L, o + y, n, p);
  }

  lemma MkOrder(s: Side, x: Tree, n: Node, y: Tree)
    ensures InOrder(Mk(s, x, n, y)) ==
            if s == L then InOrder(x) + [n] + InOrder(y) else InOrder(y) + [n] + InOrder(x)
  {
  }

  lemma BeyondMore(s: Side, q: seq<Node>, n: Node, p: Probe)
    requires Beyond(s, q, Key(n.key)) && Towards(Other(s), p, n)
    ensures if s == L then Beyond(s, q + [n], p) else Beyond(s, [n] + q, p)
  {
  }

  /** Where the splay loop may stop: at the key, or with nothing left between it and the key. */
  predicate Stop(t: Tree, p: Probe) {
    && t.Bin?
    && (Cmp(p, t.n) == 0 || (Towards(L, p, t.n) && t.l.Leaf?) || (Towards(R, p, t.n) && t.r.Leaf?))
  }

  function Assembled(a: Spine, t: Tree, b: Spine): Tree
    requires t.Bin?
  {
    Bin(Close(L, a, t.l), t.n, Close(R, b, t.r))
  }

  lemma AssembledOrder(a: Spine, t: Tree, b: Spine)
    requires t.Bin?
    ensures InOrder(Assembled(a, t, b)) == Whole(L, a, t, b)
  {
    CloseOrder(L, a, t.l);
    CloseOrder(R, b, t.r);
    Regroup(SOrder(L, a), InOrder(t.l), [t.n], InOrder(t.r), SOrder(R, b));
  }

  /** Everything left of the root is below the key and everything right of it above. */
  ghost predicate Split(t: Tree, p: Probe) {
    t.Bin? && Beyond(L, InOrder(t.l), p) && Beyond(R, InOrder(t.r), p)
  }

  lemma AssembledSplit(a: Spine, t: Tree, b: Spine, p: Probe)
    requires Stop(t, p) && Sorted(Whole(L, a, t, b))
    requires Beyond(L, SOrder(L, a), p) && Beyond(R, SOrder(R, b), p)
    ensures Split(Assembled(a, t, b), p)
  {
    CloseOrder(L, a, t.l);
    CloseOrder(R, b, t.r);
    AssembledOrder(a, t, b);
    var l, r := InOrder(Close(L, a, t.l)), InOrder(Close(R, b, t.r));
    SortedSplit(l, t.n, r);
    assert forall n :: n in InOrder(t.l) ==> n in l;
    assert forall n :: n in InOrder(t.r) ==> n in r;
  }

  lemma SortedSplit(a: seq<Node>, n: Node, b: seq<Node>)
    requires Sorted(a + [n] + b)
    ensures Sorted(a) && Sorted(b) && Beyond(L, a, Key(n.key)) && Beyond(R, b, Key(n.key))
  {
    var s := a + [n] + b;
    assert s[|a|] == n;
    assert forall i :: 0 <= i < |a| ==> s[i] == a[i];
    assert forall i :: 0 <= i < |b| ==> s[|a| + 1 + i] == b[i];
  }

  /** After a splay the root is the key if present, otherwise a neighbour of it: no element
      lies strictly between the root and the key. */
  lemma SplitNearest(t: Tree, k: int)
    requires Split(t, Key(k)) && Sorted(InOrder(t))
    ensures forall x :: x in InOrder(t) && x.key == k ==> x == t.n
    ensures forall x :: x in InOrder(t) && x != t.n ==> (x.key < k && x.key < t.n.key) || (k < x.key && t.n.key < x.key)
  {
    SortedSplit(InOrder(t.l), t.n, InOrder(t.r));
  }

  /** Splaying for an end of the tree brings that end to the root. */
  lemma SplitEnds(t: Tree)
    ensures Split(t, NegInf) ==> InOrder(t.l) == [] && InOrder(t)[0] == t.n
    ensures Split(t, Inf) ==> InOrder(t.r) == [] && InOrder(t)[|InOrder(t)| - 1] == t.n
  {
    if t.Bin? {
      EndEmpty(InOrder(t.l));
      EndEmpty(InOrder(t.r));
    }
  }

  lemma EndEmpty(q: seq<Node>)
    ensures Beyond(L, q, NegInf) <==> q == []
    ensures Beyond(R, q, Inf) <==> q == []
  {
    if q != [] {
      assert q[0] in q;
    }
  }

  function SetOf(s: seq<Node>): set<Node> { set n | n in s }

  lemma {:induction false} InOrderNodes(t: Tree)
    ensures SetOf(InOrder(t)) == Nodes(t)
  {
    if t.Bin? {
      InOrderNodes(t.l);
      InOrderNodes(t.r);
    }
  }

  lemma {:induction false} SOrderNodes(k: Side, sp: Spine)
    ensures SetOf(SOrder(k, sp)) == SNodes(sp)
  {
    if sp.Snoc? {
      SOrderNodes(k, sp.up);
      InOrderNodes(sp.sub);
    }
  }

  lemma WholeNodes(s: Side, a: Spine, t: Tree, b: Spine)
    ensures SetOf(Whole(s, a, t, b)) == SNodes(a) + Nodes(t) + SNodes(b)
  {
    hide InOrder, SOrder, Nodes, SNodes;
    InOrderNodes(t);
    SOrderNodes(s, a);
    SOrderNodes(Other(s), b);
  }
}
