/** The splay operations on linked nodes, as the macros of rb_tree/sys-tree.h perform them. */
module SplayHeap {
  import opened Sides
  import opened Splay
  import opened SplayCost

  ghost function Ptr(t: Tree): Node? {
    if t.Leaf? then null else t.n
  }

  function Child(n: Node, s: Side): Node?
    reads n
  {
    if s == L then n.left else n.right
  }

  /** The heap below `Ptr(t)` spells out `t`. */
  ghost predicate Rep(t: Tree)
    reads Nodes(t)
  {
    t.Bin? ==> t.n.left == Ptr(t.l) && t.n.right == Ptr(t.r) && Rep(t.l) && Rep(t.r)
  }

  /** The nodes of a spine that keeps side `k` hold their kept subtrees and are linked to
      one another through the other side. */
  ghost predicate SRep(k: Side, sp: Spine)
    reads SNodes(sp)
  {
    sp.Snoc? ==>
      && Child(sp.n, k) == Ptr(sp.sub) && Rep(sp.sub) && SRep(k, sp.up)
      && (sp.up.Snoc? ==> Child(sp.up.n, Other(k)) == sp.n)
  }

  /** The node whose open link the spine grows at; the splay's local node if it is empty. */
  ghost function Tail(sp: Spine, node: Node): Node {
    if sp.Nil? then node else sp.n
  }

  ghost function First(sp: Spine): Node
    requires sp.Snoc?
  {
    if sp.up.Nil? then sp.n else First(sp.up)
  }

  /** One level of the definitions above. */
  lemma Unfold(s: Side, a: Tree, n: Node, b: Tree)
    ensures Ptr(Mk(s, a, n, b)) == n && Nodes(Mk(s, a, n, b)) == Nodes(a) + {n} + Nodes(b)
    ensures Distinct(Mk(s, a, n, b)) <==>
            Distinct(a) && Distinct(b) && n !in Nodes(a) && n !in Nodes(b) && Nodes(a) !! Nodes(b)
    ensures Rep(Mk(s, a, n, b)) <==>
            Child(n, s) == Ptr(a) && Child(n, Other(s)) == Ptr(b) && Rep(a) && Rep(b)
  {
  }

  lemma SUnfold(k: Side, up: Spine, sub: Tree, n: Node)
    ensures SNodes(Snoc(up, sub, n)) == SNodes(up) + Nodes(sub) + {n}
    ensures SDistinct(Snoc(up, sub, n)) <==>
            SDistinct(up) && Distinct(sub) && n !in SNodes(up) && n !in Nodes(sub) && SNodes(up) !! Nodes(sub)
    ensures SRep(k, Snoc(up, sub, n)) <==>
            && Child(n, k) == Ptr(sub) && Rep(sub) && SRep(k, up)
            && (up.Snoc? ==> Child(up.n, Other(k)) == n)
    ensures First(Snoc(up, sub, n)) == if up.Nil? then n else First(up)
  {
  }

  lemma PtrNodes(t: Tree)
    ensures Ptr(t) != null ==> Ptr(t) in Nodes(t)
  {
  }

  lemma TailNodes(sp: Spine)
    ensures sp.Snoc? ==> sp.n in SNodes(sp) && First(sp) in SNodes(sp)
    ensures sp.Nil? ==> SNodes(sp) == {}
  {
  }

  class Head {
    var root: Node?
    ghost var tree: Tree

    /** The linked nodes form a search tree. */
    ghost predicate Valid()
      reads this, Nodes(tree)
    {
      Holds(tree) && Sorted(InOrder(tree))
    }

    ghost predicate Holds(t: Tree)
      reads `root, Nodes(t)
    {
      Rep(t) && Distinct(t) && root == Ptr(t)
    }

    constructor ()
      ensures Valid() && tree == Leaf
    {
      root, tree := null, Leaf;
    }

    /** The tree taken apart: `a` keeps side `s`, `b` keeps the other side, and `t` hangs
        from the root; the local node holds the heads of both spines. */
    ghost predicate Apart(node: Node, s: Side, a: Spine, t: Tree, b: Spine)
      reads `root, node, SNodes(a), SNodes(b), Nodes(t)
    {
      && Holds(t) && SDistinct(a) && SDistinct(b)
      && SNodes(a) !! Nodes(t) && SNodes(b) !! Nodes(t) && SNodes(a) !! SNodes(b)
      && node !in SNodes(a) && node !in SNodes(b) && node !in Nodes(t)
      && SRep(s, a) && (a.Snoc? ==> Child(node, Other(s)) == First(a))
      && SRep(Other(s), b) && (b.Snoc? ==> Child(node, s) == First(b))
    }

    lemma ApartMirror(node: Node, s: Side, a: Spine, t: Tree, b: Spine)
      ensures Apart(node, s, a, t, b) <==> Apart(node, Other(s), b, t, a)
      ensures Whole(s, a, t, b) == Whole(Other(s), b, t, a)
    {
    }

    method SetChild(n: Node, s: Side, v: Node?)
      modifies n`left, n`right
      ensures Child(n, s) == v && Child(n, Other(s)) == old(Child(n, Other(s)))
    {
      if s == L { n.left := v; } else { n.right := v; }
    }

    /** SPLAY_ROTATE_RIGHT (s = L) and SPLAY_ROTATE_LEFT (s = R): `tmp` comes up. */
    method Rotate(s: Side, tmp: Node, ghost x: Tree, ghost y: Tree, ghost n: Node, ghost z: Tree)
      requires Holds(Mk(s, Mk(s, x, tmp, y), n, z))
      modifies `root, n`left, n`right, tmp`left, tmp`right
      ensures Holds(Mk(s, x, tmp, Mk(s, y, n, z)))
    {
      hide Rep, Nodes, Distinct, Mk;
      Unfold(s, Mk(s, x, tmp, y), n, z);
      Unfold(s, x, tmp, y);
      assert allocated(Nodes(x)) && allocated(Nodes(y)) && allocated(Nodes(z));
      SetChild(root, s, Child(tmp, Other(s)));
      SetChild(tmp, Other(s), root);
      root := tmp;
      Unfold(s, y, n, z);
      Unfold(s, x, tmp, Mk(s, y, n, z));
    }

    /** A rotation at the root leaves the spines alone. */
    method RotateApart(s: Side, tmp: Node, ghost node: Node, ghost a: Spine, ghost b: Spine,
                       ghost x: Tree, ghost y: Tree, ghost n: Node, ghost z: Tree)
      requires Apart(node, s, a, Mk(s, Mk(s, x, tmp, y), n, z), b)
      modifies `root, n`left, n`right, tmp`left, tmp`right
      ensures Apart(node, s, a, Mk(s, x, tmp, Mk(s, y, n, z)), b)
    {
      hide Rep, SRep, Nodes, SNodes, Distinct, SDistinct, Mk, First, Holds;
      Unfold(s, Mk(s, x, tmp, y), n, z);
      Unfold(s, x, tmp, y);
      Unfold(s, y, n, z);
      Unfold(s, x, tmp, Mk(s, y, n, z));
      assert allocated(SNodes(a)) && allocated(SNodes(b));
      Rotate(s, tmp, x, y, n, z);
    }

    /** SPLAY_LINKLEFT (s = L) and SPLAY_LINKRIGHT (s = R): the root goes to the end of the
        opposite spine and its child on side `s` becomes the root. */
    method Link(s: Side, tail: Node, ghost node: Node, ghost a: Spine, ghost b: Spine,
                ghost x: Tree, ghost n: Node, ghost y: Tree) returns (tail': Node)
      requires Apart(node, s, a, Mk(s, x, n, y), b) && tail == Tail(b, node)
      modifies `root, tail`left, tail`right
      ensures tail' == n && Apart(node, s, a, x, Snoc(b, y, n))
    {
      hide Rep, SRep, Nodes, SNodes, Distinct, SDistinct, Mk, First;
      Unfold(s, x, n, y);
      TailNodes(a);
      TailNodes(b);
      assert allocated(Nodes(x)) && allocated(Nodes(y)) && allocated(SNodes(a)) && allocated(SNodes(b));
      GrowTail(s, tail, root, b);
      tail' := root;
      root := Child(root, s);
      SUnfold(Other(s), b, y, n);
    }

    /** Setting the open link of a spine leaves the spine as it is. */
    method GrowTail(s: Side, tail: Node, v: Node?, ghost b: Spine)
      requires SRep(Other(s), b) && SDistinct(b) && (b.Snoc? ==> tail == b.n) && (b.Nil? ==> tail !in SNodes(b))
      modifies tail`left, tail`right
      ensures SRep(Other(s), b)
      ensures Child(tail, s) == v && Child(tail, Other(s)) == old(Child(tail, Other(s)))
    {
      hide Rep, SRep, Nodes, SNodes, Distinct, SDistinct, First;
      if b.Snoc? {
        SUnfold(Other(s), b.up, b.sub, b.n);
        TailNodes(b.up);
        assert allocated(Nodes(b.sub)) && allocated(SNodes(b.up));
      } else {
        TailNodes(b);
      }
      SetChild(tail, s, v);
      if b.Snoc? {
        SUnfold(Other(s), b.up, b.sub, b.n);
      }
    }

    /** SPLAY_ASSEMBLE: close both spines with the root's subtrees and hang them below it. */
    method Assemble(node: Node, left: Node, right: Node, ghost a: Spine, ghost t: Tree, ghost b: Spine)
      requires Apart(node, L, a, t, b) && t.Bin? && left == Tail(a, node) && right == Tail(b, node)
      modifies node, left, right, t.n
      ensures Holds(Assembled(a, t, b))
    {
      hide Rep, SRep, Nodes, SNodes, Distinct, SDistinct, First, Close;
      Unfold(L, t.l, t.n, t.r);
      TailNodes(a);
      TailNodes(b);
      assert allocated(Nodes(t.l)) && allocated(Nodes(t.r)) && allocated(SNodes(a)) && allocated(SNodes(b));
      GrowTail(R, left, root.left, a);
      GrowTail(L, right, root.right, b);
      CloseRep(L, a, t.l);
      CloseRep(R, b, t.r);
      CloseNodes(L, a, t.l);
      CloseNodes(R, b, t.r);
      root.left := node.right;
      root.right := node.left;
      Unfold(L, Close(L, a, t.l), t.n, Close(R, b, t.r));
    }

    /** One round of the splay loop, with the probe on side `s` of the root: zig-zig rotation
        if the probe lies beyond the child too, then linking the root away. */
    method Round(p: Probe, s: Side, tail: Node, ghost node: Node, ghost a: Spine, ghost t: Tree, ghost b: Spine)
      returns (tail': Node, done: bool, ghost t': Tree, ghost b': Spine)
      requires Apart(node, s, a, t, b) && tail == Tail(b, node) && t.Bin? && Towards(s, p, t.n)
      requires Sorted(Whole(s, a, t, b)) && Beyond(Other(s), SOrder(Other(s), b), p)
      modifies `root, tail, Nodes(t)
      ensures Apart(node, s, a, t', b') && tail' == Tail(b', node) && t'.Bin?
      ensures Whole(s, a, t', b') == Whole(s, a, t, b) && Beyond(Other(s), SOrder(Other(s), b'), p)
      ensures if done then Stop(t', p) else Size(t') < Size(t)
      ensures Rounds(p, t) == if done then 1 else 1 + Rounds(p, t')
      ensures if done then b' == b && Result(p, t) == t'
              else b'.Snoc? && b'.up == b && Result(p, t) == Wrap(s, Result(p, t'), b'.n, b'.sub)
    {
      hide Nodes, SNodes, Distinct, SDistinct, InOrder, SOrder, Beyond, Apart, Whole, Result, Rounds, Wrap;
      t', b', tail', done := t, b, tail, true;
      LookRoot(node, s, a, t, b);
      var tmp := Child(root, s);
      if tmp == null {
        LastRound(p, t, t');
        return;
      }
      if Towards(s, p, tmp) {
        ghost var x, y := Kid(Kid(t, s), s), Kid(Kid(t, s), Other(s));
        ghost var n, z := t.n, Kid(t, Other(s));
        Unfold(s, Mk(s, x, tmp, y), n, z);
        Unfold(s, x, tmp, y);
        t' := Mk(s, x, tmp, Mk(s, y, n, z));
        RotateOrder(s, x, tmp, y, n, z);
        SameWhole(s, a, t, t', b);
        RotateApart(s, tmp, node, a, b, x, y, n, z);
        LookRoot(node, s, a, t', b);
        if Child(root, s) == null {
          LastRound(p, t, t');
          return;
        }
      }
      ghost var x, n, y := Kid(t', s), t'.n, Kid(t', Other(s));
      KidMk(s, t');
      MoreRounds(p, t, x, n, y);
      LinkOrder(s, a, x, n, y, b);
      LinkBeyond(s, a, x, n, y, b, p);
      tail' := Link(s, tail, node, a, b, x, n, y);
      done, t', b' := false, x, Snoc(b, y, n);
    }

    lemma LookRoot(node: Node, s: Side, a: Spine, t: Tree, b: Spine)
      requires Apart(node, s, a, t, b) && t.Bin?
      ensures root == t.n && Child(t.n, s) == Ptr(Kid(t, s)) && Child(t.n, Other(s)) == Ptr(Kid(t, Other(s)))
    {
    }

    /** SPLAY, and SPLAY_MINMAX when the probe is an end of the tree. */
    method Splay(p: Probe, ghost t0: Tree) returns (ghost tr: Tree, ghost rounds: nat)
      requires Holds(t0) && t0.Bin? && Sorted(InOrder(t0))
      modifies `root, Nodes(t0)
      ensures Holds(tr) && InOrder(tr) == InOrder(t0) && Split(tr, p)
      ensures tr == Result(p, t0) && rounds == Rounds(p, t0)
      ensures Paid(rounds, t0, tr, 6 * Rank(t0) + 2) && Size(tr) == Size(t0)
    {
      hide Nodes, SNodes, Distinct, SDistinct, InOrder, SOrder, Beyond, Apart, Whole, Holds, Sorted, Split, Result,
           Rounds, Assembled, Wrap, Paid, Rank, Size;
      SplayPaid(p, t0);
      assert allocated(Nodes(t0));
      var node := new Node(0);
      var left, right := node, node;
      ghost var a, t, b := Nil, t0, Nil;
      rounds := 0;
      var done := false;
      StartApart(node, t0, p);
      LookRoot(node, L, a, t, b);
      AssembledNone(Result(p, t));
      while Cmp(p, root) != 0
        invariant !done && Apart(node, L, a, t, b) && t.Bin? && root == t.n
        invariant left == Tail(a, node) && right == Tail(b, node)
        invariant Whole(L, a, t, b) == InOrder(t0)
        invariant Beyond(L, SOrder(L, a), p) && Beyond(R, SOrder(R, b), p)
        invariant Assembled(a, Result(p, t), b) == Result(p, t0) && rounds + Rounds(p, t) == Rounds(p, t0)
        decreases Size(t)
      {
        Footprint(node, a, t, b, t0);
        ghost var a0, b0 := a, b;
        if Cmp(p, root) < 0 {
          right, done, t, b := Round(p, L, right, node, a, t, b);
        } else {
          ApartMirror(node, L, a, t, b);
          left, done, t, a := Round(p, R, left, node, b, t, a);
          ApartMirror(node, L, a, t, b);
        }
        rounds := rounds + 1;
        LookRoot(node, L, a, t, b);
        if done {
          break;
        }
        if b.Snoc? { WrapLink(a0, Result(p, t), b0, b.n, b.sub); }
        if a.Snoc? { WrapLink(a0, Result(p, t), b0, a.n, a.sub); }
      }
      if !done {
        NoRounds(p, t);
      }
      Footprint(node, a, t, b, t0);
      AssembledOrder(a, t, b);
      AssembledSplit(a, t, b, p);
      Assemble(node, left, right, a, t, b);
      tr := Assembled(a, t, b);
    }

    lemma StartApart(node: Node, t: Tree, p: Probe)
      requires Holds(t) && node !in Nodes(t)
      ensures Apart(node, L, Nil, t, Nil) && Whole(L, Nil, t, Nil) == InOrder(t)
      ensures Beyond(L, SOrder(L, Nil), p) && Beyond(R, SOrder(R, Nil), p)
    {
    }

    lemma Footprint(node: Node, a: Spine, t: Tree, b: Spine, t0: Tree)
      requires Whole(L, a, t, b) == InOrder(t0) && t.Bin?
      ensures SNodes(a) + Nodes(t) + SNodes(b) == Nodes(t0)
      ensures Tail(a, node) in {node} + Nodes(t0) && Tail(b, node) in {node} + Nodes(t0) && t.n in Nodes(t0)
    {
      WholeNodes(L, a, t, b);
      InOrderNodes(t0);
      TailNodes(a);
      TailNodes(b);
    }

    /** SPLAY_FIND */
    method Find(k: int) returns (r: Node?, ghost rounds: nat)
      requires Valid()
      modifies this, Nodes(tree)
      ensures Valid() && InOrder(tree) == old(InOrder(tree))
      ensures r != null ==> r in InOrder(tree) && r.key == k
      ensures r == null ==> forall x :: x in InOrder(tree) ==> x.key != k
      ensures tree.Bin? ==> Split(tree, Key(k))
      ensures Paid(rounds, old(tree), tree, 6 * Rank(old(tree)) + 2) && Size(tree) == old(Size(tree))
    {
      hide Nodes, InOrder, Holds, Sorted, Split, Paid, Rank, Size, Result, Rounds;
      RootLook();
      if root == null {
        NothingPaid(tree, 6 * Rank(tree) + 2);
        return null, 0;
      }
      ghost var t;
      t, rounds := Splay(Key(k), tree);
      assert allocated(Nodes(t));
      tree := t;
      RootLook();
      SplitRoot(t, Key(k));
      SplitNearest(t, k);
      r := if root.key == k then root else null;
    }

    lemma RootLook()
      requires Holds(tree)
      ensures root == Ptr(tree) && (tree.Leaf? ==> InOrder(tree) == [])
    {
    }

    /** `elm` becomes the root, over the old root and beside its subtree on side `s`. */
    method PutOnTop(s: Side, elm: Node, ghost t: Tree)
      requires Holds(t) && t.Bin? && elm !in Nodes(t)
      modifies `root, elm`left, elm`right, t.n`left, t.n`right
      ensures Holds(Mk(s, Kid(t, s), elm, Mk(s, Leaf, t.n, Kid(t, Other(s)))))
    {
      hide Rep, Nodes, Distinct, Mk;
      ghost var x, y := Kid(t, s), Kid(t, Other(s));
      KidMk(s, t);
      Unfold(s, x, t.n, y);
      LeafFacts();
      assert allocated(Nodes(x)) && allocated(Nodes(y));
      SetChild(elm, s, Child(root, s));
      SetChild(elm, Other(s), root);
      SetChild(root, s, null);
      root := elm;
      Unfold(s, Leaf, t.n, y);
      Unfold(s, x, elm, Mk(s, Leaf, t.n, y));
    }

    /** SPLAY_INSERT */
    method Insert(elm: Node) returns (r: Node?, ghost rounds: nat)
      requires Valid()
      modifies this, elm, Nodes(tree)
      ensures Valid()
      ensures r != null ==> r in InOrder(tree) && r.key == elm.key && InOrder(tree) == old(InOrder(tree))
      ensures r != null && elm !in old(Nodes(tree)) ==> unchanged(elm)
      ensures r == null ==> forall x :: x in old(InOrder(tree)) ==> x.key != elm.key
      ensures r == null ==> OneMore(old(InOrder(tree)), elm, InOrder(tree))
      ensures Paid(rounds, old(tree), tree, 8 * Rank(tree) + 2)
      ensures Size(tree) == old(Size(tree)) + if r == null then 1 else 0
    {
      hide Nodes, InOrder, Holds, Sorted, Split, OneMore, Paid, Rank, Size, Result, Rounds;
      rounds := 0;
      RootLook();
      ghost var t;
      if root == null {
        elm.left, elm.right := null, null;
        root := elm;
        t := Bin(Leaf, elm, Leaf);
        FirstElement(elm);
        FirstPaid(elm);
        EmptySize();
      } else {
        InOrderNodes(tree);
        t, rounds := Splay(Key(elm.key), tree);
        InOrderNodes(t);
        SplitRoot(t, Key(elm.key));
        HoldsRoot(t);
        SplitNearest(t, elm.key);
        assert allocated(Nodes(t));
        var comp := elm.key - root.key;
        if comp == 0 {
          FoundPaid(rounds, tree, t);
          tree := t;
          return root, rounds;
        }
        var s := if comp < 0 then L else R;
        assert elm !in SetOf(InOrder(t));
        InsertOrder(s, t, elm);
        InsertPaid(rounds, tree, t, s, elm);
        PutOnTop(s, elm, t);
        t := Mk(s, Kid(t, s), elm, Mk(s, Leaf, t.n, Kid(t, Other(s))));
      }
      assert allocated(Nodes(t));
      tree := t;
      r := null;
    }

    lemma HoldsRoot(t: Tree)
      requires Holds(t)
      ensures root == Ptr(t)
      ensures t.Bin? ==> t.n.left == Ptr(t.l) && t.n.right == Ptr(t.r) && t.n in Nodes(t)
    {
    }

    lemma FirstElement(n: Node)
      requires root == n && n.left == n.right == null
      ensures Holds(Bin(Leaf, n, Leaf)) && InOrder(Bin(Leaf, n, Leaf)) == [n]
      ensures Sorted([n]) && OneMore(InOrder(Leaf), n, [n]) && InOrder(Leaf) == []
    {
      assert [n] == InOrder(Leaf)[..0] + [n] + InOrder(Leaf)[0..];
    }

    /** Attach `tmp`, the root of `r`, to the right of a root without a right child. */
    method AttachRight(tmp: Node?, ghost u: Tree, ghost r: Tree)
      requires Holds(u) && u.Bin? && u.r == Leaf && Rep(r) && Distinct(r) && Nodes(u) !! Nodes(r) && tmp == Ptr(r)
      modifies u.n`right
      ensures Holds(Bin(u.l, u.n, r))
    {
      hide Rep, Nodes, Distinct;
      Unfold(L, u.l, u.n, u.r);
      root.right := tmp;
      Unfold(L, u.l, u.n, r);
    }

    /** SPLAY_REMOVE: takes out the element that compares equal to `elm`, if there is one. */
    method Remove(elm: Node) returns (r: Node?, ghost rounds: nat)
      requires Valid()
      modifies this, Nodes(tree)
      ensures Valid() && (r == null || r == elm)
      ensures r == null ==> InOrder(tree) == old(InOrder(tree)) && forall x :: x in InOrder(tree) ==> x.key != elm.key
      ensures r == elm ==> exists gone: Node :: gone.key == elm.key && OneMore(InOrder(tree), gone, old(InOrder(tree)))
      ensures Paid(rounds, old(tree), tree, 12 * Rank(old(tree)) + 4)
      ensures Size(tree) == old(Size(tree)) - if r == null then 0 else 1
    {
      hide Nodes, InOrder, Holds, Sorted, Split, OneMore, Paid, Rank, Size, Result, Rounds;
      RootLook();
      if root == null {
        NothingPaid(tree, 12 * Rank(tree) + 4);
        return null, 0;
      }
      InOrderNodes(tree);
      ghost var t, t0 := tree, tree;
      t, rounds := Splay(Key(elm.key), tree);
      InOrderNodes(t);
      SplitRoot(t, Key(elm.key));
      HoldsRoot(t);
      SplitNearest(t, elm.key);
      assert allocated(Nodes(t));
      if elm.key != root.key {
        FoundPaid(rounds, tree, t);
        tree := t;
        return null, rounds;
      }
      ghost var u, more;
      u, more := TakeOutRoot(elm.key, t0, t, rounds);
      assert allocated(Nodes(u));
      tree := u;
      return elm, rounds + more;
    }

    /** The root, which the splay has found equal, goes; the left subtree is splayed to take the
        right one. */
    method TakeOutRoot(k: int, ghost t0: Tree, ghost t: Tree, ghost rounds: nat)
      returns (ghost u: Tree, ghost more: nat)
      requires Holds(t) && t.Bin? && t.n.key == k && Split(t, Key(k)) && Sorted(InOrder(t))
      requires Size(t) == Size(t0) && Paid(rounds, t0, t, 6 * Rank(t0) + 2)
      modifies `root, Nodes(t)
      ensures Holds(u) && Sorted(InOrder(u)) && OneMore(InOrder(u), t.n, InOrder(t))
      ensures Paid(rounds + more, t0, u, 12 * Rank(t0) + 4) && Size(u) == Size(t0) - 1
    {
      hide Nodes, InOrder, Holds, Sorted, Split, OneMore, Paid, Rank, Size, Result, Rounds;
      HoldsRoot(t);
      RemoveOrder(t);
      HoldsParts(t);
      assert allocated(Nodes(t.l)) && allocated(Nodes(t.r));
      more := 0;
      if root.left == null {
        root := root.right;
        u := t.r;
        CutPaid(rounds, t0, t);
        Settled(u);
      } else {
        var tmp := root.right;
        root := root.left;
        Settled(t.l);
        u, more := Splay(Key(k), t.l);
        InOrderNodes(u);
        InOrderNodes(t.l);
        NoneAbove(u, t.l, t, k);
        HoldsParts(u);
        AttachRight(tmp, u, t.r);
        JoinOrder(u, t.l, t.r);
        JoinPaid(rounds, t0, t, more, u);
        u := Bin(u.l, u.n, t.r);
      }
    }

    /** SPLAY_MIN (val < 0) and SPLAY_MAX (val > 0). */
    method MinMax(val: int) returns (r: Node?, ghost rounds: nat)
      requires Valid() && val != 0
      modifies this, Nodes(tree)
      ensures Valid() && InOrder(tree) == old(InOrder(tree))
      ensures r == if InOrder(tree) == [] then null
                   else if val < 0 then InOrder(tree)[0] else InOrder(tree)[|InOrder(tree)| - 1]
      ensures Paid(rounds, old(tree), tree, 6 * Rank(old(tree)) + 2) && Size(tree) == old(Size(tree))
    {
      hide Nodes, InOrder, Holds, Sorted, Split, Paid, Rank, Size, Result, Rounds;
      RootLook();
      if root == null {
        NothingPaid(tree, 6 * Rank(tree) + 2);
        return null, 0;
      }
      var p := if val < 0 then NegInf else Inf;
      ghost var t;
      t, rounds := Splay(p, tree);
      SplitRoot(t, p);
      SplitEnds(t);
      HoldsRoot(t);
      assert allocated(Nodes(t));
      tree := t;
      r := root;
    }

    lemma Settled(t: Tree)
      requires Rep(t) && Distinct(t) && root == Ptr(t)
      ensures Holds(t)
    {
    }

    lemma HoldsParts(t: Tree)
      requires Holds(t) && t.Bin?
      ensures Rep(t.l) && Rep(t.r) && Distinct(t.l) && Distinct(t.r) && Nodes(t.l) !! Nodes(t.r)
      ensures Nodes(t) == Nodes(t.l) + {t.n} + Nodes(t.r) && t.n !in Nodes(t.l) + Nodes(t.r)
    {
    }
  }

  /** `s'` is `s` with `n` put in somewhere. */
  ghost predicate OneMore(s: seq<Node>, n: Node, s': seq<Node>) {
    exists i :: 0 <= i <= |s| && s' == s[..i] + [n] + s[i..]
  }

  lemma OneMoreAt(a: seq<Node>, n: Node, b: seq<Node>)
    ensures OneMore(a + b, n, a + [n] + b)
  {
    var s := a + b;
    assert s[..|a|] == a && s[|a|..] == b;
  }

  lemma KidMk(s: Side, t: Tree)
    requires t.Bin?
    ensures t == Mk(s, Kid(t, s), t.n, Kid(t, Other(s)))
  {
  }

  lemma LeafFacts()
    ensures Rep(Leaf) && Distinct(Leaf) && Nodes(Leaf) == {}
  {
  }

  lemma SplitRoot(t: Tree, p: Probe)
    requires Split(t, p)
    ensures t.Bin? && t.n in InOrder(t)
  {
  }

  lemma SortedJoin(a: seq<Node>, n: Node, b: seq<Node>)
    requires Sorted(a) && Sorted(b) && Beyond(L, a, Key(n.key)) && Beyond(R, b, Key(n.key))
    ensures Sorted(a + [n] + b)
  {
    assert forall i :: 0 <= i < |a| ==> a[i] in a;
    assert forall i :: 0 <= i < |b| ==> b[i] in b;
  }

  lemma InsertOrder(s: Side, t: Tree, elm: Node)
    requires Split(t, Key(elm.key)) && Sorted(InOrder(t)) && Towards(s, Key(elm.key), t.n)
    ensures var t' := Mk(s, Kid(t, s), elm, Mk(s, Leaf, t.n, Kid(t, Other(s))));
            Sorted(InOrder(t')) && OneMore(InOrder(t), elm, InOrder(t'))
  {
    hide OneMore, Sorted, InOrder, Beyond, Mk, Towards;
    var a, n, b := InOrder(t.l), t.n, InOrder(t.r);
    BinMk(t);
    MkOrder(L, t.l, n, t.r);
    LeafOrder();
    if s == L {
      MkOrder(L, Leaf, n, t.r);
      MkOrder(L, t.l, elm, Mk(s, Leaf, n, t.r));
      InsertBelow(a, elm, n, b);
    } else {
      MkOrder(R, Leaf, n, t.l);
      MkOrder(R, t.r, elm, Mk(s, Leaf, n, t.l));
      InsertAbove(a, n, elm, b);
    }
  }

  lemma BinMk(t: Tree)
    requires t.Bin?
    ensures t == Mk(L, t.l, t.n, t.r)
  {
  }

  lemma InsertBelow(a: seq<Node>, elm: Node, n: Node, b: seq<Node>)
    requires Sorted(a + [n] + b) && Beyond(L, a, Key(elm.key)) && Beyond(R, b, Key(elm.key))
    requires Towards(L, Key(elm.key), n)
    ensures Sorted(a + [elm] + ([] + [n] + b)) && OneMore(a + [n] + b, elm, a + [elm] + ([] + [n] + b))
  {
    hide OneMore, Sorted;
    var nb := [n] + b;
    assert [] + [n] + b == nb && a + [n] + b == a + nb;
    SortedSuffix(a, nb);
    OneMoreAt(a, elm, nb);
    SortedJoin(a, elm, nb);
  }

  lemma InsertAbove(a: seq<Node>, n: Node, elm: Node, b: seq<Node>)
    requires Sorted(a + [n] + b) && Beyond(L, a, Key(elm.key)) && Beyond(R, b, Key(elm.key))
    requires Towards(R, Key(elm.key), n)
    ensures Sorted((a + [n] + []) + [elm] + b) && OneMore(a + [n] + b, elm, (a + [n] + []) + [elm] + b)
  {
    hide OneMore, Sorted;
    var an := a + [n];
    assert a + [n] + [] == an;
    SortedSuffix(an, b);
    OneMoreAt(an, elm, b);
    SortedJoin(an, elm, b);
  }

  lemma LeafOrder()
    ensures InOrder(Leaf) == []
  {
  }

  lemma SortedSuffix(a: seq<Node>, b: seq<Node>)
    requires Sorted(a + b)
    ensures Sorted(a) && Sorted(b)
  {
    assert forall i :: 0 <= i < |a| ==> a[i] == (a + b)[i];
    assert forall i :: 0 <= i < |b| ==> b[i] == (a + b)[|a| + i];
  }

  /** Cutting the root out of the order. */
  lemma RemoveOrder(t: Tree)
    requires t.Bin? && Sorted(InOrder(t))
    ensures Sorted(InOrder(t.l)) && Sorted(InOrder(t.l) + InOrder(t.r))
    ensures OneMore(InOrder(t.l) + InOrder(t.r), t.n, InOrder(t))
    ensures t.l.Leaf? ==> InOrder(t.l) + InOrder(t.r) == InOrder(t.r)
  {
    hide OneMore;
    var a, n, b := InOrder(t.l), t.n, InOrder(t.r);
    SortedSplit(a, n, b);
    OneMoreAt(a, n, b);
    CutSorted(a, n, b);
  }

  lemma CutSorted(a: seq<Node>, n: Node, b: seq<Node>)
    requires Sorted(a + [n] + b)
    ensures Sorted(a + b)
  {
    assert forall i :: 0 <= i < |a + b| ==> (a + b)[i] == (a + [n] + b)[if i < |a| then i else i + 1];
  }

  /** Splaying the left subtree for a key above all of it leaves nothing right of its root. */
  lemma NoneAbove(u: Tree, l: Tree, t: Tree, k: int)
    requires Split(u, Key(k)) && InOrder(u) == InOrder(l) && Split(t, Key(k)) && t.l == l
    ensures u.Bin? && u.r == Leaf
  {
    var q := InOrder(u.r);
    assert forall n :: n in q ==> n in InOrder(u);
    NoneBoth(q, Key(k));
  }

  lemma NoneBoth(q: seq<Node>, p: Probe)
    ensures Beyond(L, q, p) && Beyond(R, q, p) ==> q == []
  {
    if q != [] {
      assert q[0] in q;
    }
  }

  lemma JoinOrder(u: Tree, l: Tree, r: Tree)
    requires u.Bin? && u.r == Leaf && InOrder(u) == InOrder(l)
    ensures InOrder(Bin(u.l, u.n, r)) == InOrder(l) + InOrder(r)
  {
  }

  lemma SameWhole(s: Side, a: Spine, t: Tree, t': Tree, b: Spine)
    requires InOrder(t) == InOrder(t')
    ensures Whole(s, a, t, b) == Whole(s, a, t', b)
  {
  }

  lemma {:induction false} CloseRep(k: Side, sp: Spine, x: Tree)
    requires SRep(k, sp) && Rep(x) && (sp.Snoc? ==> Child(sp.n, Other(k)) == Ptr(x))
    ensures Rep(Close(k, sp, x)) && Ptr(Close(k, sp, x)) == if sp.Nil? then Ptr(x) else First(sp)
  {
    if sp.Snoc? {
      CloseRep(k, sp.up, Mk(k, sp.sub, sp.n, x));
    }
  }
}
