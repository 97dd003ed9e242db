/** The linked red-black tree of rb_tree/sys-tree.h: nodes with left, right, parent and
    colour fields, rewritten in place.  Each pair of mirrored branches of the macros is
    one branch here, indexed by the side it works on. */
module RbHeap {
  import opened Sides
  import opened RbTree

  /** The pointer by which a subtree is reached. */
  ghost function Ptr(t: Tree): Node? {
    if t.Leaf? then null else t.n
  }

  /** The node just above the focus. */
  ghost function PNode(z: Path): Node? {
    if z.Top? then null else z.n
  }

  function Child(n: Node, s: Side): Node?
    reads n
  {
    if s == L then n.left else n.right
  }

  /** The heap below `Ptr(t)` spells out `t`, parent links included. */
  ghost predicate Rep(t: Tree, p: Node?)
    reads Nodes(t)
  {
    match t
    case Leaf => true
    case Bin(l, n, c, r) =>
      && n.left == Ptr(l) && n.right == Ptr(r) && n.parent == p && n.color == c
      && Rep(l, n) && Rep(r, n)
  }

  /** The heap above a focus reached by `hole` spells out the path `z` up to `root`. */
  ghost predicate RepPath(z: Path, hole: Node?, root: Node?)
    reads PNodes(z)
  {
    match z
    case Top => hole == root
    case Step(up, s, n, c, sib) =>
      && Child(n, s) == hole && Child(n, Other(s)) == Ptr(sib)
      && n.parent == PNode(up) && n.color == c
      && Rep(sib, n) && RepPath(up, n, root)
  }

  /** One level of the definitions above, for a node reached through side `s`. */
  lemma Unfold(s: Side, a: Tree, n: Node, c: Color, b: Tree, p: Node?)
    ensures Ptr(Mk(s, a, n, c, b)) == n
    ensures Nodes(Mk(s, a, n, c, b)) == Nodes(a) + {n} + Nodes(b)
    ensures Distinct(Mk(s, a, n, c, b)) <==>
            Distinct(a) && Distinct(b) && n !in Nodes(a) && n !in Nodes(b) && Nodes(a) !! Nodes(b)
    ensures Rep(Mk(s, a, n, c, b), p) <==>
            && Child(n, s) == Ptr(a) && Child(n, Other(s)) == Ptr(b)
            && n.parent == p && n.color == c && Rep(a, n) && Rep(b, n)
  {
  }

  lemma PtrNodes(t: Tree)
    ensures Ptr(t) != null ==> Ptr(t) in Nodes(t)
  {
  }

  lemma LeafNodes(n: Node)
    ensures Nodes(Leaf) == {} && Nodes(Bin(Leaf, n, Red, Leaf)) == {n}
  {
  }

  lemma StepFoot(up: Path, s: Side, n: Node, c: Color, sib: Tree)
    ensures PNodes(Step(up, s, n, c, sib)) == PNodes(up) + {n} + Nodes(sib)
  {
  }

  lemma MkMirror(s: Side, a: Tree, n: Node, c: Color, b: Tree)
    ensures Mk(s, a, n, c, b) == Mk(Other(s), b, n, c, a)
  {
  }

  lemma BinMk(t: Tree)
    requires t.Bin?
    ensures t == Mk(L, t.l, t.n, t.c, t.r)
  {
  }

  lemma TopRemoveInv(t: Tree)
    requires RedBlack(t)
    ensures RemoveInv(Top, t)
  {
  }

  lemma LeastFoot(t: Tree)
    requires t.Bin? && t.l == Leaf
    ensures Nodes(t) == {t.n} + Nodes(t.r) && t == Mk(L, Leaf, t.n, t.c, t.r)
  {
  }

  lemma PCat(q: Path, z: Path, x: Node, y: Node, c: Color, l: Tree)
    ensures PNode(Cat(q, Step(z, R, x, c, l))) == if q.Top? then x else q.n
    ensures PNode(Cat(q, Step(z, R, y, c, l))) == if q.Top? then y else q.n
    ensures q.Step? ==> q.n in PNodes(q)
  {
  }

  lemma PlugTop(t: Tree)
    ensures Plug(Top, t) == t && PNodes(Top) == {} && forall k :: Bracket(Top, k)
  {
  }

  class Head {
    var root: Node?
    ghost var tree: Tree

    /** The linked nodes form a red-black search tree with consistent parent links. */
    ghost predicate Valid()
      reads this, Nodes(tree)
    {
      At(Top, tree) && RedBlack(tree) && Sorted(InOrder(tree))
    }

    constructor ()
      ensures Valid() && tree == Leaf
    {
      root, tree := null, Leaf;
    }

    /** Hang the subtree reached by `v`, if there is one, below `p`. */
    method SetParent(v: Node?, p: Node?, ghost t: Tree, ghost p0: Node?)
      requires v == Ptr(t) && Distinct(t) && Rep(t, p0)
      modifies (if t.Bin? then {t.n} else {})`parent
      ensures Rep(t, p)
    {
      if v != null {
        assert Rep(t.l, v) && Rep(t.r, v) && v !in Nodes(t.l) && v !in Nodes(t.r);
        v.parent := p;
        assert Rep(t.l, v) && Rep(t.r, v);
      }
    }

    method SetChild(n: Node, s: Side, v: Node?)
      modifies n`left, n`right
      ensures Child(n, s) == v && Child(n, Other(s)) == old(Child(n, Other(s)))
    {
      if s == L { n.left := v; } else { n.right := v; }
    }

    /** `newc` takes the place of `oldc` below `parent`, or as the root. */
    method Relink(parent: Node?, oldc: Node, newc: Node?, ghost z: Path)
      requires parent == PNode(z) && RepPath(z, oldc, root)
      requires PDistinct(z) && oldc !in PNodes(z)
      modifies `root, PNodes(z)`left, PNodes(z)`right
      ensures RepPath(z, newc, root)
    {
      if parent != null {
        assert oldc != Ptr(z.sib);
        if parent.left == oldc {
          parent.left := newc;
        } else {
          parent.right := newc;
        }
      } else {
        root := newc;
      }
    }

    /** First half of a rotation: the middle subtree `b` goes from `tmp` to `elm`, and
        `tmp` takes over `elm`'s parent. */
    method HandOver(s: Side, elm: Node, tmp: Node, ghost p: Node?,
                    ghost a: Tree, ghost ce: Color, ghost b: Tree, ghost cu: Color, ghost c: Tree)
      requires Distinct(Mk(s, a, elm, ce, Mk(s, b, tmp, cu, c)))
      requires Rep(Mk(s, a, elm, ce, Mk(s, b, tmp, cu, c)), p)
      modifies elm`left, elm`right, tmp`parent, Nodes(b)`parent
      ensures Child(elm, s) == Ptr(a) && Child(elm, Other(s)) == Ptr(b)
      ensures Rep(a, elm) && Rep(b, elm) && Rep(c, tmp) && tmp.parent == p
    {
      hide Rep, Nodes, Distinct, Mk;
      Unfold(s, a, elm, ce, Mk(s, b, tmp, cu, c), p);
      Unfold(s, b, tmp, cu, c, elm);
      PtrNodes(b);
      assert allocated(Nodes(a)) && allocated(Nodes(b)) && allocated(Nodes(c));
      var mid := Child(tmp, s);
      SetChild(elm, Other(s), mid);
      SetParent(mid, elm, b, tmp);
      tmp.parent := elm.parent;
    }

    /** The heap below `root` is the tree `Plug(z, t)`; the focus is `t`. */
    ghost predicate At(z: Path, t: Tree)
      reads `root, PNodes(z), Nodes(t)
    {
      ZDistinct(z, t) && Rep(t, PNode(z)) && RepPath(z, Ptr(t), root)
    }

    lemma AtUp(up: Path, s: Side, n: Node, c: Color, sib: Tree, t: Tree)
      ensures At(Step(up, s, n, c, sib), t) <==> At(up, Mk(s, t, n, c, sib))
      ensures PNodes(Step(up, s, n, c, sib)) + Nodes(t) == PNodes(up) + Nodes(Mk(s, t, n, c, sib))
      ensures Plug(Step(up, s, n, c, sib), t) == Plug(up, Mk(s, t, n, c, sib))
    {
    }

    lemma {:induction false} AtTop(z: Path, t: Tree)
      ensures At(z, t) <==> At(Top, Plug(z, t))
      ensures At(z, t) ==> root == Ptr(Plug(z, t)) && Plug(Top, Plug(z, t)) == Plug(z, t)
    {
      if z.Step? {
        AtUp(z.up, z.s, z.n, z.c, z.sib, t);
        AtTop(z.up, Mk(z.s, t, z.n, z.c, z.sib));
      }
    }

    /** Change the colour of the focus. */
    method Paint(n: Node, c: Color, ghost z: Path, ghost s: Side, ghost a: Tree, ghost c0: Color, ghost b: Tree)
      requires At(z, Mk(s, a, n, c0, b))
      modifies n`color
      ensures At(z, Mk(s, a, n, c, b))
    {
      hide Rep, RepPath, Nodes, PNodes, Distinct, PDistinct, Mk;
      Unfold(s, a, n, c0, b, PNode(z));
      Unfold(s, a, n, c, b, PNode(z));
      n.color := c;
      Unfold(s, a, n, c, b, PNode(z));
    }

    /** Rotate towards side `s`: the far child `tmp` comes up and its near subtree
        changes hands. */
    method Rotate(s: Side, elm: Node, ghost z: Path,
                  ghost a: Tree, ghost ce: Color, ghost b: Tree, ghost up: Node, ghost cu: Color, ghost c: Tree)
      returns (tmp: Node)
      requires At(z, Mk(s, a, elm, ce, Mk(s, b, up, cu, c)))
      modifies `root, {elm, up}, Nodes(b), PNodes(z)`left, PNodes(z)`right
      ensures tmp == up
      ensures At(z, Mk(s, Mk(s, a, elm, ce, b), up, cu, c))
    {
      hide Rep, RepPath, Nodes, PNodes, Distinct, PDistinct, Mk;
      Unfold(s, a, elm, ce, Mk(s, b, up, cu, c), PNode(z));
      Unfold(s, b, up, cu, c, elm);
      assert allocated(PNodes(z));
      tmp := Child(elm, Other(s));
      HandOver(s, elm, tmp, PNode(z), a, ce, b, cu, c);
      Unfold(s, Mk(s, a, elm, ce, b), up, cu, c, null);
      Unfold(s, a, elm, ce, b, null);
      ComeUp(s, elm, tmp, z, a, ce, b, cu, c);
    }

    /** Second half of a rotation: `tmp` takes `elm`'s place, with `elm` below it. */
    method ComeUp(s: Side, elm: Node, tmp: Node, ghost z: Path,
                  ghost a: Tree, ghost ce: Color, ghost b: Tree, ghost cu: Color, ghost c: Tree)
      requires ZDistinct(z, Mk(s, Mk(s, a, elm, ce, b), tmp, cu, c))
      requires Child(elm, s) == Ptr(a) && Child(elm, Other(s)) == Ptr(b) && Child(tmp, Other(s)) == Ptr(c)
      requires Rep(a, elm) && Rep(b, elm) && Rep(c, tmp) && RepPath(z, elm, root)
      requires elm.parent == tmp.parent == PNode(z) && elm.color == ce && tmp.color == cu
      modifies `root, elm`parent, tmp`left, tmp`right, PNodes(z)`left, PNodes(z)`right
      ensures At(z, Mk(s, Mk(s, a, elm, ce, b), tmp, cu, c))
    {
      hide Rep, RepPath, Nodes, PNodes, Distinct, PDistinct, Mk;
      Unfold(s, Mk(s, a, elm, ce, b), tmp, cu, c, PNode(z));
      Unfold(s, a, elm, ce, b, tmp);
      assert allocated(Nodes(a)) && allocated(Nodes(b)) && allocated(Nodes(c)) && allocated(PNodes(z));
      Relink(elm.parent, elm, tmp, z);
      SetChild(tmp, s, elm);
      elm.parent := tmp;
      Unfold(s, a, elm, ce, b, tmp);
      Unfold(s, Mk(s, a, elm, ce, b), tmp, cu, c, PNode(z));
    }

    /** Recolour parent, uncle and grandparent; the focus moves to the grandparent. */
    method RecolorUp(s: Side, parent: Node, gparent: Node, uncle: Node,
                     ghost up: Path, ghost cg: Color, ghost u: Tree, ghost sp: Side, ghost cp: Color,
                     ghost sib: Tree, ghost t: Tree)
      requires u.Bin? && u.n == uncle
      requires At(Step(Step(up, s, gparent, cg, u), sp, parent, cp, sib), t)
      modifies uncle`color, parent`color, gparent`color
      ensures At(up, Mk(s, Mk(sp, t, parent, Black, sib), gparent, Red, Painted(u, Black)))
    {
      hide At, Plug;
      ghost var z := Step(up, s, gparent, cg, u);
      AtUp(z, sp, parent, cp, sib, t);
      AtUp(up, s, gparent, cg, u, Mk(sp, t, parent, cp, sib));
      AtUp(up, Other(s), gparent, cg, Mk(sp, t, parent, cp, sib), u);
      Paint(uncle, Black, Step(up, Other(s), gparent, cg, Mk(sp, t, parent, cp, sib)), L, u.l, u.c, u.r);
      ghost var u' := Painted(u, Black);
      AtUp(up, Other(s), gparent, cg, Mk(sp, t, parent, cp, sib), u');
      AtUp(up, s, gparent, cg, u', Mk(sp, t, parent, cp, sib));
      Paint(parent, Black, Step(up, s, gparent, cg, u'), sp, t, cp, sib);
      AtUp(up, s, gparent, cg, u', Mk(sp, t, parent, Black, sib));
      Paint(gparent, Red, up, s, Mk(sp, t, parent, Black, sib), cg, u');
    }

    /** What the fields around the focus hold. */
    lemma Look(z: Path, t: Tree)
      requires At(z, t)
      ensures t.Bin? ==> t.n.parent == PNode(z) && t.n.color == t.c && t.n.left == Ptr(t.l) && t.n.right == Ptr(t.r)
      ensures z.Step? ==> Child(z.n, z.s) == Ptr(t) && Child(z.n, Other(z.s)) == Ptr(z.sib)
      ensures z.Step? ==> z.n.parent == PNode(z.up) && z.n.color == z.c
      ensures z.Step? && Ptr(t) == Ptr(z.sib) ==> t.Leaf? && z.sib.Leaf?
      ensures z.Step? && z.sib.Bin? ==> z.sib.n.color == z.sib.c
      ensures (z.Top? <==> Ptr(t) == root)
    {
      PtrNodes(t);
      if z.Step? {
        PtrNodes(z.sib);
        RootOnPath(z, Ptr(t));
      }
    }

    lemma {:induction false} RootOnPath(z: Path, hole: Node?)
      requires z.Step? && RepPath(z, hole, root)
      ensures root in PNodes(z)
    {
      if z.up.Step? {
        RootOnPath(z.up, z.n);
      }
    }

    /** The inner grandchild comes up over its parent, so that the two reds are in line. */
    method StraightenUp(s: Side, elm: Node, parent: Node, ghost z: Path, ghost sib: Tree, ghost a: Tree, ghost b: Tree)
      requires At(Step(z, Other(s), parent, Red, sib), Mk(s, a, elm, Red, b))
      modifies `root, PNodes(z) + {parent} + Nodes(sib) + Nodes(Mk(s, a, elm, Red, b))
      ensures At(Step(z, s, elm, Red, b), Mk(s, sib, parent, Red, a))
    {
      hide At, PNodes, Nodes;
      AtUp(z, Other(s), parent, Red, sib, Mk(s, a, elm, Red, b));
      Unfold(s, a, elm, Red, b, null);
      var tmp := Rotate(s, parent, z, sib, Red, a, elm, Red, b);
      AtUp(z, s, elm, Red, b, Mk(s, sib, parent, Red, a));
    }

    /** Parent black, grandparent red, and the parent comes up over the grandparent. */
    method RotateUp(s: Side, parent: Node, gparent: Node,
                    ghost up: Path, ghost cg: Color, ghost uncle: Tree, ghost sib: Tree, ghost t: Tree)
      requires At(Step(Step(up, s, gparent, cg, uncle), s, parent, Red, sib), t)
      modifies `root, PNodes(up) + {gparent, parent} + Nodes(sib)
      ensures At(Step(up, s, parent, Black, Mk(s, sib, gparent, Red, uncle)), t)
    {
      hide At, PNodes, Nodes;
      ghost var z := Step(up, s, gparent, cg, uncle);
      AtUp(z, s, parent, Red, sib, t);
      Paint(parent, Black, z, s, t, Red, sib);
      AtUp(up, s, gparent, cg, uncle, Mk(s, t, parent, Black, sib));
      Paint(gparent, Red, up, s, Mk(s, t, parent, Black, sib), cg, uncle);
      var tmp := Rotate(Other(s), gparent, up, uncle, Red, sib, parent, Black, t);
      AtUp(up, s, parent, Black, Mk(s, sib, gparent, Red, uncle), t);
    }

    /** One round of RB_INSERT_COLOR, below a red parent. */
    method InsertRound(e: Node, p: Node, ghost z0: Path, ghost t0: Tree)
      returns (elm: Node, ghost z: Path, ghost t: Tree)
      requires At(z0, t0) && Ptr(t0) == e && PNode(z0) == p && InsertInv(z0, t0) && z0.c == Red
      modifies `root, PNodes(z0) + Nodes(t0)
      ensures At(z, t) && Ptr(t) == elm && InsertInv(z, t) && Len(z) < Len(z0)
      ensures InOrder(Plug(z, t)) == InOrder(Plug(z0, t0))
    {
      hide At, Balanced, NoRedRed, PBalanced, PColored, InsertInv, Nodes, PNodes, Plug, InOrder;
      var parent: Node := p;
      elm, z, t := e, z0, t0;
      Look(z, t);
      RedParentHasParent(z, t);
      ghost var up, cg, u, sib := z.up.up, z.up.c, z.up.sib, z.sib;
      AtUp(z.up, z.s, parent, Red, sib, t);
      Look(z.up, Mk(z.s, t, parent, Red, sib));
      var gparent := parent.parent;
      var s := if parent == gparent.left then L else R;
      var tmp := Child(gparent, Other(s));
      PtrNodes(u);
      StepFoot(up, s, gparent, cg, u);
      StepFoot(z.up, z.s, parent, Red, sib);
      assert Len(z) == 2 + Len(up);
      if tmp != null && tmp.color == Red {
        InsertRecolor(up, s, gparent, cg, u, z.s, parent, sib, t);
        RecolorUp(s, parent, gparent, tmp, up, cg, u, z.s, Red, sib, t);
        elm := gparent;
        z, t := up, Mk(s, Mk(z.s, t, parent, Black, sib), gparent, Red, Painted(u, Black));
      } else {
        if Child(parent, Other(s)) == elm {
          ghost var a, b := Kid(t, s), Kid(t, Other(s));
          assert z.s == Other(s) && t == Mk(s, a, elm, Red, b);
          InsertStraighten(up, s, gparent, cg, u, parent, sib, a, elm, b);
          StraightenUp(s, elm, parent, z.up, sib, a, b);
          z, t := Step(z.up, s, elm, Red, b), Mk(s, sib, parent, Red, a);
          SameFoot(z, t, z0, t0);
          StepFoot(z.up, s, elm, Red, b);
          tmp := parent;
          parent := elm;
          elm := tmp;
        }
        InsertRotate(up, s, gparent, cg, u, parent, z.sib, t);
        RotateUp(s, parent, gparent, up, cg, u, z.sib, t);
        z := Step(up, s, parent, Black, Mk(s, z.sib, gparent, Red, u));
        assert Len(z) == 1 + Len(up);
      }
    }

    /** RB_INSERT_COLOR: repair the tree around the freshly linked red node `e`. */
    method InsertColor(e: Node, ghost z0: Path, ghost t0: Tree) returns (ghost tr: Tree, ghost rounds: nat)
      requires At(z0, t0) && Ptr(t0) == e && InsertInv(z0, t0)
      modifies `root, PNodes(z0) + Nodes(t0)
      ensures At(Top, tr) && RedBlack(tr) && InOrder(tr) == InOrder(Plug(z0, t0))
      ensures rounds <= Len(z0)
    {
      hide At, Balanced, NoRedRed, PBalanced, PColored, InsertInv, Nodes, PNodes, Plug, InOrder, Len;
      var elm: Node := e;
      ghost var z, t := z0, t0;
      Look(z, t);
      var parent := elm.parent;
      rounds := 0;
      while parent != null && parent.color == Red
        invariant At(z, t) && Ptr(t) == elm && InsertInv(z, t)
        invariant parent == elm.parent
        invariant InOrder(Plug(z, t)) == InOrder(Plug(z0, t0)) && rounds + Len(z) <= Len(z0)
        decreases Len(z)
      {
        Look(z, t);
        SameFoot(z, t, z0, t0);
        elm, z, t := InsertRound(elm, parent, z, t);
        Look(z, t);
        parent := elm.parent;
        rounds := rounds + 1;
      }
      Look(z, t);
      InsertDone(z, t);
      tr := Plug(z, t);
      AtTop(z, t);
      SameFoot(Top, tr, z0, t0);
      PlugTop(tr);
      PtrNodes(tr);
      Paint(root, Black, Top, L, tr.l, tr.c, tr.r);
      tr := Painted(tr, Black);
    }

    /** Link `elm` as a red leaf at the empty place below the path `z`. */
    method LinkLeaf(elm: Node, parent: Node?, comp: int, ghost z: Path)
      requires At(z, Leaf) && parent == PNode(z) && elm !in PNodes(z)
      requires z.Step? ==> (comp < 0 <==> z.s == L)
      modifies `root, elm`left, elm`right, elm`parent, elm`color, PNodes(z)`left, PNodes(z)`right
      ensures At(z, Bin(Leaf, elm, Red, Leaf))
    {
      elm.parent, elm.left, elm.right, elm.color := parent, null, null, Red;
      if parent != null {
        if comp < 0 {
          parent.left := elm;
        } else {
          parent.right := elm;
        }
      } else {
        root := elm;
      }
    }

    /** RB_INSERT, with the number of nodes searched and rounds of repair. */
    method Insert(elm: Node) returns (r: Node?, ghost steps: nat)
      requires Valid()
      modifies this, elm, Nodes(tree)
      ensures Valid()
      ensures r != null ==> r in InOrder(tree) && r.key == elm.key && tree == old(tree)
      ensures r != null ==> unchanged(this, elm)
      ensures r == null ==> forall x :: x in old(InOrder(tree)) ==> x.key != elm.key
      ensures r == null ==> elm in InOrder(tree) && Without(InOrder(tree), elm) == old(InOrder(tree))
      ensures steps <= 2 * Height(old(tree)) && Logarithmic(old(tree))
    {
      hide Len, Height, Logarithmic, At, RedBlack, Sorted, Nodes, PNodes, Plug, InOrder, Without, Bracket, InsertInv;
      var tmp := root;
      var parent: Node? := null;
      var comp := 0;
      ghost var z, t := Top, tree;
      steps := 0;
      PlugTop(tree);
      LenTop();
      IsLogarithmic(tree);
      Look(Top, tree);
      while tmp != null
        invariant Valid() && unchanged(this, elm)
        invariant At(z, t) && Plug(z, t) == tree && Bracket(z, elm.key)
        invariant tmp == Ptr(t) && parent == PNode(z) && steps == Len(z)
        invariant z.Step? ==> (comp < 0 <==> z.s == L)
        decreases t
      {
        Look(z, t);
        assert t == Bin(t.l, t.n, t.c, t.r);
        parent := tmp;
        steps := steps + 1;
        HeightBin(t);
        LenStep(z, L, t.n, t.c, t.r);
        LenStep(z, R, t.n, t.c, t.l);
        Deep(z, t);
        comp := elm.key - parent.key;
        if comp < 0 {
          DescendLeft(z, t.l, t.n, t.c, t.r, elm.key);
          AtUp(z, L, t.n, t.c, t.r, t.l);
          tmp := tmp.left;
          z, t := Step(z, L, t.n, t.c, t.r), t.l;
        } else if comp > 0 {
          tmp := tmp.right;
          DescendRight(z, t.l, t.n, t.c, t.r, elm.key);
          AtUp(z, R, t.n, t.c, t.l, t.r);
          z, t := Step(z, R, t.n, t.c, t.l), t.r;
        } else {
          PlugNodes(z, t);
          PtrNodes(t);
          InOrderNodes(tree);
          assert tmp in SetOf(InOrder(tree));
          return tmp, steps;
        }
      }
      Deep(z, t);
      PlugNodes(z, t);
      AbsentAtLeaf(z, elm.key);
      InOrderNodes(tree);
      assert elm !in SetOf(InOrder(tree));
      LinkLeaf(elm, parent, comp, z);
      InsertStart(z, elm);
      PlugNodes(z, Bin(Leaf, elm, Red, Leaf));
      LeafNodes(elm);
      ghost var tr, rounds := InsertColor(elm, z, Bin(Leaf, elm, Red, Leaf));
      assert allocated(Nodes(tr));
      tree := tr;
      return null, steps + rounds;
    }

    // ---------- removal ----------

    /** Change the colour of the sibling of the focus. */
    method PaintSibling(n: Node, col: Color, ghost z: Path, ghost w: Tree, ghost t: Tree)
      requires z.Step? && w == z.sib && w.Bin? && w.n == n && At(z, t)
      modifies n`color
      ensures At(z.(sib := Painted(w, col)), t)
    {
      hide At, Mk, PNodes, Nodes, Plug;
      ghost var s, p, c, up := z.s, z.n, z.c, z.up;
      AtUp(up, s, p, c, w, t);
      MkMirror(s, t, p, c, w);
      AtUp(up, Other(s), p, c, t, w);
      BinMk(w);
      Paint(n, col, Step(up, Other(s), p, c, t), L, w.l, w.c, w.r);
      ghost var w' := Painted(w, col);
      BinMk(w');
      AtUp(up, Other(s), p, c, t, w');
      MkMirror(s, t, p, c, w');
      AtUp(up, s, p, c, w', t);
    }

    /** A red sibling comes up, so that the focus gets a black one. */
    method RedSibling(s: Side, parent: Node, w: Node, ghost up: Path, ghost t: Tree, ghost wn: Tree, ghost wf: Tree)
      requires At(Step(up, s, parent, Black, Mk(s, wn, w, Red, wf)), t)
      modifies `root, PNodes(up), parent, w, Nodes(wn)
      ensures At(Step(Step(up, s, w, Black, wf), s, parent, Red, wn), t)
    {
      hide At, PNodes, Nodes, Plug;
      PaintSibling(w, Black, Step(up, s, parent, Black, Mk(s, wn, w, Red, wf)), Mk(s, wn, w, Red, wf), t);
      AtUp(up, s, parent, Black, Mk(s, wn, w, Black, wf), t);
      Paint(parent, Red, up, s, t, Black, Mk(s, wn, w, Black, wf));
      var tmp := Rotate(s, parent, up, t, Red, wn, w, Black, wf);
      AtUp(up, s, w, Black, wf, Mk(s, t, parent, Red, wn));
      AtUp(Step(up, s, w, Black, wf), s, parent, Red, wn, t);
    }

    /** A red near nephew comes up over the black sibling. */
    method NearNephew(s: Side, w: Node, n: Node,
                      ghost up: Path, ghost p: Node, ghost c: Color, ghost t: Tree, ghost x: Tree, ghost y: Tree,
                      ghost wf: Tree)
      requires At(Step(up, s, p, c, Mk(s, Mk(s, x, n, Red, y), w, Black, wf)), t)
      modifies `root, PNodes(up), p, Nodes(t), w, n, Nodes(y)
      ensures At(Step(up, s, p, c, Mk(s, x, n, Black, Mk(s, y, w, Red, wf))), t)
    {
      hide At, PNodes, Nodes, Plug;
      ghost var z, near := Step(up, Other(s), p, c, t), Mk(s, x, n, Red, y);
      AtUp(up, s, p, c, Mk(s, near, w, Black, wf), t);
      AtUp(up, Other(s), p, c, t, Mk(s, near, w, Black, wf));
      AtUp(z, s, w, Black, wf, near);
      Paint(n, Black, Step(z, s, w, Black, wf), s, x, Red, y);
      AtUp(z, s, w, Black, wf, Mk(s, x, n, Black, y));
      Paint(w, Red, z, s, Mk(s, x, n, Black, y), Black, wf);
      StepFoot(up, Other(s), p, c, t);
      var tmp := Rotate(Other(s), w, z, wf, Red, y, n, Black, x);
      AtUp(up, Other(s), p, c, t, Mk(s, x, n, Black, Mk(s, y, w, Red, wf)));
      AtUp(up, s, p, c, Mk(s, x, n, Black, Mk(s, y, w, Red, wf)), t);
    }

    /** The sibling with a red far child comes up over the parent. */
    method FarNephew(s: Side, parent: Node, w: Node, f: Node,
                     ghost up: Path, ghost c: Color, ghost t: Tree, ghost wn: Tree, ghost wf: Tree)
      requires wf.Bin? && wf.n == f && parent.color == c
      requires At(Step(up, s, parent, c, Mk(s, wn, w, Black, wf)), t)
      modifies `root, PNodes(up), parent, w, f, Nodes(wn)
      ensures At(up, Mk(s, Mk(s, t, parent, Black, wn), w, c, Painted(wf, Black)))
    {
      hide At, PNodes, Nodes, Plug;
      ghost var z := Step(up, s, parent, c, Mk(s, wn, w, Black, wf));
      PaintSibling(w, parent.color, z, z.sib, t);
      AtUp(up, s, parent, c, Mk(s, wn, w, c, wf), t);
      Paint(parent, Black, up, s, t, c, Mk(s, wn, w, c, wf));
      ghost var z' := Step(up, Other(s), parent, Black, t);
      AtUp(up, Other(s), parent, Black, t, Mk(s, wn, w, c, wf));
      AtUp(z', Other(s), w, c, wn, wf);
      Paint(f, Black, Step(z', Other(s), w, c, wn), L, wf.l, wf.c, wf.r);
      AtUp(z', Other(s), w, c, wn, Painted(wf, Black));
      AtUp(up, Other(s), parent, Black, t, Mk(s, wn, w, c, Painted(wf, Black)));
      var tmp := Rotate(s, parent, up, t, Black, wn, w, c, Painted(wf, Black));
    }

    /** The last round of RB_REMOVE_COLOR: a black sibling with a red child. */
    method Settle(s: Side, parent: Node, w: Node, ghost z: Path, ghost t: Tree) returns (ghost tr: Tree)
      requires z.Step? && At(z, t) && RemoveCase(z, t) && z.n == parent && z.s == s
      requires z.sib.Bin? && z.sib.n == w && z.sib.c == Black && (IsRed(z.sib.l) || IsRed(z.sib.r))
      modifies `root, PNodes(z) + Nodes(t)
      ensures At(Top, tr) && RedBlack(tr) && InOrder(tr) == InOrder(Plug(z, t))
    {
      hide At, Balanced, NoRedRed, PBalanced, PColored, RemoveCase, RemoveInv, Nodes, RedBlack, Plug, InOrder;
      var tmp: Node := w;
      ghost var up, c, wt := z.up, z.c, z.sib;
      ghost var wn, wf := Kid(wt, s), Kid(wt, Other(s));
      LookSibling(z, t);
      Unfold(s, wn, w, Black, wf, null);
      PtrNodes(wf);
      var far := Child(tmp, Other(s));
      if far == null || far.color == Black {
        ghost var x, y := Kid(wn, s), Kid(wn, Other(s));
        assert wt == Mk(s, Mk(s, x, wn.n, Red, y), w, Black, wf);
        RemoveNearNephew(up, s, parent, c, t, x, wn.n, y, w, wf);
        Unfold(s, x, wn.n, Red, y, null);
        var near := Child(tmp, s);
        if near != null {
          NearNephew(s, w, near, up, parent, c, t, x, y, wf);
        }
        wt := Mk(s, x, wn.n, Black, Mk(s, y, w, Red, wf));
        wn, wf := x, Mk(s, y, w, Red, wf);
        Unfold(s, y, w, Red, Kid(wf, Other(s)), null);
        Look(z.(sib := wt), t);
        LookSibling(z.(sib := wt), t);
        tmp := Child(parent, Other(s));
        far := Child(tmp, Other(s));
      }
      Look(z.(sib := wt), t);
      RemoveFarNephew(up, s, parent, c, t, wn, tmp, wf);
      FarNephew(s, parent, tmp, far, up, c, t, wn, wf);
      tr := Plug(up, Mk(s, Mk(s, t, parent, Black, wn), tmp, c, Painted(wf, Black)));
      AtTop(up, Mk(s, Mk(s, t, parent, Black, wn), tmp, c, Painted(wf, Black)));
    }

    lemma LookSibling(z: Path, t: Tree)
      requires At(z, t) && z.Step? && z.sib.Bin?
      ensures z.sib.n.left == Ptr(z.sib.l) && z.sib.n.right == Ptr(z.sib.r)
      ensures z.sib.l.Bin? ==> z.sib.l.n.color == z.sib.l.c
      ensures z.sib.r.Bin? ==> z.sib.r.n.color == z.sib.r.c
    {
      assert Rep(z.sib, z.n) && Rep(z.sib.l, z.sib.n) && Rep(z.sib.r, z.sib.n);
    }

    /** One round of RB_REMOVE_COLOR; the last one leaves `elm` at the root. */
    method RemoveRound(p: Node, e: Node?, ghost z0: Path, ghost t0: Tree)
      returns (parent: Node?, elm: Node?, done: bool, ghost z: Path, ghost t: Tree)
      requires At(z0, t0) && e == Ptr(t0) && p == PNode(z0) && RemoveCase(z0, t0)
      modifies `root, PNodes(z0) + Nodes(t0)
      ensures At(z, t) && elm == Ptr(t) && RemoveInv(z, t) && InOrder(Plug(z, t)) == InOrder(Plug(z0, t0))
      ensures if done then z.Top? else parent == PNode(z) && (Len(z) < Len(z0) || (Len(z) == Len(z0) && IsRed(t)))
    {
      hide At, Balanced, NoRedRed, PBalanced, PColored, RemoveInv, Nodes, PNodes, Plug, InOrder;
      z, t := z0, t0;
      Look(z, t);
      SiblingExists(z, t);
      var s := if p.left == e then L else R;
      var tmp := Child(p, Other(s));
      assert z.s == s;
      StepFoot(z.up, s, p, z.c, z.sib);
      if tmp.color == Red {
        ghost var wn, wf := Kid(z.sib, s), Kid(z.sib, Other(s));
        Unfold(s, wn, tmp, Red, wf, null);
        RemoveRedSibling(z.up, s, p, t, wn, tmp, wf);
        RedSibling(s, p, tmp, z.up, t, wn, wf);
        z := Step(Step(z.up, s, tmp, Black, wf), s, p, Red, wn);
        assert Len(z) == 1 + Len(z0);
        Look(z, t);
        tmp := Child(p, Other(s));
        SiblingExists(z, t);
      }
      SameFoot(z, t, z0, t0);
      StepFoot(z.up, s, p, z.c, z.sib);
      LookSibling(z, t);
      PtrNodes(z.sib);
      if (tmp.left == null || tmp.left.color == Black) && (tmp.right == null || tmp.right.color == Black) {
        done := false;
        RemoveBlackNephews(z.up, s, p, z.c, t, z.sib);
        PaintSibling(tmp, Red, z, z.sib, t);
        AtUp(z.up, s, p, z.c, Painted(z.sib, Red), t);
        t := Mk(s, t, p, z.c, Painted(z.sib, Red));
        z := z.up;
        Look(z, t);
        elm := p;
        parent := elm.parent;
      } else {
        done, parent := true, p;
        t := Settle(s, p, tmp, z, t);
        z := Top;
        PlugTop(t);
        TopRemoveInv(t);
        Look(z, t);
        elm := root;
      }
    }

    /** RB_REMOVE_COLOR: repair the tree when paths through `elm0` miss a black node. */
    method RemoveColor(parent0: Node?, elm0: Node?, ghost z0: Path, ghost t0: Tree) 
      returns (ghost tr: Tree, ghost rounds: nat)
      requires At(z0, t0) && elm0 == Ptr(t0) && parent0 == PNode(z0) && RemoveInv(z0, t0)
      modifies `root, PNodes(z0) + Nodes(t0)
      ensures At(Top, tr) && RedBlack(tr) && InOrder(tr) == InOrder(Plug(z0, t0))
      ensures rounds <= Len(z0) + 1
    {
      hide At, Balanced, NoRedRed, PBalanced, PColored, RemoveInv, Nodes, PNodes, Plug, InOrder, Len, RedBlack;
      var elm, parent := elm0, parent0;
      ghost var z, t := z0, t0;
      rounds := 0;
      Look(z, t);
      while (elm == null || elm.color == Black) && elm != root
        invariant At(z, t) && elm == Ptr(t) && parent == PNode(z) && RemoveInv(z, t)
        invariant InOrder(Plug(z, t)) == InOrder(Plug(z0, t0))
        invariant rounds + Len(z) <= Len(z0) + if IsRed(t) then 1 else 0
        decreases Len(z), if IsRed(t) then 0 else 1
      {
        Look(z, t);
        SameFoot(z, t, z0, t0);
        var done;
        parent, elm, done, z, t := RemoveRound(parent, elm, z, t);
        rounds := rounds + 1;
        if done {
          break;
        }
      }
      Look(z, t);
      RemoveDone(z, t);
      if elm != null {
        SameFoot(z, t, z0, t0);
        PtrNodes(t);
        BinMk(t);
        Paint(elm, Black, z, L, t.l, t.c, t.r);
        t := Painted(t, Black);
      }
      AtTop(z, t);
      tr := Plug(z, t);
    }

    lemma {:induction false} AtCat(q: Path, z: Path, t: Tree)
      ensures At(Cat(q, z), t) <==> At(z, Plug(q, t))
    {
      if q.Step? {
        AtUp(Cat(q.up, z), q.s, q.n, q.c, q.sib, t);
        AtCat(q.up, z, Mk(q.s, t, q.n, q.c, q.sib));
      }
    }

    /** Follow left links to the least element of the subtree `r`. */
    method Leftmost(n: Node, ghost z: Path, ghost r: Tree) returns (elm: Node, ghost q: Path, ghost t: Tree)
      requires At(z, r) && n == Ptr(r)
      ensures AllLeft(q) && Plug(q, t) == r && At(Cat(q, z), t)
      ensures t.Bin? && t.n == elm && t.l == Leaf
    {
      hide At, Plug, Nodes, PNodes;
      elm, q, t := n, Top, r;
      PlugTop(r);
      Look(z, r);
      while elm.left != null
        invariant AllLeft(q) && Plug(q, t) == r && At(Cat(q, z), t) && Ptr(t) == elm
        decreases t
      {
        Look(Cat(q, z), t);
        BinMk(t);
        AtUp(Cat(q, z), L, t.n, t.c, t.r, t.l);
        AtUp(q, L, t.n, t.c, t.r, t.l);
        elm := elm.left;
        q, t := Step(q, L, t.n, t.c, t.r), t.l;
        Look(Cat(q, z), t);
      }
      Look(Cat(q, z), t);
    }

    /** Take out `elm`, which has at most one child: the child takes its place. */
    method Unlink(elm: Node, child: Node?, parent: Node?, ghost z: Path, ghost s: Side, ghost c: Color, ghost ct: Tree)
      requires At(z, Mk(s, Leaf, elm, c, ct)) && child == Ptr(ct) && parent == PNode(z)
      modifies `root, Nodes(ct)`parent, PNodes(z)`left, PNodes(z)`right
      ensures At(z, ct) && elm !in PNodes(z) + Nodes(ct)
    {
      hide Rep, RepPath, Nodes, PNodes, Distinct, PDistinct, Mk;
      Unfold(s, Leaf, elm, c, ct, parent);
      PtrNodes(ct);
      assert allocated(Nodes(ct)) && allocated(PNodes(z));
      SetParent(child, parent, ct, elm);
      Relink(parent, elm, child, z);
    }

    /** Put `y` in the place of `x`, with all of `x`'s links and its colour. */
    method Substitute(x: Node, y: Node, ghost z: Path, ghost l: Tree, ghost c: Color, ghost r: Tree)
      requires At(z, Bin(l, x, c, r)) && l.Bin? && y != x && y !in PNodes(z) + Nodes(l) + Nodes(r)
      modifies `root, y`left, y`right, y`parent, y`color, Nodes(l)`parent, Nodes(r)`parent
      modifies PNodes(z)`left, PNodes(z)`right
      ensures At(z, Bin(l, y, c, r))
    {
      hide Rep, RepPath, Nodes, PNodes, Distinct, PDistinct;
      Unfold(L, l, x, c, r, PNode(z));
      PtrNodes(l);
      PtrNodes(r);
      assert allocated(Nodes(l)) && allocated(Nodes(r)) && allocated(PNodes(z));
      y.left, y.right, y.parent, y.color := x.left, x.right, x.parent, x.color;
      Relink(x.parent, x, y, z);
      SetParent(x.left, y, l, x);
      SetParent(x.right, y, r, x);
      Unfold(L, l, y, c, r, PNode(z));
    }

    lemma OwnPlace(z: Path, l: Tree, x: Node, c: Color, r: Tree)
      requires At(z, Bin(l, x, c, r))
      ensures x !in Nodes(l) + Nodes(r)
    {
    }

    /** The two-children case of RB_REMOVE: the successor `y` of `x` is unlinked and takes
        the place of `x`. */
    method Splice(x: Node, ghost z: Path, ghost l: Tree, ghost c: Color, ghost r: Tree)
      returns (child: Node?, parent: Node?, color: Color, ghost q: Path, ghost y: Node, ghost ct: Tree)
      requires At(z, Bin(l, x, c, r)) && l.Bin? && r.Bin?
      modifies `root, PNodes(z) + Nodes(Bin(l, x, c, r))
      ensures AllLeft(q) && Plug(q, Bin(Leaf, y, color, ct)) == r
      ensures At(Cat(q, Step(z, R, y, c, l)), ct)
      ensures child == Ptr(ct) && parent == PNode(Cat(q, Step(z, R, y, c, l)))
    {
      hide At, Plug, Nodes, PNodes, AllLeft, Cat;
      ghost var t;
      var elm: Node;
      ghost var zx := Step(z, R, x, c, l);
      AtUp(z, R, x, c, l, r);
      Look(z, Bin(l, x, c, r));
      elm, q, t := Leftmost(x.right, zx, r);
      ghost var zz := Cat(q, zx);
      Look(zz, t);
      child, parent, color, ct, y := elm.right, elm.parent, elm.color, t.r, elm;
      PlugCat(q, zx, t);
      PlugNodes(zz, t);
      PlugNodes(zx, r);
      LeastFoot(t);
      Unlink(elm, child, parent, zz, L, color, ct);
      AtCat(q, zx, ct);
      AtUp(z, R, x, c, l, Plug(q, ct));
      PlugNodes(zz, ct);
      PlugCat(q, zx, ct);
      PlugNodes(zx, Plug(q, ct));
      StepFoot(z, R, x, c, l);
      PCat(q, z, x, y, c, l);
      PlugNodes(q, ct);
      OwnPlace(z, l, x, c, Plug(q, ct));
      if elm.parent == x {
        parent := elm;
      }
      Substitute(x, elm, z, l, c, Plug(q, ct));
      AtUp(z, R, elm, c, l, Plug(q, ct));
      AtCat(q, Step(z, R, elm, c, l), ct);
    }

    /** RB_REMOVE, with the number of nodes passed on the way to the successor and rounds of repair. */
    method Remove(x: Node) returns (r: Node, ghost steps: nat)
      requires Valid() && x in Nodes(tree)
      modifies this, Nodes(tree)
      ensures Valid() && r == x && InOrder(tree) == Without(old(InOrder(tree)), x)
      ensures steps <= 2 * Height(old(tree)) && Logarithmic(old(tree))
    {
      hide Len, Height, Logarithmic, At, Plug, Nodes, PNodes, RedBlack, Sorted, InOrder, Without, RemoveInv, Cat;
      ghost var z, t := Locate(Top, tree, x);
      PlugTop(tree);
      AtTop(z, t);
      Look(z, t);
      PlugNodes(z, t);
      BinMk(t);
      IsLogarithmic(tree);
      Deep(z, t);
      HeightBin(t);
      steps := 0;
      var child, parent, color;
      ghost var z', ct;
      if x.left == null || x.right == null {
        ghost var s;
        if x.left == null {
          child, s, ct := x.right, L, t.r;
        } else {
          child, s, ct := x.left, R, t.l;
        }
        parent, color, z' := x.parent, x.color, z;
        Unfold(s, Leaf, x, t.c, ct, null);
        RemoveStart(z, s, x, color, ct);
        UnlinkOrder(z, s, x, color, ct);
        Unlink(x, child, parent, z, s, color, ct);
      } else {
        ghost var q, y;
        child, parent, color, q, y, ct := Splice(x, z, t.l, t.c, t.r);
        z' := Cat(q, Step(z, R, y, t.c, t.l));
        SpliceDone(z, t.l, x, t.c, q, y, color, ct);
        SpliceDeep(z, t.l, x, t.c, q, y, color, ct);
        steps := Len(q);
      }
      PlugNodes(z', ct);
      InOrderNodes(Plug(z', ct));
      WithoutSet(InOrder(old(tree)), x);
      InOrderNodes(old(tree));
      ghost var tr, rounds: nat;
      rounds := 0;
      if color == Black {
        tr, rounds := RemoveColor(parent, child, z', ct);
      } else {
        AtTop(z', ct);
        tr := Plug(z', ct);
      }
      assert allocated(Nodes(tr));
      tree := tr;
      r := x;
      steps := steps + rounds;
    }

    // ---------- queries ----------

    /** RB_FIND, with the number of nodes it visits. */
    method Find(k: int) returns (r: Node?, ghost steps: nat)
      requires Valid()
      ensures r != null ==> r in InOrder(tree) && r.key == k
      ensures r == null ==> forall x :: x in InOrder(tree) ==> x.key != k
      ensures steps <= Height(tree) && Logarithmic(tree)
      ensures Pow2(steps) <= (|InOrder(tree)| + 1) * (|InOrder(tree)| + 1)
    {
      hide At, RedBlack, Sorted, Nodes, PNodes, Plug, InOrder, Bracket, Pow2;
      var tmp := root;
      ghost var z, t := Top, tree;
      steps := 0;
      PlugTop(tree);
      Look(Top, tree);
      InOrderNodes(tree);
      HeightBound(tree);
      InOrderSize(tree);
      IsLogarithmic(tree);
      while tmp != null
        invariant At(z, t) && Plug(z, t) == tree && Bracket(z, k) && tmp == Ptr(t)
        invariant steps + Height(t) <= Height(tree)
        decreases t
      {
        Look(z, t);
        BinMk(t);
        steps := steps + 1;
        var comp := k - tmp.key;
        if comp < 0 {
          tmp := tmp.left;
          DescendLeft(z, t.l, t.n, t.c, t.r, k);
          AtUp(z, L, t.n, t.c, t.r, t.l);
          z, t := Step(z, L, t.n, t.c, t.r), t.l;
        } else if comp > 0 {
          tmp := tmp.right;
          DescendRight(z, t.l, t.n, t.c, t.r, k);
          AtUp(z, R, t.n, t.c, t.l, t.r);
          z, t := Step(z, R, t.n, t.c, t.l), t.r;
        } else {
          PlugNodes(z, t);
          PtrNodes(t);
          assert tmp in SetOf(InOrder(tree));
          Pow2Mono(steps, Height(tree));
          return tmp, steps;
        }
      }
      Pow2Mono(steps, Height(tree));
      AbsentAtLeaf(z, k);
      r := null;
    }

    /** RB_NEXT */
    method Next(x: Node) returns (r: Node?)
      requires Valid() && x in Nodes(tree)
      ensures Follows(InOrder(tree), x, r)
    {
      hide At, Plug, Nodes, PNodes, RedBlack, Sorted, InOrder, Before, After;
      ghost var z, t := Locate(Top, tree, x);
      PlugTop(tree);
      AtTop(z, t);
      Look(z, t);
      ghost var a, b := Before(z) + InOrder(t.l), InOrder(t.r) + After(z);
      FocusOrder(z, t);
      assert InOrder(tree) == a + [x] + b;
      var elm: Node := x;
      if elm.right != null {
        ghost var q, y;
        AtUp(z, R, x, t.c, t.l, t.r);
        BinMk(t);
        r, q, y := Leftmost(elm.right, Step(z, R, x, t.c, t.l), t.r);
        LeastFirst(q, y);
      } else {
        LeafOrder();
        if elm.parent != null && elm == elm.parent.left {
          r := elm.parent;
          StepAfter(z);
        } else {
          ghost var up, f := z, t;
          while elm.parent != null && elm == elm.parent.right
            invariant At(up, f) && Ptr(f) == elm && After(up) == After(z)
            decreases up
          {
            Look(up, f);
            StepAfter(up);
            elm := elm.parent;
            AtUp(up.up, up.s, up.n, up.c, up.sib, f);
            up, f := up.up, Mk(up.s, f, up.n, up.c, up.sib);
          }
          Look(up, f);
          StepAfter(up);
          r := elm.parent;
        }
      }
      FollowsAt(a, x, b, r);
    }

    /** RB_MINMAX */
    method MinMax(val: int) returns (r: Node?)
      requires Valid()
      ensures r == if InOrder(tree) == [] then null
                   else if val < 0 then InOrder(tree)[0] else InOrder(tree)[|InOrder(tree)| - 1]
    {
      hide At, Plug, Nodes, PNodes, RedBlack, Sorted, InOrder, Before, After;
      var tmp := root;
      r := null;
      ghost var z, t := Top, tree;
      PlugTop(tree);
      Look(z, t);
      StepAfter(z);
      while tmp != null
        invariant At(z, t) && Plug(z, t) == tree && tmp == Ptr(t) && r == PNode(z)
        invariant if val < 0 then Before(z) == [] && (z.Step? ==> z.s == L)
                  else After(z) == [] && (z.Step? ==> z.s == R)
        decreases t
      {
        Look(z, t);
        BinMk(t);
        r := tmp;
        if val < 0 {
          tmp := tmp.left;
          AtUp(z, L, t.n, t.c, t.r, t.l);
          z, t := Step(z, L, t.n, t.c, t.r), t.l;
        } else {
          tmp := tmp.right;
          AtUp(z, R, t.n, t.c, t.l, t.r);
          z, t := Step(z, R, t.n, t.c, t.l), t.r;
        }
        StepAfter(z);
      }
      StepAfter(z);
      PlugInOrder(z, t);
      LeafOrder();
    }

    /** RB_FOREACH */
    method Foreach() returns (visited: seq<Node>)
      requires Valid()
      ensures visited == InOrder(tree)
    {
      hide At, Nodes, RedBlack, Sorted, InOrder;
      InOrderNodes(tree);
      assert allocated(Nodes(tree));
      visited := [];
      var x := MinMax(-1);
      while x != null
        invariant Valid()
        invariant |visited| <= |InOrder(tree)| && visited == InOrder(tree)[..|visited|]
        invariant x == if |visited| < |InOrder(tree)| then InOrder(tree)[|visited|] else null
        decreases |InOrder(tree)| - |visited|
      {
        assert x in SetOf(InOrder(tree));
        OnePlace(InOrder(tree));
        visited := visited + [x];
        x := Next(x);
      }
    }
  }

  ghost function Nth(s: seq<Node>, i: nat): Node? {
    if i < |s| then s[i] else null
  }

  /** `r` comes right after `x` in `s`, or is null if `x` comes last. */
  ghost predicate Follows(s: seq<Node>, x: Node, r: Node?) {
    exists i :: 0 <= i < |s| && s[i] == x && r == Nth(s, i + 1)
  }

  lemma FollowsAt(a: seq<Node>, x: Node, b: seq<Node>, r: Node?)
    requires r == if b == [] then null else b[0]
    ensures Follows(a + [x] + b, x, r)
  {
    var s := a + [x] + b;
    assert s[|a|] == x;
  }

  lemma FocusOrder(z: Path, t: Tree)
    requires t.Bin?
    ensures InOrder(Plug(z, t)) == (Before(z) + InOrder(t.l)) + [t.n] + (InOrder(t.r) + After(z))
  {
    PlugRight(z, t.l, t.n, t.c, t.r);
  }

  lemma LeastFirst(q: Path, y: Tree)
    requires AllLeft(q) && y.Bin? && y.l == Leaf
    ensures InOrder(Plug(q, y)) != [] && InOrder(Plug(q, y))[0] == y.n
  {
    AllLeftBefore(q);
    PlugInOrder(q, y);
  }

  lemma LeafOrder()
    ensures InOrder(Leaf) == []
  {
  }

  lemma StepAfter(z: Path)
    ensures After(z) == if z.Top? then [] else if z.s == L then [z.n] + InOrder(z.sib) + After(z.up) else After(z.up)
    ensures Before(z) == if z.Top? then [] else if z.s == L then Before(z.up) else Before(z.up) + InOrder(z.sib) + [z.n]
  {
  }

  lemma OnePlace(s: seq<Node>)
    requires Sorted(s)
    ensures forall i, j :: 0 <= i < |s| && 0 <= j < |s| && s[i] == s[j] ==> i == j
  {
  }
}
