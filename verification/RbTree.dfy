/** Red-black trees as values: the invariants of a valid tree, a focus-plus-path
    view of a tree (the focus is the element a fix-up loop stands on), and the
    facts about rotations and recolourings that the heap code in RbHeap needs. */
module RbTree {
  import opened SeqLemmas
  import opened Sides

  datatype Color = Red | Black

  /** A tree entry: the element's key and the four fields of RB_ENTRY. */
  class Node {
    const key: int
    var left: Node?
    var right: Node?
    var parent: Node?
    var color: Color

    constructor (k: int)
      ensures key == k
    {
      key := k;
    }
  }

  /** The abstract shape of a linked tree; `n` names the element at each place. */
  datatype Tree = Leaf | Bin(l: Tree, n: Node, c: Color, r: Tree)

  /** What surrounds a focus: the nodes from the focus's parent up to the root,
      each with the side on which the focus lies and the subtree on the other side. */
  datatype Path = Top | Step(up: Path, s: Side, n: Node, c: Color, sib: Tree)

  /** The tree whose `s` subtree is `a` and whose other subtree is `b`. */
  function Mk(s: Side, a: Tree, n: Node, c: Color, b: Tree): Tree {
    if s == L then Bin(a, n, c, b) else Bin(b, n, c, a)
  }

  function Kid(t: Tree, s: Side): Tree
    requires t.Bin?
  {
    if s == L then t.l else t.r
  }

  /** The whole tree: `t` put back in its surroundings. */
  function Plug(z: Path, t: Tree): Tree {
    match z
    case Top => t
    case Step(up, s, n, c, sib) => Plug(up, Mk(s, t, n, c, sib))
  }

  function Len(z: Path): nat {
    if z.Top? then 0 else 1 + Len(z.up)
  }

  // ---------- elements ----------

  function Nodes(t: Tree): set<Node> {
    match t
    case Leaf => {}
    case Bin(l, n, c, r) => Nodes(l) + {n} + Nodes(r)
  }

  function PNodes(z: Path): set<Node> {
    match z
    case Top => {}
    case Step(up, s, n, c, sib) => PNodes(up) + {n} + Nodes(sib)
  }

  /** No element occurs twice. */
  ghost predicate Distinct(t: Tree) {
    match t
    case Leaf => true
    case Bin(l, n, c, r) =>
      Distinct(l) && Distinct(r) && n !in Nodes(l) && n !in Nodes(r) && Nodes(l) !! Nodes(r)
  }

  ghost predicate PDistinct(z: Path) {
    match z
    case Top => true
    case Step(up, s, n, c, sib) =>
      && PDistinct(up) && Distinct(sib)
      && n !in PNodes(up) && n !in Nodes(sib) && PNodes(up) !! Nodes(sib)
  }

  ghost predicate ZDistinct(z: Path, t: Tree) {
    PDistinct(z) && Distinct(t) && PNodes(z) !! Nodes(t)
  }

  function InOrder(t: Tree): seq<Node> {
    match t
    case Leaf => []
    case Bin(l, n, c, r) => InOrder(l) + [n] + InOrder(r)
  }

  /** The elements in order before and after the focus. */
  function Before(z: Path): seq<Node> {
    match z
    case Top => []
    case Step(up, s, n, c, sib) =>
      if s == L then Before(up) else Before(up) + InOrder(sib) + [n]
  }

  function After(z: Path): seq<Node> {
    match z
    case Top => []
    case Step(up, s, n, c, sib) =>
      if s == L then [n] + InOrder(sib) + After(up) else After(up)
  }

  lemma {:induction false} PlugInOrder(z: Path, t: Tree)
    ensures InOrder(Plug(z, t)) == Before(z) + InOrder(t) + After(z)
  {
    match z
    case Top =>
    case Step(up, s, n, c, sib) =>
      PlugInOrder(up, Mk(s, t, n, c, sib));
      if s == L {
        Regroup(Before(up), InOrder(t), [n], InOrder(sib), After(up));
      } else {
        Regroup(Before(up), InOrder(sib), [n], InOrder(t), After(up));
      }
  }

  lemma {:induction false} PlugNodes(z: Path, t: Tree)
    ensures Nodes(Plug(z, t)) == PNodes(z) + Nodes(t)
  {
    match z
    case Top =>
    case Step(up, s, n, c, sib) =>
      PlugNodes(up, Mk(s, t, n, c, sib));
  }

  function SetOf(s: seq<Node>): set<Node> { set n | n in s }

  lemma {:induction false} InOrderNodes(t: Tree)
    ensures SetOf(InOrder(t)) == Nodes(t)
  {
    match t
    case Leaf =>
    case Bin(l, n, c, r) =>
      InOrderNodes(l);
      InOrderNodes(r);
  }

  // ---------- search order ----------

  ghost predicate Sorted(s: seq<Node>) {
    forall i, j :: 0 <= i < j < |s| ==> s[i].key < s[j].key
  }

  ghost predicate AllBelow(s: seq<Node>, k: int) { forall n :: n in s ==> n.key < k }

  ghost predicate AllAbove(s: seq<Node>, k: int) { forall n :: n in s ==> k < n.key }

  lemma SortedSplit(a: seq<Node>, n: Node, b: seq<Node>)
    requires Sorted(a + [n] + b)
    ensures Sorted(a) && Sorted(b) && AllBelow(a, n.key) && AllAbove(b, n.key)
  {
    var s := a + [n] + b;
    assert s[|a|] == n;
    assert forall i :: 0 <= i < |a| ==> s[i] == a[i];
    assert forall i :: 0 <= i < |b| ==> s[|a| + 1 + i] == b[i];
  }

  lemma SortedJoin(a: seq<Node>, n: Node, b: seq<Node>)
    requires Sorted(a) && Sorted(b) && AllBelow(a, n.key) && AllAbove(b, n.key)
    ensures Sorted(a + [n] + b)
  {
    assert forall i :: 0 <= i < |a| ==> a[i] in a;
    assert forall i :: 0 <= i < |b| ==> b[i] in b;
  }

  /** The focus is where a search for `k` is bound to arrive. */
  ghost predicate Bracket(z: Path, k: int) { AllBelow(Before(z), k) && AllAbove(After(z), k) }

  lemma DescendLeft(z: Path, l: Tree, n: Node, c: Color, r: Tree, k: int)
    requires Sorted(InOrder(Plug(z, Bin(l, n, c, r)))) && Bracket(z, k) && k < n.key
    ensures Bracket(Step(z, L, n, c, r), k)
  {
    PlugInOrder(z, Bin(l, n, c, r));
    Regroup(Before(z), InOrder(l), [n], InOrder(r), After(z));
    SortedSplit(Before(z) + InOrder(l), n, InOrder(r) + After(z));
    assert forall x :: x in InOrder(r) ==> x in InOrder(r) + After(z);
  }

  lemma DescendRight(z: Path, l: Tree, n: Node, c: Color, r: Tree, k: int)
    requires Sorted(InOrder(Plug(z, Bin(l, n, c, r)))) && Bracket(z, k) && n.key < k
    ensures Bracket(Step(z, R, n, c, l), k)
  {
    PlugInOrder(z, Bin(l, n, c, r));
    Regroup(Before(z), InOrder(l), [n], InOrder(r), After(z));
    SortedSplit(Before(z) + InOrder(l), n, InOrder(r) + After(z));
    assert forall x :: x in InOrder(l) ==> x in Before(z) + InOrder(l);
  }

  /** A search that ends at an empty place proves the key absent. */
  lemma AbsentAtLeaf(z: Path, k: int)
    requires Bracket(z, k)
    ensures forall x :: x in InOrder(Plug(z, Leaf)) ==> x.key != k
  {
    PlugInOrder(z, Leaf);
  }

  /** The sequence without the element `n`. */
  function Without(s: seq<Node>, n: Node): seq<Node> {
    if s == [] then []
    else (if s[0] == n then [] else [s[0]]) + Without(s[1..], n)
  }

  lemma {:induction false} WithoutAbsent(s: seq<Node>, n: Node)
    requires n !in s
    ensures Without(s, n) == s
  {
    if s != [] {
      WithoutAbsent(s[1..], n);
    }
  }

  lemma {:induction false} WithoutConcat(a: seq<Node>, b: seq<Node>, n: Node)
    ensures Without(a + b, n) == Without(a, n) + Without(b, n)
  {
    if a == [] {
      assert a + b == b;
    } else {
      assert (a + b)[1..] == a[1..] + b;
      WithoutConcat(a[1..], b, n);
    }
  }

  lemma WithoutMiddle(a: seq<Node>, n: Node, b: seq<Node>)
    requires n !in a && n !in b
    ensures Without(a + [n] + b, n) == a + b
  {
    hide Without;
    WithoutConcat(a + [n], b, n);
    WithoutConcat(a, [n], n);
    WithoutAbsent(a, n);
    WithoutAbsent(b, n);
    WithoutSelf(n);
  }

  lemma WithoutSelf(n: Node)
    ensures Without([n], n) == []
  {
  }

  // ---------- balance ----------

  predicate IsRed(t: Tree) { t.Bin? && t.c == Red }

  /** Black nodes on the leftmost path; on a balanced tree, on every path. */
  function BH(t: Tree): nat {
    match t
    case Leaf => 0
    case Bin(l, n, c, r) => BH(l) + if c == Black then 1 else 0
  }

  /** Every path from the root to a leaf has the same number of black nodes. */
  predicate Balanced(t: Tree) {
    match t
    case Leaf => true
    case Bin(l, n, c, r) => Balanced(l) && Balanced(r) && BH(l) == BH(r)
  }

  /** Every red node has black children. */
  predicate NoRedRed(t: Tree) {
    match t
    case Leaf => true
    case Bin(l, n, c, r) =>
      NoRedRed(l) && NoRedRed(r) && (c == Red ==> !IsRed(l) && !IsRed(r))
  }

  predicate RedBlack(t: Tree) { Balanced(t) && NoRedRed(t) && !IsRed(t) }

  /** The surroundings are balanced around a focus of black height `h`. */
  predicate PBalanced(z: Path, h: nat) {
    match z
    case Top => true
    case Step(up, s, n, c, sib) =>
      Balanced(sib) && BH(sib) == h && PBalanced(up, h + if c == Black then 1 else 0)
  }

  /** The surroundings have no red node with a red child and a black root, when the
      focus counts as red or not according to `red`. */
  predicate PColored(z: Path, red: bool) {
    match z
    case Top => !red
    case Step(up, s, n, c, sib) =>
      && NoRedRed(sib) && (c == Red ==> !red && !IsRed(sib)) && PColored(up, c == Red)
  }

  lemma {:induction false} PlugRedBlack(z: Path, t: Tree)
    ensures RedBlack(Plug(z, t)) <==>
            Balanced(t) && NoRedRed(t) && PBalanced(z, BH(t)) && PColored(z, IsRed(t))
  {
    match z
    case Top =>
    case Step(up, s, n, c, sib) =>
      PlugRedBlack(up, Mk(s, t, n, c, sib));
  }

  // ---------- what the fix-up loops keep ----------

  lemma SameInOrder(z: Path, t: Tree, t': Tree)
    requires InOrder(t) == InOrder(t')
    ensures InOrder(Plug(z, t)) == InOrder(Plug(z, t'))
  {
    PlugInOrder(z, t);
    PlugInOrder(z, t');
  }

  lemma RotateInOrder(s: Side, a: Tree, n: Node, cn: Color, b: Tree, m: Node, cm: Color, c: Tree)
    ensures InOrder(Mk(s, Mk(s, a, n, cn, b), m, cm, c)) == InOrder(Mk(s, a, n, cn, Mk(s, b, m, cm, c)))
  {
    if s == L {
      Shift(InOrder(a), n, InOrder(b), m, InOrder(c));
    } else {
      Shift(InOrder(c), m, InOrder(b), n, InOrder(a));
    }
  }

  /** The order does not depend on colours, nor on the shape of the subtrees. */
  lemma SameMk(s: Side, a: Tree, a': Tree, n: Node, c: Color, c': Color, b: Tree, b': Tree)
    requires InOrder(a) == InOrder(a') && InOrder(b) == InOrder(b')
    ensures InOrder(Mk(s, a, n, c, b)) == InOrder(Mk(s, a', n, c', b'))
  {
  }

  /** Two views with the same elements in order have the same elements. */
  lemma SameFoot(z: Path, t: Tree, z': Path, t': Tree)
    requires InOrder(Plug(z, t)) == InOrder(Plug(z', t'))
    ensures PNodes(z) + Nodes(t) == PNodes(z') + Nodes(t')
  {
    hide *;
    PlugNodes(z, t);
    PlugNodes(z', t');
    InOrderNodes(Plug(z, t));
    InOrderNodes(Plug(z', t'));
  }

  /** Before each round of the insert fix-up: a valid tree, except that the focus is red
      and may sit below a red parent, or be the root. */
  predicate InsertInv(z: Path, t: Tree) {
    IsRed(t) && Balanced(t) && NoRedRed(t) && PBalanced(z, BH(t)) && PColored(z, false)
  }

  /** A red parent has a black parent of its own. */
  lemma RedParentHasParent(z: Path, t: Tree)
    requires InsertInv(z, t) && z.Step? && z.c == Red
    ensures z.up.Step? && z.up.c == Black && IsRed(t)
  {
    assert PColored(z.up, true);
  }

  predicate InsertCase(z: Path, t: Tree) {
    InsertInv(z, t) && z.Step? && z.c == Red && z.up.Step?
  }

  function Painted(t: Tree, c: Color): Tree
    requires t.Bin?
  {
    t.(c := c)
  }

  lemma InsertRecolor(up: Path, sg: Side, g: Node, cg: Color, uncle: Tree, sp: Side, p: Node, sib: Tree, t: Tree)
    requires InsertCase(Step(Step(up, sg, g, cg, uncle), sp, p, Red, sib), t) && IsRed(uncle)
    ensures InsertInv(up, Mk(sg, Mk(sp, t, p, Black, sib), g, Red, Painted(uncle, Black)))
    ensures InOrder(Plug(up, Mk(sg, Mk(sp, t, p, Black, sib), g, Red, Painted(uncle, Black))))
         == InOrder(Plug(Step(Step(up, sg, g, cg, uncle), sp, p, Red, sib), t))
  {
    SameInOrder(up, Mk(sg, Mk(sp, t, p, Black, sib), g, Red, Painted(uncle, Black)),
                Mk(sg, Mk(sp, t, p, Red, sib), g, cg, uncle));
    assert PBalanced(Step(up, sg, g, cg, uncle), BH(t)) && PColored(Step(up, sg, g, cg, uncle), true);
    assert Balanced(Mk(sp, t, p, Black, sib)) && NoRedRed(Mk(sp, t, p, Black, sib));
  }

  lemma InsertStraighten(up: Path, s: Side, g: Node, cg: Color, uncle: Tree, p: Node, sib: Tree,
                         a: Tree, e: Node, b: Tree)
    requires InsertCase(Step(Step(up, s, g, cg, uncle), Other(s), p, Red, sib), Mk(s, a, e, Red, b))
    ensures InsertCase(Step(Step(up, s, g, cg, uncle), s, e, Red, b), Mk(s, sib, p, Red, a))
    ensures InOrder(Plug(Step(Step(up, s, g, cg, uncle), s, e, Red, b), Mk(s, sib, p, Red, a)))
         == InOrder(Plug(Step(Step(up, s, g, cg, uncle), Other(s), p, Red, sib), Mk(s, a, e, Red, b)))
  {
    RotateInOrder(s, sib, p, Red, a, e, Red, b);
    SameInOrder(Step(up, s, g, cg, uncle), Mk(s, Mk(s, sib, p, Red, a), e, Red, b),
                Mk(s, sib, p, Red, Mk(s, a, e, Red, b)));
  }

  lemma InsertRotate(up: Path, s: Side, g: Node, cg: Color, uncle: Tree, p: Node, sib: Tree, t: Tree)
    requires InsertCase(Step(Step(up, s, g, cg, uncle), s, p, Red, sib), t) && !IsRed(uncle)
    ensures InsertInv(Step(up, s, p, Black, Mk(s, sib, g, Red, uncle)), t)
    ensures InOrder(Plug(Step(up, s, p, Black, Mk(s, sib, g, Red, uncle)), t))
         == InOrder(Plug(Step(Step(up, s, g, cg, uncle), s, p, Red, sib), t))
  {
    RotateInOrder(s, t, p, Black, sib, g, Red, uncle);
    SameInOrder(up, Mk(s, t, p, Black, Mk(s, sib, g, Red, uncle)), Mk(s, Mk(s, t, p, Red, sib), g, cg, uncle));
    assert PBalanced(Step(up, s, g, cg, uncle), BH(t)) && PColored(Step(up, s, g, cg, uncle), true);
  }

  /** When the loop stops, painting the root black makes the tree valid. */
  lemma InsertDone(z: Path, t: Tree)
    requires InsertInv(z, t) && (z.Step? ==> z.c == Black)
    ensures Plug(z, t).Bin? && RedBlack(Painted(Plug(z, t), Black))
    ensures InOrder(Painted(Plug(z, t), Black)) == InOrder(Plug(z, t))
  {
    PlugRedBlack(z, t);
    PlugBin(z, t);
  }

  lemma {:induction false} PlugBin(z: Path, t: Tree)
    requires z.Step? || t.Bin?
    ensures Plug(z, t).Bin?
  {
    if z.Step? {
      PlugBin(z.up, Mk(z.s, t, z.n, z.c, z.sib));
    }
  }

  /** Linking a new red element at the place a search arrived at. */
  lemma InsertStart(z: Path, n: Node)
    requires RedBlack(Plug(z, Leaf)) && Sorted(InOrder(Plug(z, Leaf))) && Bracket(z, n.key)
    ensures InsertInv(z, Bin(Leaf, n, Red, Leaf))
    ensures Sorted(InOrder(Plug(z, Bin(Leaf, n, Red, Leaf))))
    ensures n in InOrder(Plug(z, Bin(Leaf, n, Red, Leaf)))
    ensures Without(InOrder(Plug(z, Bin(Leaf, n, Red, Leaf))), n) == InOrder(Plug(z, Leaf))
  {
    hide Plug, Without, Sorted, Before, After;
    PlugRedBlack(z, Leaf);
    PlugInOrder(z, Leaf);
    PlugInOrder(z, Bin(Leaf, n, Red, Leaf));
    assert InOrder(Bin(Leaf, n, Red, Leaf)) == [n];
    InsertedOrder(Before(z), n, After(z));
  }

  lemma SortedParts(a: seq<Node>, b: seq<Node>)
    requires Sorted(a + [] + b)
    ensures Sorted(a) && Sorted(b)
  {
    assert forall i :: 0 <= i < |a| ==> a[i] == (a + [] + b)[i];
    assert forall i :: 0 <= i < |b| ==> b[i] == (a + [] + b)[|a| + i];
  }

  lemma InsertedOrder(a: seq<Node>, n: Node, b: seq<Node>)
    requires Sorted(a + [] + b) && AllBelow(a, n.key) && AllAbove(b, n.key)
    ensures Sorted(a + [n] + b) && n in a + [n] + b && Without(a + [n] + b, n) == a + [] + b
  {
    hide Without, Sorted;
    SortedParts(a, b);
    SortedJoin(a, n, b);
    WithoutMiddle(a, n, b);
    assert (a + [n] + b)[|a|] == n;
  }

  // ---------- removal ----------

  /** Before each round of the remove fix-up: paths through the focus are one black node
      short; a red focus may have red children, since it is about to be painted black. */
  predicate RemoveInv(z: Path, t: Tree) {
    && Balanced(t) && (t.Bin? ==> NoRedRed(t.l) && NoRedRed(t.r))
    && (z.Step? ==> PBalanced(z, BH(t) + 1)) && PColored(z, false)
  }

  /** The fix-up still has work to do. */
  predicate RemoveCase(z: Path, t: Tree) {
    RemoveInv(z, t) && z.Step? && !IsRed(t)
  }

  /** The sibling of a focus that is one black node short is never missing. */
  lemma SiblingExists(z: Path, t: Tree)
    requires RemoveCase(z, t)
    ensures z.sib.Bin?
    ensures z.sib.c == Red ==> z.c == Black && Kid(z.sib, z.s).Bin? && Kid(z.sib, z.s).c == Black
  {
  }

  lemma RemoveRedSibling(up: Path, s: Side, p: Node, t: Tree, wn: Tree, w: Node, wf: Tree)
    requires RemoveCase(Step(up, s, p, Black, Mk(s, wn, w, Red, wf)), t)
    ensures RemoveCase(Step(Step(up, s, w, Black, wf), s, p, Red, wn), t)
    ensures InOrder(Plug(Step(Step(up, s, w, Black, wf), s, p, Red, wn), t))
         == InOrder(Plug(Step(up, s, p, Black, Mk(s, wn, w, Red, wf)), t))
  {
    RotateInOrder(s, t, p, Red, wn, w, Black, wf);
    SameInOrder(up, Mk(s, Mk(s, t, p, Red, wn), w, Black, wf), Mk(s, t, p, Black, Mk(s, wn, w, Red, wf)));
  }

  lemma PColoredWeaken(z: Path)
    requires PColored(z, true)
    ensures PColored(z, false)
  {
  }

  lemma RemoveBlackNephews(up: Path, s: Side, p: Node, c: Color, t: Tree, w: Tree)
    requires RemoveCase(Step(up, s, p, c, w), t) && w.Bin? && w.c == Black && !IsRed(w.l) && !IsRed(w.r)
    ensures RemoveInv(up, Mk(s, t, p, c, Painted(w, Red)))
    ensures InOrder(Plug(up, Mk(s, t, p, c, Painted(w, Red)))) == InOrder(Plug(Step(up, s, p, c, w), t))
  {
    SameInOrder(up, Mk(s, t, p, c, Painted(w, Red)), Mk(s, t, p, c, w));
    if c == Red {
      PColoredWeaken(up);
    }
  }

  lemma NearNephewUp(s: Side, x: Tree, n: Node, y: Tree, w: Node, wf: Tree)
    requires var v := Mk(s, Mk(s, x, n, Red, y), w, Black, wf); Balanced(v) && NoRedRed(v) && !IsRed(wf)
    ensures var v := Mk(s, Mk(s, x, n, Red, y), w, Black, wf);
            var v' := Mk(s, x, n, Black, Mk(s, y, w, Red, wf));
            Balanced(v') && NoRedRed(v') && BH(v') == BH(v)
  {
    assert Balanced(Mk(s, x, n, Red, y)) && NoRedRed(Mk(s, x, n, Red, y));
    assert Balanced(Mk(s, y, w, Red, wf)) && NoRedRed(Mk(s, y, w, Red, wf));
  }

  lemma RemoveNearNephew(up: Path, s: Side, p: Node, c: Color, t: Tree,
                         x: Tree, n: Node, y: Tree, w: Node, wf: Tree)
    requires RemoveCase(Step(up, s, p, c, Mk(s, Mk(s, x, n, Red, y), w, Black, wf)), t) && !IsRed(wf)
    ensures RemoveCase(Step(up, s, p, c, Mk(s, x, n, Black, Mk(s, y, w, Red, wf))), t)
    ensures InOrder(Plug(Step(up, s, p, c, Mk(s, x, n, Black, Mk(s, y, w, Red, wf))), t))
         == InOrder(Plug(Step(up, s, p, c, Mk(s, Mk(s, x, n, Red, y), w, Black, wf)), t))
  {
    NearNephewUp(s, x, n, y, w, wf);
    RotateInOrder(s, x, n, Black, y, w, Red, wf);
    SameMk(s, Mk(s, x, n, Black, y), Mk(s, x, n, Red, y), w, Red, Black, wf, wf);
    SameMk(s, t, t, p, c, c, Mk(s, x, n, Black, Mk(s, y, w, Red, wf)), Mk(s, Mk(s, x, n, Red, y), w, Black, wf));
    SameInOrder(up, Mk(s, t, p, c, Mk(s, x, n, Black, Mk(s, y, w, Red, wf))),
                Mk(s, t, p, c, Mk(s, Mk(s, x, n, Red, y), w, Black, wf)));
  }

  lemma RemoveFarNephew(up: Path, s: Side, p: Node, c: Color, t: Tree, wn: Tree, w: Node, wf: Tree)
    requires RemoveCase(Step(up, s, p, c, Mk(s, wn, w, Black, wf)), t) && IsRed(wf)
    ensures RedBlack(Plug(up, Mk(s, Mk(s, t, p, Black, wn), w, c, Painted(wf, Black))))
    ensures InOrder(Plug(up, Mk(s, Mk(s, t, p, Black, wn), w, c, Painted(wf, Black))))
         == InOrder(Plug(Step(up, s, p, c, Mk(s, wn, w, Black, wf)), t))
  {
    var r := Mk(s, Mk(s, t, p, Black, wn), w, c, Painted(wf, Black));
    assert Balanced(Mk(s, wn, w, Black, wf)) && NoRedRed(Mk(s, wn, w, Black, wf));
    assert Balanced(Mk(s, t, p, Black, wn)) && NoRedRed(Mk(s, t, p, Black, wn));
    var f := Painted(wf, Black);
    assert Balanced(wf) && NoRedRed(wf) && BH(wf) == BH(wn) == BH(t);
    assert Balanced(f) && NoRedRed(f) && BH(f) == BH(wf) + 1;
    assert Balanced(r) && NoRedRed(r);
    PlugRedBlack(up, r);
    RotateInOrder(s, t, p, Black, wn, w, c, Painted(wf, Black));
    SameMk(s, wn, wn, w, c, Black, Painted(wf, Black), wf);
    SameMk(s, t, t, p, Black, c, Mk(s, wn, w, c, Painted(wf, Black)), Mk(s, wn, w, Black, wf));
    SameInOrder(up, r, Mk(s, t, p, c, Mk(s, wn, w, Black, wf)));
  }

  lemma RemoveDone(z: Path, t: Tree)
    requires RemoveInv(z, t) && (IsRed(t) || z.Top?)
    ensures t.Leaf? ==> RedBlack(Plug(z, t))
    ensures t.Bin? ==> RedBlack(Plug(z, Painted(t, Black)))
    ensures t.Bin? ==> InOrder(Plug(z, Painted(t, Black))) == InOrder(Plug(z, t))
  {
    if t.Bin? {
      PlugRedBlack(z, Painted(t, Black));
      SameInOrder(z, Painted(t, Black), t);
    }
  }

  /** Unlinking an element that has at most one child: nothing to repair if it was red,
      one black node short at its place if it was black. */
  lemma RemoveStart(z: Path, s: Side, n: Node, c: Color, child: Tree)
    requires RedBlack(Plug(z, Mk(s, Leaf, n, c, child)))
    ensures c == Red ==> RedBlack(Plug(z, child))
    ensures c == Black ==> RemoveInv(z, child)
  {
    PlugRedBlack(z, Mk(s, Leaf, n, c, child));
    PlugRedBlack(z, child);
    if c == Red {
      PColoredWeaken(z);
    }
  }

  /** The path `q` continued by the path `z`. */
  function Cat(q: Path, z: Path): Path {
    match q
    case Top => z
    case Step(up, s, n, c, sib) => Step(Cat(up, z), s, n, c, sib)
  }

  lemma {:induction false} PlugCat(q: Path, z: Path, t: Tree)
    ensures Plug(Cat(q, z), t) == Plug(z, Plug(q, t))
  {
    match q
    case Top =>
    case Step(up, s, n, c, sib) => PlugCat(up, z, Mk(s, t, n, c, sib));
  }

  /** Only left turns: the focus holds the least elements. */
  predicate AllLeft(q: Path) { q.Step? ==> q.s == L && AllLeft(q.up) }

  lemma {:induction false} AllLeftBefore(q: Path)
    requires AllLeft(q)
    ensures Before(q) == []
  {
    if q.Step? {
      AllLeftBefore(q.up);
    }
  }

  /** Balance and colours do not depend on which element carries them. */
  lemma {:induction false} RenameKeeps(q: Path, up: Path, s: Side, n: Node, m: Node, c: Color, sib: Tree)
    ensures forall h: nat ::
              PBalanced(Cat(q, Step(up, s, n, c, sib)), h) <==> PBalanced(Cat(q, Step(up, s, m, c, sib)), h)
    ensures forall red ::
              PColored(Cat(q, Step(up, s, n, c, sib)), red) <==> PColored(Cat(q, Step(up, s, m, c, sib)), red)
  {
    if q.Step? {
      RenameKeeps(q.up, up, s, n, m, c, sib);
    }
  }

  /** Unlinking the least element `y` of the right subtree of `x` and putting it in the
      place of `x`. */
  lemma SpliceStart(z: Path, l: Tree, x: Node, c: Color, q: Path, y: Node, cy: Color, yr: Tree)
    requires RedBlack(Plug(Cat(q, Step(z, R, x, c, l)), Bin(Leaf, y, cy, yr)))
    ensures cy == Red ==> RedBlack(Plug(Cat(q, Step(z, R, y, c, l)), yr))
    ensures cy == Black ==> RemoveInv(Cat(q, Step(z, R, y, c, l)), yr)
  {
    var zx, zy := Cat(q, Step(z, R, x, c, l)), Cat(q, Step(z, R, y, c, l));
    RenameKeeps(q, z, R, x, y, c, l);
    RemoveStart(zx, L, y, cy, yr);
    PlugRedBlack(zx, yr);
    PlugRedBlack(zy, yr);
    assert zx.Step? && zy.Step?;
  }

  lemma SpliceOrder(z: Path, l: Tree, x: Node, c: Color, q: Path, y: Node, cy: Color, yr: Tree)
    requires AllLeft(q)
    ensures InOrder(Plug(Cat(q, Step(z, R, x, c, l)), Bin(Leaf, y, cy, yr)))
         == (Before(z) + InOrder(l)) + [x] + ([y] + InOrder(yr) + After(q) + After(z))
    ensures InOrder(Plug(Cat(q, Step(z, R, y, c, l)), yr))
         == (Before(z) + InOrder(l)) + ([y] + InOrder(yr) + After(q) + After(z))
  {
    hide InOrder, Plug, Cat, Before, After, AllLeft;
    var t := Bin(Leaf, y, cy, yr);
    PlugCat(q, Step(z, R, x, c, l), t);
    PlugCat(q, Step(z, R, y, c, l), yr);
    PlugRight(z, l, x, c, Plug(q, t));
    PlugRight(z, l, y, c, Plug(q, yr));
    AllLeftBefore(q);
    PlugInOrder(q, t);
    PlugInOrder(q, yr);
    LeastInOrder(y, cy, yr);
    assert (Before(z) + InOrder(l)) + [y] + (([] + InOrder(yr) + After(q)) + After(z))
        == (Before(z) + InOrder(l)) + ([y] + InOrder(yr) + After(q) + After(z));
    assert [] + ([y] + InOrder(yr)) + After(q) == [y] + InOrder(yr) + After(q);
  }

  lemma PlugRight(z: Path, l: Tree, x: Node, c: Color, r: Tree)
    ensures InOrder(Plug(Step(z, R, x, c, l), r)) == (Before(z) + InOrder(l)) + [x] + (InOrder(r) + After(z))
  {
    PlugInOrder(z, Bin(l, x, c, r));
    Regroup(Before(z), InOrder(l), [x], InOrder(r), After(z));
  }

  lemma LeastInOrder(y: Node, cy: Color, yr: Tree)
    ensures InOrder(Bin(Leaf, y, cy, yr)) == [y] + InOrder(yr)
  {
  }

  /** Cutting one element out of a strictly increasing sequence. */
  lemma RemovedOrder(a: seq<Node>, n: Node, b: seq<Node>)
    requires Sorted(a + [n] + b)
    ensures Sorted(a + b) && Without(a + [n] + b, n) == a + b
  {
    hide Without;
    var s := a + [n] + b;
    SortedSplit(a, n, b);
    assert n !in a && n !in b;
    WithoutMiddle(a, n, b);
    assert forall i :: 0 <= i < |a + b| ==> (a + b)[i] == s[if i < |a| then i else i + 1];
  }

  lemma UnlinkOrder(z: Path, s: Side, x: Node, c: Color, ct: Tree)
    requires Sorted(InOrder(Plug(z, Mk(s, Leaf, x, c, ct))))
    ensures Sorted(InOrder(Plug(z, ct)))
    ensures InOrder(Plug(z, ct)) == Without(InOrder(Plug(z, Mk(s, Leaf, x, c, ct))), x)
  {
    hide Without, Sorted, Plug, Before, After;
    PlugInOrder(z, Mk(s, Leaf, x, c, ct));
    PlugInOrder(z, ct);
    var a, m, b := Before(z), InOrder(ct), After(z);
    if s == L {
      assert InOrder(Mk(s, Leaf, x, c, ct)) == [x] + m;
      assert a + ([x] + m) + b == a + [x] + (m + b) && a + m + b == a + (m + b);
      RemovedOrder(a, x, m + b);
    } else {
      assert InOrder(Mk(s, Leaf, x, c, ct)) == m + [x];
      assert a + (m + [x]) + b == (a + m) + [x] + b;
      RemovedOrder(a + m, x, b);
    }
  }

  lemma SpliceDone(z: Path, l: Tree, x: Node, c: Color, q: Path, y: Node, cy: Color, ct: Tree)
    requires AllLeft(q)
    requires var t := Plug(z, Bin(l, x, c, Plug(q, Bin(Leaf, y, cy, ct)))); RedBlack(t) && Sorted(InOrder(t))
    ensures cy == Red ==> RedBlack(Plug(Cat(q, Step(z, R, y, c, l)), ct))
    ensures cy == Black ==> RemoveInv(Cat(q, Step(z, R, y, c, l)), ct)
    ensures Sorted(InOrder(Plug(Cat(q, Step(z, R, y, c, l)), ct)))
    ensures InOrder(Plug(Cat(q, Step(z, R, y, c, l)), ct))
         == Without(InOrder(Plug(z, Bin(l, x, c, Plug(q, Bin(Leaf, y, cy, ct))))), x)
  {
    hide Without, Sorted, InOrder, Cat, Before, After, RedBlack, RemoveInv;
    PlugCat(q, Step(z, R, x, c, l), Bin(Leaf, y, cy, ct));
    SpliceStart(z, l, x, c, q, y, cy, ct);
    SpliceOrder(z, l, x, c, q, y, cy, ct);
    RemovedOrder(Before(z) + InOrder(l), x, [y] + InOrder(ct) + After(q) + After(z));
  }

  lemma {:induction false} WithoutSet(s: seq<Node>, n: Node)
    ensures SetOf(Without(s, n)) == SetOf(s) - {n}
  {
    if s != [] {
      WithoutSet(s[1..], n);
      var h := if s[0] == n then [] else [s[0]];
      assert forall x :: x in s <==> x == s[0] || x in s[1..];
      assert SetOf(s) == {s[0]} + SetOf(s[1..]);
      assert SetOf(Without(s, n)) == SetOf(h) + SetOf(Without(s[1..], n));
    }
  }

  /** Every element has its place. */
  lemma {:induction false} Locate(z: Path, t: Tree, n: Node) returns (z': Path, t': Tree)
    requires n in Nodes(t)
    ensures t'.Bin? && t'.n == n && Plug(z', t') == Plug(z, t)
    decreases t
  {
    if t.n == n {
      z', t' := z, t;
    } else if n in Nodes(t.l) {
      z', t' := Locate(Step(z, L, t.n, t.c, t.r), t.l, n);
    } else {
      z', t' := Locate(Step(z, R, t.n, t.c, t.l), t.r, n);
    }
  }

  // ---------- height ----------

  function Size(t: Tree): nat {
    match t
    case Leaf => 0
    case Bin(l, n, c, r) => Size(l) + 1 + Size(r)
  }

  function Height(t: Tree): nat {
    match t
    case Leaf => 0
    case Bin(l, n, c, r) => 1 + if Height(l) > Height(r) then Height(l) else Height(r)
  }

  function Pow2(n: nat): (p: nat)
    ensures p >= 1
  {
    if n == 0 then 1 else 2 * Pow2(n - 1)
  }

  lemma {:induction false} Pow2Square(n: nat)
    ensures Pow2(2 * n) == Pow2(n) * Pow2(n)
  {
    if n > 0 {
      Pow2Square(n - 1);
      assert Pow2(2 * n) == 2 * Pow2(2 * n - 1) == 4 * Pow2(2 * (n - 1));
    }
  }

  lemma {:induction false} Pow2Mono(m: nat, n: nat)
    requires m <= n
    ensures Pow2(m) <= Pow2(n)
    decreases n
  {
    if m < n {
      Pow2Mono(m, n - 1);
    }
  }

  lemma {:induction false} SizeBound(t: Tree)
    requires Balanced(t)
    ensures Size(t) + 1 >= Pow2(BH(t))
  {
    match t
    case Leaf =>
    case Bin(l, n, c, r) =>
      SizeBound(l);
      SizeBound(r);
  }

  lemma {:induction false} HeightByBlack(t: Tree)
    requires Balanced(t) && NoRedRed(t)
    ensures Height(t) <= 2 * BH(t) + if IsRed(t) then 1 else 0
  {
    match t
    case Leaf =>
    case Bin(l, n, c, r) =>
      HeightByBlack(l);
      HeightByBlack(r);
  }

  /** The height of a red-black tree of n elements is at most 2 lg (n + 1). */
  lemma HeightBound(t: Tree)
    requires RedBlack(t)
    ensures Pow2(Height(t)) <= (Size(t) + 1) * (Size(t) + 1)
  {
    var b := Pow2(BH(t));
    SizeBound(t);
    HeightByBlack(t);
    Pow2Mono(Height(t), 2 * BH(t));
    Pow2Square(BH(t));
    assert b * b <= (Size(t) + 1) * (Size(t) + 1) by {
      MulMono(b, Size(t) + 1);
    }
  }

  lemma MulMono(a: nat, b: nat)
    requires a <= b
    ensures a * a <= b * b
  {
    assert b * b - a * a == (b - a) * (b + a);
  }

  /** The number of nodes above the focus and the height below it add up to no more than the height. */
  lemma {:induction false} Deep(z: Path, t: Tree)
    ensures Len(z) + Height(t) <= Height(Plug(z, t))
  {
    if z.Step? {
      Deep(z.up, Mk(z.s, t, z.n, z.c, z.sib));
    }
  }

  lemma LenTop()
    ensures Len(Top) == 0
  {
  }

  lemma LenStep(up: Path, s: Side, n: Node, c: Color, sib: Tree)
    ensures Len(Step(up, s, n, c, sib)) == Len(up) + 1
  {
  }

  lemma HeightBin(t: Tree)
    requires t.Bin?
    ensures Height(t) >= 1
  {
  }

  lemma {:induction false} LenCat(q: Path, z: Path)
    ensures Len(Cat(q, z)) == Len(q) + Len(z)
  {
    if q.Step? {
      LenCat(q.up, z);
    }
  }

  /** The successor's place is no deeper than the tree is high. */
  lemma SpliceDeep(z: Path, l: Tree, x: Node, c: Color, q: Path, y: Node, cy: Color, ct: Tree)
    ensures Len(q) + Len(Cat(q, Step(z, R, y, c, l))) + 1
         <= 2 * Height(Plug(z, Bin(l, x, c, Plug(q, Bin(Leaf, y, cy, ct)))))
  {
    hide Height, Cat;
    var t := Bin(Leaf, y, cy, ct);
    LenCat(q, Step(z, R, y, c, l));
    LenCat(q, Step(z, R, x, c, l));
    PlugCat(q, Step(z, R, x, c, l), t);
    Deep(Cat(q, Step(z, R, x, c, l)), t);
    HeightBin(t);
  }

  /** The height is at most twice the logarithm of the number of elements plus one. */
  predicate Logarithmic(t: Tree) {
    Pow2(Height(t)) <= (|InOrder(t)| + 1) * (|InOrder(t)| + 1)
  }

  lemma IsLogarithmic(t: Tree)
    requires RedBlack(t)
    ensures Logarithmic(t)
  {
    hide Pow2, Height, InOrder, RedBlack;
    HeightBound(t);
    InOrderSize(t);
  }

  lemma {:induction false} InOrderSize(t: Tree)
    ensures |InOrder(t)| == Size(t)
  {
    match t
    case Leaf =>
    case Bin(l, n, c, r) =>
      InOrderSize(l);
      InOrderSize(r);
  }
}
