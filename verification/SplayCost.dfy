/** What splaying costs.  The potential of a tree is the sum of the ranks of its subtrees, the rank
    being the whole part of the binary logarithm of the size plus one.  Rounds of the splay loop
    plus twice the change of potential are bounded by a logarithm. */
module SplayCost {
  import opened Sides
  import opened Splay

  // ---------- the splay loop as a function ----------

  /** `v` with the node `n` and the subtree `y` put back on the far side of what was looked for. */
  function Wrap(s: Side, v: Tree, n: Node, y: Tree): (r: Tree)
    requires v.Bin?
    ensures r.Bin? && Size(r) == Size(v) + 1 + Size(y)
  {
    MkSize(s, Kid(v, Other(s)), n, y);
    MkSize(s, Kid(v, s), v.n, Mk(s, Kid(v, Other(s)), n, y));
    KidsSize(s, v);
    Mk(s, Kid(v, s), v.n, Mk(s, Kid(v, Other(s)), n, y))
  }

  lemma MkSize(s: Side, a: Tree, n: Node, b: Tree)
    ensures Size(Mk(s, a, n, b)) == Size(a) + 1 + Size(b)
  {
  }

  lemma KidsSize(s: Side, t: Tree)
    requires t.Bin?
    ensures Size(t) == Size(Kid(t, s)) + 1 + Size(Kid(t, Other(s)))
  {
  }

  predicate Halts(p: Probe, t: Tree) {
    t.Leaf? || Cmp(p, t.n) == 0 || Kid(t, Way(p, t)).Leaf?
  }

  /** The side of the root on which the probe lies. */
  function Way(p: Probe, t: Tree): Side
    requires t.Bin?
  {
    if Cmp(p, t.n) < 0 then L else R
  }

  /** The probe lies beyond the child, too. */
  predicate Straight(p: Probe, t: Tree)
    requires t.Bin? && Kid(t, Way(p, t)).Bin?
  {
    Towards(Way(p, t), p, Kid(t, Way(p, t)).n)
  }

  /** The tree that the loop and the assembling make of `t`. */
  function Result(p: Probe, t: Tree): (r: Tree)
    ensures Size(r) == Size(t) && (t.Bin? ==> r.Bin?)
    decreases Size(t)
  {
    if Halts(p, t) then t
    else
      var s := Way(p, t);
      var u, z := Kid(t, s), Kid(t, Other(s));
      KidsSize(s, t);
      if !Straight(p, t) then Wrap(s, Result(p, u), t.n, z)
      else
        var x, yz := Kid(u, s), Mk(s, Kid(u, Other(s)), t.n, z);
        KidsSize(s, u);
        MkSize(s, Kid(u, Other(s)), t.n, z);
        MkSize(s, x, u.n, yz);
        if x.Leaf? then Mk(s, x, u.n, yz) else Wrap(s, Result(p, x), u.n, yz)
  }

  /** How often the loop goes round. */
  function Rounds(p: Probe, t: Tree): nat
    decreases Size(t)
  {
    if t.Leaf? || Cmp(p, t.n) == 0 then 0
    else
      var s := Way(p, t);
      var u := Kid(t, s);
      if u.Leaf? then 1
      else if !Straight(p, t) then 1 + Rounds(p, u)
      else if Kid(u, s).Leaf? then 1 else 1 + Rounds(p, Kid(u, s))
  }

  /** The child on side `s` brought up over the root. */
  function Rotated(s: Side, t: Tree): Tree
    requires t.Bin? && Kid(t, s).Bin?
  {
    var u := Kid(t, s);
    Mk(s, Kid(u, s), u.n, Mk(s, Kid(u, Other(s)), t.n, Kid(t, Other(s))))
  }

  /** One round that ends the loop. */
  lemma LastRound(p: Probe, t: Tree, t': Tree)
    requires t.Bin? && Cmp(p, t.n) != 0
    requires var s := Way(p, t);
             var u := Kid(t, s);
             if u.Leaf? then t' == t
             else Straight(p, t) && Kid(u, s).Leaf? && t' == Rotated(s, t)
    ensures Result(p, t) == t' && Rounds(p, t) == 1
  {
  }

  /** One round that takes away the node `n` and its far subtree `y`, perhaps after a rotation. */
  lemma MoreRounds(p: Probe, t: Tree, x: Tree, n: Node, y: Tree)
    requires t.Bin? && Cmp(p, t.n) != 0 && x.Bin?
    requires var s := Way(p, t);
             var u := Kid(t, s);
             u.Bin? && Mk(s, x, n, y) == if Straight(p, t) then Rotated(s, t) else t
    ensures Result(p, t) == Wrap(Way(p, t), Result(p, x), n, y) && Rounds(p, t) == 1 + Rounds(p, x)
  {
  }

  /** A node linked to the end of a spine is where wrapping puts it. */
  lemma WrapLink(a: Spine, v: Tree, b: Spine, n: Node, y: Tree)
    requires v.Bin?
    ensures Assembled(a, v, Snoc(b, y, n)) == Assembled(a, Wrap(L, v, n, y), b)
    ensures Assembled(Snoc(a, y, n), v, b) == Assembled(a, Wrap(R, v, n, y), b)
  {
  }

  lemma AssembledNone(t: Tree)
    requires t.Bin?
    ensures Assembled(Nil, t, Nil) == t
  {
  }

  lemma NoRounds(p: Probe, t: Tree)
    requires t.Bin? && Cmp(p, t.n) == 0
    ensures Result(p, t) == t && Rounds(p, t) == 0
  {
  }

  // ---------- ranks ----------

  function Lg(n: nat): nat
    requires n > 0
  {
    if n == 1 then 0 else 1 + Lg(n / 2)
  }

  lemma {:induction false} LgMono(m: nat, n: nat)
    requires 0 < m <= n
    ensures Lg(m) <= Lg(n)
  {
    if m > 1 {
      LgMono(m / 2, n / 2);
    }
  }

  /** Of two parts of a whole, one has at most half of it. */
  lemma {:induction false} LgPair(a: nat, b: nat, c: nat)
    requires 0 < a && 0 < b && a + b <= c
    ensures Lg(a) + Lg(b) + 1 <= 2 * Lg(c)
  {
    var m := if a <= b then a else b;
    var n := if a <= b then b else a;
    LgDouble(m);
    LgMono(2 * m, c);
    LgMono(n, c);
  }

  lemma LgDouble(n: nat)
    requires n > 0
    ensures Lg(2 * n) == 1 + Lg(n)
  {
    assert 2 * n / 2 == n;
  }

  function Rank(t: Tree): nat { Lg(Size(t) + 1) }

  function Potential(t: Tree): nat {
    if t.Leaf? then 0 else Potential(t.l) + Rank(t) + Potential(t.r)
  }

  lemma RankMono(t: Tree, t': Tree)
    requires Size(t) <= Size(t')
    ensures Rank(t) <= Rank(t')
  {
    hide Lg, Size;
    LgMono(Size(t) + 1, Size(t') + 1);
  }

  lemma RankPair(a: Tree, b: Tree, c: Tree)
    requires Size(a) + Size(b) < Size(c)
    ensures Rank(a) + Rank(b) + 1 <= 2 * Rank(c)
  {
    hide Lg, Size;
    LgPair(Size(a) + 1, Size(b) + 1, Size(c) + 1);
  }

  lemma MkPotential(s: Side, a: Tree, n: Node, b: Tree)
    ensures Size(Mk(s, a, n, b)) == Size(a) + 1 + Size(b)
    ensures Potential(Mk(s, a, n, b)) == Potential(a) + Rank(Mk(s, a, n, b)) + Potential(b)
    ensures Kid(Mk(s, a, n, b), s) == a && Kid(Mk(s, a, n, b), Other(s)) == b
  {
  }

  lemma KidsPotential(s: Side, t: Tree)
    requires t.Bin?
    ensures Size(t) == Size(Kid(t, s)) + 1 + Size(Kid(t, Other(s)))
    ensures Potential(t) == Potential(Kid(t, s)) + Rank(t) + Potential(Kid(t, Other(s)))
  {
  }

  lemma SameRank(t: Tree, t': Tree)
    requires Size(t) == Size(t')
    ensures Rank(t) == Rank(t')
  {
  }

  /** The new inner node is all that wrapping adds, beyond a root of the whole size. */
  lemma WrapPotential(s: Side, v: Tree, n: Node, y: Tree)
    requires v.Bin?
    ensures Size(Wrap(s, v, n, y)) == Size(v) + 1 + Size(y)
    ensures Potential(Wrap(s, v, n, y)) ==
            Potential(v) - Rank(v) + Rank(Mk(s, Kid(v, Other(s)), n, y)) + Potential(y) + Rank(Wrap(s, v, n, y))
  {
    hide Potential, Rank, Mk, Kid;
    var b := Mk(s, Kid(v, Other(s)), n, y);
    KidsPotential(s, v);
    MkPotential(s, Kid(v, Other(s)), n, y);
    MkPotential(s, Kid(v, s), v.n, b);
  }

  // ---------- one splay ----------

  /** Rounds and potential of the result, against the potential before and `bound`. */
  ghost predicate Within(p: Probe, t: Tree, bound: int) {
    Rounds(p, t) + 2 * Potential(Result(p, t)) <= 2 * Potential(t) + bound
  }

  lemma HaltCost(p: Probe, t: Tree)
    requires Halts(p, t)
    ensures Within(p, t, 1)
  {
  }

  /** A rotation that ends the loop. */
  lemma RotateCost(p: Probe, t: Tree)
    requires !Halts(p, t) && Straight(p, t) && Kid(Kid(t, Way(p, t)), Way(p, t)).Leaf?
    ensures Within(p, t, 1 + 2 * Rank(t) - 2 * Rank(Kid(t, Way(p, t))))
  {
    hide Potential, Rank;
    var s := Way(p, t);
    var u, z := Kid(t, s), Kid(t, Other(s));
    var x, y := Kid(u, s), Kid(u, Other(s));
    var yz := Mk(s, y, t.n, z);
    KidsPotential(s, t);
    KidsPotential(s, u);
    MkPotential(s, y, t.n, z);
    MkPotential(s, x, u.n, yz);
    SameRank(Mk(s, x, u.n, yz), t);
    RankMono(yz, t);
  }

  /** A link without rotation leaves the rest to the splay of the child. */
  lemma ZigCost(p: Probe, t: Tree, bound: int)
    requires !Halts(p, t) && !Straight(p, t) && Within(p, Kid(t, Way(p, t)), bound)
    ensures var s := Way(p, t);
            var v := Result(p, Kid(t, s));
            Within(p, t, bound + 1 + 2 * Rank(Mk(s, Kid(v, Other(s)), t.n, Kid(t, Other(s)))) - 2 * Rank(Kid(t, s)))
  {
    hide Potential, Rank, Mk;
    var s := Way(p, t);
    var u, z := Kid(t, s), Kid(t, Other(s));
    var v := Result(p, u);
    KidsPotential(s, t);
    WrapPotential(s, v, t.n, z);
    SameRank(v, u);
    SameRank(Wrap(s, v, t.n, z), t);
  }

  /** A rotation and a link, and one round to spare. */
  lemma ZigZigCost(p: Probe, t: Tree, bound: int)
    requires !Halts(p, t) && Straight(p, t) && Kid(Kid(t, Way(p, t)), Way(p, t)).Bin?
    requires Within(p, Kid(Kid(t, Way(p, t)), Way(p, t)), bound)
    ensures Within(p, t, bound - 1 + 6 * Rank(t) - 6 * Rank(Kid(Kid(t, Way(p, t)), Way(p, t))))
  {
    hide Potential, Rank;
    var s := Way(p, t);
    var u, z := Kid(t, s), Kid(t, Other(s));
    var x, y := Kid(u, s), Kid(u, Other(s));
    var yz, v := Mk(s, y, t.n, z), Result(p, x);
    var low := Mk(s, Kid(v, Other(s)), u.n, yz);
    KidsPotential(s, t);
    KidsPotential(s, u);
    KidsPotential(s, v);
    MkPotential(s, y, t.n, z);
    MkPotential(s, Kid(v, Other(s)), u.n, yz);
    WrapPotential(s, v, u.n, yz);
    SameRank(v, x);
    SameRank(Wrap(s, v, u.n, yz), t);
    RankMono(low, t);
    RankMono(x, u);
    RankPair(x, yz, t);
  }

  /** Two links in opposite directions. */
  lemma ZigZagCost(p: Probe, t: Tree, bound: int)
    requires !Halts(p, t) && !Straight(p, t)
    requires var u := Kid(t, Way(p, t)); Way(p, u) == Other(Way(p, t)) && !Halts(p, u) && !Straight(p, u)
    requires var u := Kid(t, Way(p, t)); Within(p, Kid(u, Way(p, u)), bound)
    ensures var u := Kid(t, Way(p, t)); Within(p, t, bound + 4 * Rank(t) - 4 * Rank(Kid(u, Way(p, u))))
  {
    hide Potential, Rank, Within;
    var s := Way(p, t);
    var u, z := Kid(t, s), Kid(t, Other(s));
    var o := Way(p, u);
    var y, x := Kid(u, o), Kid(u, Other(o));
    var w := Result(p, y);
    var outer := Mk(o, Kid(w, Other(o)), u.n, x);
    ZigCost(p, u, bound);
    var bound' := bound + 1 + 2 * Rank(outer) - 2 * Rank(y);
    assert Within(p, u, bound');
    ZigCost(p, t, bound');
    var v := Result(p, u);
    var inner := Mk(s, Kid(v, Other(s)), t.n, z);
    ZigZagSizes(s, w, u.n, x, t.n, z);
    KidsPotential(s, t);
    KidsPotential(o, u);
    RankPair(outer, inner, t);
    RankMono(y, u);
    Weaken(p, t, bound' + 1 + 2 * Rank(inner) - 2 * Rank(u), bound + 4 * Rank(t) - 4 * Rank(y));
  }

  lemma Weaken(p: Probe, t: Tree, bound: int, bound': int)
    requires Within(p, t, bound) && bound <= bound'
    ensures Within(p, t, bound')
  {
  }

  /** What the two links put aside are parts of the whole on either side of the root. */
  lemma ZigZagSizes(s: Side, w: Tree, m: Node, x: Tree, n: Node, z: Tree)
    requires w.Bin?
    ensures var o := Other(s);
            var outer := Mk(o, Kid(w, Other(o)), m, x);
            var inner := Mk(s, Kid(Wrap(o, w, m, x), Other(s)), n, z);
            Size(outer) + Size(inner) == Size(w) + Size(x) + Size(z) + 1
  {
  }

  /** After a link without rotation the probe lies on the other side of the child. */
  lemma Turn(p: Probe, t: Tree)
    requires !Halts(p, t) && !Straight(p, t) && !Halts(p, Kid(t, Way(p, t)))
    ensures Way(p, Kid(t, Way(p, t))) == Other(Way(p, t))
  {
  }

  lemma ZigBound(p: Probe, t: Tree, bound: int)
    requires !Halts(p, t) && !Straight(p, t) && Within(p, Kid(t, Way(p, t)), bound)
    ensures Within(p, t, bound + 1 + 2 * Rank(t) - 2 * Rank(Kid(t, Way(p, t))))
  {
    hide Potential, Rank, Within;
    var s := Way(p, t);
    var u, z := Kid(t, s), Kid(t, Other(s));
    var v := Result(p, u);
    var inner := Mk(s, Kid(v, Other(s)), t.n, z);
    ZigCost(p, t, bound);
    KidsPotential(s, t);
    KidsPotential(s, v);
    MkPotential(s, Kid(v, Other(s)), t.n, z);
    RankMono(inner, t);
    Weaken(p, t, bound + 1 + 2 * Rank(inner) - 2 * Rank(u), bound + 1 + 2 * Rank(t) - 2 * Rank(u));
  }

  /** The access lemma: rounds plus twice the change of potential are at most six times the
      rank of the tree, plus two. */
  lemma {:induction false} Access(p: Probe, t: Tree)
    ensures Within(p, t, 6 * Rank(t) + 2)
    decreases Size(t), 1
  {
    hide Potential, Rank, Result, Rounds, Within;
    if Halts(p, t) {
      HaltCost(p, t);
      Weaken(p, t, 1, 6 * Rank(t) + 2);
    } else if Straight(p, t) {
      StraightAccess(p, t);
      Weaken(p, t, 6 * Rank(t) + 1, 6 * Rank(t) + 2);
    } else {
      var s := Way(p, t);
      var u := Kid(t, s);
      KidsPotential(s, t);
      RankMono(u, t);
      if Halts(p, u) {
        HaltCost(p, u);
        ZigBound(p, t, 1);
        Weaken(p, t, 2 + 2 * Rank(t) - 2 * Rank(u), 6 * Rank(t) + 2);
      } else if Straight(p, u) {
        StraightAccess(p, u);
        ZigBound(p, t, 6 * Rank(u) + 1);
        Weaken(p, t, 6 * Rank(u) + 2 + 2 * Rank(t) - 2 * Rank(u), 6 * Rank(t) + 2);
      } else {
        var y := Kid(u, Way(p, u));
        KidsPotential(Way(p, u), u);
        Turn(p, t);
        Access(p, y);
        ZigZagCost(p, t, 6 * Rank(y) + 2);
        RankMono(y, t);
        Weaken(p, t, 6 * Rank(y) + 2 + 4 * Rank(t) - 4 * Rank(y), 6 * Rank(t) + 2);
      }
    }
  }

  lemma {:induction false} StraightAccess(p: Probe, t: Tree)
    requires !Halts(p, t) && Straight(p, t)
    ensures Within(p, t, 6 * Rank(t) + 1)
    decreases Size(t), 0
  {
    hide Potential, Rank, Result, Rounds, Within;
    var s := Way(p, t);
    var u := Kid(t, s);
    var x := Kid(u, s);
    KidsPotential(s, t);
    KidsPotential(s, u);
    if x.Leaf? {
      RotateCost(p, t);
      Weaken(p, t, 1 + 2 * Rank(t) - 2 * Rank(u), 6 * Rank(t) + 1);
    } else {
      Access(p, x);
      ZigZigCost(p, t, 6 * Rank(x) + 2);
    }
  }

  // ---------- the operations ----------

  /** Rounds and the new potential are paid for by the old potential and `bound`. */
  ghost predicate Paid(rounds: nat, t: Tree, t': Tree, bound: int) {
    rounds + 2 * Potential(t') <= 2 * Potential(t) + bound
  }

  lemma SplayPaid(p: Probe, t: Tree)
    ensures Paid(Rounds(p, t), t, Result(p, t), 6 * Rank(t) + 2) && Size(Result(p, t)) == Size(t)
  {
    hide Potential, Rank, Result, Rounds;
    Access(p, t);
  }

  lemma FoundPaid(rounds: nat, t: Tree, t': Tree)
    requires Paid(rounds, t, t', 6 * Rank(t) + 2) && Size(t') == Size(t)
    ensures Paid(rounds, t, t', 8 * Rank(t') + 2) && Paid(rounds, t, t', 12 * Rank(t) + 4)
  {
  }

  lemma EmptySize()
    ensures Size(Leaf) == 0
  {
  }

  lemma NothingPaid(t: Tree, bound: nat)
    ensures Paid(0, t, t, bound)
  {
  }

  /** A new element at the root adds at most the rank of the whole. */
  lemma InsertPaid(rounds: nat, t0: Tree, t: Tree, s: Side, elm: Node)
    requires t.Bin? && Size(t) == Size(t0) && Paid(rounds, t0, t, 6 * Rank(t0) + 2)
    ensures var t' := Mk(s, Kid(t, s), elm, Mk(s, Leaf, t.n, Kid(t, Other(s))));
            Paid(rounds, t0, t', 8 * Rank(t') + 2) && Size(t') == Size(t0) + 1
  {
    hide Rank;
    var x, y := Kid(t, s), Kid(t, Other(s));
    var low := Mk(s, Leaf, t.n, y);
    var t' := Mk(s, x, elm, low);
    KidsPotential(s, t);
    MkPotential(s, Leaf, t.n, y);
    MkPotential(s, x, elm, low);
    RankMono(low, t);
    RankMono(t0, t');
  }

  lemma FirstPaid(n: Node)
    ensures Paid(0, Leaf, Bin(Leaf, n, Leaf), 8 * Rank(Bin(Leaf, n, Leaf)) + 2) && Size(Bin(Leaf, n, Leaf)) == 1
  {
  }

  lemma CutPaid(rounds: nat, t0: Tree, t: Tree)
    requires t.Bin? && t.l.Leaf? && Size(t) == Size(t0) && Paid(rounds, t0, t, 6 * Rank(t0) + 2)
    ensures Paid(rounds, t0, t.r, 12 * Rank(t0) + 4) && Size(t.r) == Size(t0) - 1
  {
    hide Rank;
  }

  /** The two splays of a removal. */
  lemma JoinPaid(rounds: nat, t0: Tree, t: Tree, more: nat, u: Tree)
    requires t.Bin? && u.Bin? && u.r.Leaf? && Size(t) == Size(t0) && Size(u) == Size(t.l)
    requires Paid(rounds, t0, t, 6 * Rank(t0) + 2) && Paid(more, t.l, u, 6 * Rank(t.l) + 2)
    ensures Paid(rounds + more, t0, Bin(u.l, u.n, t.r), 12 * Rank(t0) + 4) && Size(Bin(u.l, u.n, t.r)) == Size(t0) - 1
  {
    hide Rank;
    RankMono(t.l, t0);
    RankMono(Bin(u.l, u.n, t.r), t);
  }
}
