/** Whole histories of a red-black tree: any sequence of insertions and removals,
    starting from the empty tree. */
module RbRun {
  import opened RbTree
  import opened RbHeap

  datatype Op = Put(k: int) | Del(k: int)

  function Keys(s: seq<Node>): set<int> { set n | n in SetOf(s) :: n.key }

  /** The key set that a history leaves. */
  function Outcome(ops: seq<Op>): set<int> {
    if ops == [] then {}
    else
      var before, op := Outcome(ops[..|ops| - 1]), ops[|ops| - 1];
      if op.Put? then before + {op.k} else before - {op.k}
  }

  lemma KeysPut(s: seq<Node>, s': seq<Node>, n: Node)
    requires n in s' && Without(s', n) == s
    ensures Keys(s') == Keys(s) + {n.key}
  {
    WithoutSet(s', n);
    assert SetOf(s') == SetOf(s) + {n};
  }

  lemma KeysDel(s: seq<Node>, n: Node)
    requires Sorted(s) && n in s
    ensures Keys(Without(s, n)) == Keys(s) - {n.key}
  {
    WithoutSet(s, n);
    forall x | x in SetOf(s) && x.key == n.key
      ensures x == n
    {
      var i :| 0 <= i < |s| && s[i] == x;
      var j :| 0 <= j < |s| && s[j] == n;
    }
    assert forall x :: x in SetOf(s) && x != n ==> x in SetOf(Without(s, n));
    var l, r := Keys(Without(s, n)), Keys(s) - {n.key};
    assert l <= r;
    forall k | k in r
      ensures k in l
    {
      var x :| x in SetOf(s) && x.key == k;
      assert x in SetOf(Without(s, n));
    }
  }

  lemma EmptyKeys()
    ensures Nodes(Leaf) == {} && Keys(InOrder(Leaf)) == {}
  {
  }

  /** One operation; the steps of searching and repairing are logarithmic. */
  method Apply(h: Head, op: Op) returns (ghost steps: nat)
    requires h.Valid()
    modifies h, Nodes(h.tree)
    ensures h.Valid() && forall n :: n in Nodes(h.tree) ==> n in old(Nodes(h.tree)) || fresh(n)
    ensures steps <= 3 * Height(old(h.tree)) && Logarithmic(old(h.tree))
    ensures Keys(InOrder(h.tree)) ==
            if op.Put? then old(Keys(InOrder(h.tree))) + {op.k} else old(Keys(InOrder(h.tree))) - {op.k}
  {
    hide Nodes, InOrder, RedBlack, Without, Sorted, Height, Logarithmic;
    ghost var s := InOrder(h.tree);
    assert allocated(Nodes(h.tree));
    InOrderNodes(h.tree);
    if op.Put? {
      var n := new Node(op.k);
      assert n !in Nodes(h.tree);
      var r;
      r, steps := h.Insert(n);
      if r == null {
        KeysPut(s, InOrder(h.tree), n);
        WithoutSet(InOrder(h.tree), n);
        InOrderNodes(h.tree);
      }
    } else {
      var r;
      r, steps := h.Find(op.k);
      if r != null {
        assert r in SetOf(s);
        ghost var more;
        var gone;
        gone, more := h.Remove(r);
        steps := steps + more;
        KeysDel(s, r);
        WithoutSet(s, r);
        InOrderNodes(h.tree);
      }
    }
  }

  /** After any history the tree is valid, holds exactly the outcome of the history, and is
      no higher than 2 lg (n + 1). */
  method Run(ops: seq<Op>) returns (h: Head)
    ensures h.Valid() && fresh(h) && forall n :: n in Nodes(h.tree) ==> fresh(n)
    ensures Keys(InOrder(h.tree)) == Outcome(ops)
    ensures Pow2(Height(h.tree)) <= (|InOrder(h.tree)| + 1) * (|InOrder(h.tree)| + 1)
  {
    h := new Head();
    hide InOrder, Keys;
    EmptyKeys();
    for i := 0 to |ops|
      invariant h.Valid() && fresh(h) && forall n :: n in Nodes(h.tree) ==> fresh(n)
      invariant Keys(InOrder(h.tree)) == Outcome(ops[..i])
    {
      ghost var steps := Apply(h, ops[i]);
      assert ops[..i + 1][..i] == ops[..i];
    }
    assert ops[..|ops|] == ops;
    HeightBound(h.tree);
    InOrderSize(h.tree);
  }
}
