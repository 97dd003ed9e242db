/** Whole histories of a splay tree: what any sequence of operations leaves, and what it costs. */
module SplayRun {
  import opened Splay
  import opened SplayCost
  import opened SplayHeap

  datatype Op = Put(k: int) | Del(k: int) | Get(k: int) | First | Last

  function Keys(s: seq<Node>): set<int> { set n | n in SetOf(s) :: n.key }

  function Changed(keys: set<int>, op: Op): set<int> {
    match op
    case Put(k) => keys + {k}
    case Del(k) => keys - {k}
    case _ => keys
  }

  /** The key set that a history leaves. */
  function Outcome(ops: seq<Op>): set<int> {
    if ops == [] then {} else Changed(Outcome(ops[..|ops| - 1]), ops[|ops| - 1])
  }

  /** How many insertions a history has. */
  function Puts(ops: seq<Op>): nat {
    if ops == [] then 0 else Puts(ops[..|ops| - 1]) + if ops[|ops| - 1].Put? then 1 else 0
  }

  lemma KeysMore(s: seq<Node>, n: Node, s': seq<Node>)
    requires OneMore(s, n, s')
    ensures SetOf(s') == SetOf(s) + {n} && Keys(s') == Keys(s) + {n.key}
  {
    var i :| 0 <= i <= |s| && s' == s[..i] + [n] + s[i..];
    assert s == s[..i] + s[i..];
    assert forall x :: x in s' <==> x in s[..i] || x == n || x in s[i..];
    assert forall x :: x in s <==> x in s[..i] || x in s[i..];
    assert SetOf(s') == SetOf(s) + {n};
  }

  lemma OtherKeys(s: seq<Node>, n: Node, s': seq<Node>)
    requires OneMore(s, n, s') && Sorted(s')
    ensures forall x :: x in s ==> x.key != n.key
  {
    var i :| 0 <= i <= |s| && s' == s[..i] + [n] + s[i..];
    forall x | x in s ensures x.key != n.key {
      var j :| 0 <= j < |s| && s[j] == x;
      assert s'[i] == n && s'[if j < i then j else j + 1] == x;
    }
  }

  lemma KeysFewer(s: seq<Node>, n: Node, s': seq<Node>)
    requires OneMore(s, n, s') && Sorted(s')
    ensures Keys(s) == Keys(s') - {n.key}
  {
    hide OneMore, Sorted;
    KeysMore(s, n, s');
    OtherKeys(s, n, s');
  }

  lemma EmptyTree()
    ensures Nodes(Leaf) == {} && Keys(InOrder(Leaf)) == {} && Potential(Leaf) == Size(Leaf) == 0
  {
  }

  /** The share of one operation, for trees of at most `n` elements. */
  function Share(n: nat): nat { 12 * Lg(n + 1) + 4 }

  lemma WithinShare(rounds: nat, t: Tree, t': Tree, bound: int, size: nat, n: nat)
    requires Paid(rounds, t, t', bound) && size <= n && bound <= 12 * Lg(size + 1) + 4
    ensures Paid(rounds, t, t', Share(n))
  {
    hide Lg, Potential;
    LgMono(size + 1, n + 1);
  }

  lemma RankIs(t: Tree)
    ensures Rank(t) == Lg(Size(t) + 1)
  {
  }

  method ApplyPut(h: Head, k: int, ghost n: nat) returns (ghost rounds: nat)
    requires h.Valid() && Size(h.tree) + 1 <= n
    modifies h, Nodes(h.tree)
    ensures h.Valid() && forall x :: x in Nodes(h.tree) ==> x in old(Nodes(h.tree)) || fresh(x)
    ensures Keys(InOrder(h.tree)) == old(Keys(InOrder(h.tree))) + {k}
    ensures Size(h.tree) <= old(Size(h.tree)) + 1 && Paid(rounds, old(h.tree), h.tree, Share(n))
  {
    hide Nodes, InOrder, Size, Rank, Potential, Paid, Lg, Sorted, Share, Split, OneMore, Keys;
    ghost var t, s := h.tree, InOrder(h.tree);
    assert allocated(Nodes(h.tree));
    InOrderNodes(t);
    var elm := new Node(k);
    var r;
    r, rounds := h.Insert(elm);
    InOrderNodes(h.tree);
    RankIs(h.tree);
    WithinShare(rounds, t, h.tree, 8 * Rank(h.tree) + 2, Size(h.tree), n);
    if r == null {
      KeysMore(s, elm, InOrder(h.tree));
    } else {
      HasKey(s, r);
    }
  }

  method ApplyDel(h: Head, k: int, ghost n: nat) returns (ghost rounds: nat)
    requires h.Valid() && Size(h.tree) <= n
    modifies h, Nodes(h.tree)
    ensures h.Valid() && forall x :: x in Nodes(h.tree) ==> x in old(Nodes(h.tree)) || fresh(x)
    ensures Keys(InOrder(h.tree)) == old(Keys(InOrder(h.tree))) - {k}
    ensures Size(h.tree) <= old(Size(h.tree)) && Paid(rounds, old(h.tree), h.tree, Share(n))
  {
    hide Nodes, InOrder, Size, Rank, Potential, Paid, Lg, Sorted, Share, Split, OneMore, Keys;
    ghost var t, s := h.tree, InOrder(h.tree);
    assert allocated(Nodes(h.tree));
    InOrderNodes(t);
    RankIs(t);
    var elm := new Node(k);
    var r;
    r, rounds := h.Remove(elm);
    InOrderNodes(h.tree);
    WithinShare(rounds, t, h.tree, 12 * Rank(t) + 4, Size(t), n);
    if r == null {
      LacksKey(s, k);
    } else {
      ghost var gone: Node :| gone.key == k && OneMore(InOrder(h.tree), gone, s);
      KeysFewer(InOrder(h.tree), gone, s);
      KeysMore(InOrder(h.tree), gone, s);
    }
  }

  /** One operation on a tree that never has more than `n` elements. */
  method Apply(h: Head, op: Op, ghost n: nat) returns (ghost rounds: nat)
    requires h.Valid() && Size(h.tree) + (if op.Put? then 1 else 0) <= n
    modifies h, Nodes(h.tree)
    ensures h.Valid() && forall x :: x in Nodes(h.tree) ==> x in old(Nodes(h.tree)) || fresh(x)
    ensures Keys(InOrder(h.tree)) == Changed(old(Keys(InOrder(h.tree))), op)
    ensures Size(h.tree) <= old(Size(h.tree)) + (if op.Put? then 1 else 0)
    ensures Paid(rounds, old(h.tree), h.tree, Share(n))
  {
    hide Nodes, InOrder, Size, Rank, Potential, Paid, Lg, Sorted, Share, Split, OneMore, Keys;
    ghost var t := h.tree;
    assert allocated(Nodes(h.tree));
    InOrderNodes(t);
    RankIs(t);
    var r;
    match op {
      case Put(k) => rounds := ApplyPut(h, k, n);
      case Del(k) => rounds := ApplyDel(h, k, n);
      case Get(k) =>
        r, rounds := h.Find(k);
        WithinShare(rounds, t, h.tree, 6 * Rank(t) + 2, Size(t), n);
      case First =>
        r, rounds := h.MinMax(-1);
        WithinShare(rounds, t, h.tree, 6 * Rank(t) + 2, Size(t), n);
      case Last =>
        r, rounds := h.MinMax(1);
        WithinShare(rounds, t, h.tree, 6 * Rank(t) + 2, Size(t), n);
    }
    InOrderNodes(h.tree);
  }

  lemma HasKey(s: seq<Node>, n: Node)
    requires n in s
    ensures Keys(s) + {n.key} == Keys(s)
  {
    assert n in SetOf(s);
  }

  lemma LacksKey(s: seq<Node>, k: int)
    requires forall x :: x in s ==> x.key != k
    ensures Keys(s) - {k} == Keys(s)
  {
  }

  lemma {:induction false} PutsMono(ops: seq<Op>, i: nat)
    requires i <= |ops|
    ensures Puts(ops[..i]) <= Puts(ops)
    decreases |ops|
  {
    if i == |ops| {
      assert ops[..i] == ops;
    } else {
      var m := |ops| - 1;
      PutsMono(ops[..m], i);
      assert ops[..m][..i] == ops[..i];
    }
  }

  lemma PutsNext(ops: seq<Op>, i: nat)
    requires i < |ops|
    ensures Puts(ops[..i + 1]) == Puts(ops[..i]) + if ops[i].Put? then 1 else 0
    ensures Outcome(ops[..i + 1]) == Changed(Outcome(ops[..i]), ops[i])
  {
    assert ops[..i + 1][..i] == ops[..i];
  }

  lemma PaidOn(total: nat, m: nat, share: nat, rounds: nat, t: Tree, t': Tree)
    requires total + 2 * Potential(t) <= m * share && Paid(rounds, t, t', share)
    ensures total + rounds + 2 * Potential(t') <= (m + 1) * share
  {
    hide Potential;
    assert (m + 1) * share == m * share + share;
  }

  /** The balance theorem: from the empty tree, m operations of which n are insertions go through
      the splay loop at most m (12 lg (n + 1) + 4) times, and leave exactly the resulting keys. */
  method Run(ops: seq<Op>) returns (h: Head, ghost total: nat)
    ensures h.Valid() && fresh(h) && forall x :: x in Nodes(h.tree) ==> fresh(x)
    ensures Keys(InOrder(h.tree)) == Outcome(ops)
    ensures total <= |ops| * Share(Puts(ops))
  {
    hide InOrder, Keys, Nodes, Size, Potential, Paid, Share, Puts, Outcome, Sorted;
    h := new Head();
    total := 0;
    ghost var n := Puts(ops);
    EmptyTree();
    Nothing();
    assert ops[..0] == [];
    for i := 0 to |ops|
      invariant h.Valid() && fresh(h) && forall x :: x in Nodes(h.tree) ==> fresh(x)
      invariant Keys(InOrder(h.tree)) == Outcome(ops[..i]) && Size(h.tree) <= Puts(ops[..i])
      invariant total + 2 * Potential(h.tree) <= i * Share(n)
    {
      PutsNext(ops, i);
      PutsMono(ops, i + 1);
      ghost var t := h.tree;
      ghost var rounds := Apply(h, ops[i], n);
      PaidOn(total, i, Share(n), rounds, t, h.tree);
      total := total + rounds;
    }
    assert ops[..|ops|] == ops;
  }

  lemma Nothing()
    ensures Outcome([]) == {} && Puts([]) == 0
  {
  }
}
