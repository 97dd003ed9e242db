/** Remainders of counts that go round a ring. */
module ModArith {

  lemma MulBound(n: int, d: int)
    requires n >= 0
    ensures d >= 1 ==> n * d >= n
    ensures d <= -1 ==> n * d <= -n
  {
  }

  lemma ModUnique(x: nat, q: nat, r: nat, n: nat)
    requires n > 0 && x == n * q + r && r < n
    ensures x % n == r && x / n == q
  {
    var d := q - x / n;
    assert n * d == n * q - n * (x / n);
    MulBound(n, d);
  }

  lemma ModNext(k: nat, n: nat)
    requires n > 0
    ensures (k % n + 1) % n == (k + 1) % n
  {
    var q, r := k / n, k % n;
    if r + 1 < n {
      ModUnique(k + 1, q, r + 1, n);
      ModUnique(r + 1, 0, r + 1, n);
    } else {
      assert n * (q + 1) == n * q + n;
      ModUnique(k + 1, q + 1, 0, n);
      ModUnique(r + 1, 1, 0, n);
    }
  }

  /** Counts less than one turn apart fall on different slots. */
  lemma OneTurn(j: nat, k: nat, n: nat)
    requires n > 0 && j < k < j + n
    ensures j % n != k % n
  {
    var d := k / n - j / n;
    assert n * d == n * (k / n) - n * (j / n);
    MulBound(n, d);
  }
}
