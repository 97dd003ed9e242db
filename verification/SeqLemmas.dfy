/** Regrouping facts about sequence concatenation. */
module SeqLemmas {
  lemma Regroup<T>(a: seq<T>, b: seq<T>, c: seq<T>, d: seq<T>, e: seq<T>)
    ensures a + (b + c + d) + e == a + b + (c + d + e) == (a + b + c) + d + e == (a + b) + c + (d + e)
  {
  }

  lemma Associate<T>(a: seq<T>, b: seq<T>, c: seq<T>, d: seq<T>)
    ensures a + (b + c + d) == a + b + c + d
  {
  }

  lemma Shift<T>(a: seq<T>, n: T, b: seq<T>, m: T, c: seq<T>)
    ensures (a + [n] + b) + [m] + c == a + [n] + (b + [m] + c)
  {
  }
}
