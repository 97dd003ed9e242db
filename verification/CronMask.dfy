/** Bit masks of the cron table: 64 bits for minutes, 32 for the other fields. */
module CronMask {

  /** A shift distance below 64, as a word. */
  function Distance(k: nat): bv6
    requires k < 64
  {
    if k == 0 then 0 else Distance(k - 1) + 1
  }

  lemma {:induction false} DistanceBack(n: nat)
    requires n < 64
    ensures Distance(n) as nat == n
  {
    if n > 0 {
      DistanceBack(n - 1);
      Successor(Distance(n - 1));
    }
  }

  lemma DistanceExact(n: nat, k: nat)
    requires n < 64 && k < 64
    ensures Distance(n) == Distance(k) <==> n == k
  {
    hide Distance;
    DistanceBack(n);
    DistanceBack(k);
  }

  lemma DistanceNext(n: nat)
    requires n < 63
    ensures Distance(n + 1) == Distance(n) + 1 && Distance(0) == 0
  {
  }

  lemma Successor(d: bv6)
    ensures d < 63 <==> d as nat < 63
    ensures d < 63 ==> (d + 1) as nat == d as nat + 1
  {
  }

  function Shift64(d: bv6): bv64 { 1 << d }

  function Shift32(d: bv6): bv32 { if d < 32 then 1 << d else 0 }

  /** The words with bit k alone. */
  function Bit64(k: nat): bv64
    requires k < 64
  {
    Shift64(Distance(k))
  }

  function Bit32(k: nat): bv32
    requires k < 64
  {
    Shift32(Distance(k))
  }

  function And64(m: bv64, o: bv64): bv64 { m & o }

  function And32(m: bv32, o: bv32): bv32 { m & o }

  function Or64(m: bv64, o: bv64): bv64 { m | o }

  function Or32(m: bv32, o: bv32): bv32 { m | o }

  predicate Has64(m: bv64, k: nat)
    requires k < 64
  {
    And64(m, Bit64(k)) != 0
  }

  predicate Has32(m: bv32, k: nat)
    requires k < 32
  {
    And32(m, Bit32(k)) != 0
  }

  lemma Distribute64(m: bv64, o: bv64, b: bv64)
    ensures And64(Or64(m, o), b) == Or64(And64(m, b), And64(o, b))
  {
    assert (m | o) & b == (m & b) | (o & b);
  }

  lemma Distribute32(m: bv32, o: bv32, b: bv32)
    ensures And32(Or32(m, o), b) == Or32(And32(m, b), And32(o, b))
  {
    assert (m | o) & b == (m & b) | (o & b);
  }

  lemma OrZero(m: bv64, o: bv64, m': bv32, o': bv32)
    ensures Or64(m, o) == 0 <==> m == 0 && o == 0
    ensures Or32(m', o') == 0 <==> m' == 0 && o' == 0
  {
  }

  lemma Shifts(a: bv6, b: bv6)
    ensures And64(Shift64(a), Shift64(b)) != 0 <==> a == b
    ensures b < 32 ==> (And32(Shift32(a), Shift32(b)) != 0 <==> a == b)
  {
  }

  lemma ShiftNext(a: bv6)
    requires a < 63
    ensures Shift64(a) << 1 == Shift64(a + 1)
    ensures Shift32(a) << 1 == Shift32(a + 1)
    ensures Shift64(0) == 1 && Shift32(0) == 1
  {
  }

  lemma HasOr(m: bv64, o: bv64, m': bv32, o': bv32, k: nat)
    requires k < 64
    ensures Has64(Or64(m, o), k) <==> Has64(m, k) || Has64(o, k)
    ensures k < 32 ==> (Has32(Or32(m', o'), k) <==> Has32(m', k) || Has32(o', k))
  {
    hide Or64, And64, Bit64, Or32, And32, Bit32;
    var b, b' := Bit64(k), Bit32(k);
    Distribute64(m, o, b);
    Distribute32(m', o', b');
    OrZero(And64(m, b), And64(o, b), And32(m', b'), And32(o', b'));
  }

  lemma HasBit(n: nat, k: nat)
    requires n < 64 && k < 64
    ensures Has64(Bit64(n), k) <==> n == k
    ensures k < 32 ==> (Has32(Bit32(n), k) <==> n == k)
  {
    hide Shift64, Shift32, Distance, And64, And32;
    Shifts(Distance(n), Distance(k));
    DistanceExact(n, k);
    Small(k);
  }

  lemma Small(k: nat)
    requires k < 64
    ensures k < 32 <==> Distance(k) < 32
    ensures k < 63 <==> Distance(k) < 63
  {
    hide Distance;
    DistanceBack(k);
    Below(Distance(k));
  }

  lemma Below(d: bv6)
    ensures d < 32 <==> d as nat < 32
    ensures d < 63 <==> d as nat < 63
  {
  }

  lemma BitNext(k: nat)
    requires k < 63
    ensures Bit64(k) << 1 == Bit64(k + 1) && Bit32(k) << 1 == Bit32(k + 1)
    ensures Bit64(0) == 1 && Bit32(0) == 1
  {
    hide Shift64, Shift32, Distance, And64, And32;
    Small(k);
    DistanceNext(k);
    ShiftNext(Distance(k));
  }

  /** The words of a star: every bit but the topmost of the long one. */
  const STAR64: bv64 := 0x7fffffffffffffff
  const STAR32: bv32 := 0xffffffff

  lemma StarShift(d: bv6)
    ensures And64(STAR64, Shift64(d)) != 0 <==> d < 63
    ensures d < 32 ==> And32(STAR32, Shift32(d)) != 0
  {
  }

  lemma HasStar(k: nat)
    requires k < 64
    ensures Has64(STAR64, k) <==> k < 63
    ensures k < 32 ==> Has32(STAR32, k)
  {
    hide Shift64, Shift32, Distance, And64, And32;
    StarShift(Distance(k));
    Small(k);
  }

  lemma HasNone(k: nat)
    requires k < 64
    ensures !Has64(0, k)
    ensures k < 32 ==> !Has32(0, k)
  {
  }
}
