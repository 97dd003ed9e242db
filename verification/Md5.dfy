/** The incremental MD5 of misclib/md5.c: a staging buffer that is flushed lazily, a
    two-word byte counter and padding in place, against the one-shot definition of
    sections 3.1 to 3.5 of RFC 1321. */
module Md5 {
  import opened Md5Block

  const INIT := State(0x67452301, 0xefcdab89, 0x98badcfe, 0x10325476)
  const M32: nat := 0x1_0000_0000
  const M64: nat := 0x1_0000_0000_0000_0000

  // ---------- RFC 1321 ----------

  /** Section 3.4: the blocks of a message, one after the other. */
  function Fold(s: State, data: seq<Byte>): State
    requires |data| % 64 == 0
  {
    if data == [] then s
    else RfcCompress(Fold(s, data[..|data| - 64]), data[|data| - 64..])
  }

  function Zeros(n: nat): seq<Byte> { seq(n, _ => 0) }

  /** Section 3.1: bytes to add so that 8 more reach a multiple of 64; at least one. */
  function PadLen(n: nat): (p: nat)
    ensures 1 <= p <= 64 && (n + p) % 64 == 56
  {
    if n % 64 < 56 then 56 - n % 64 else 120 - n % 64
  }

  /** The low-order `k` bytes of a number, low-order byte first. */
  function Bytes(x: nat, k: nat): (b: seq<Byte>)
    ensures |b| == k
  {
    if k == 0 then [] else [LowByte(x)] + Bytes(x / 256, k - 1)
  }

  function LowByte(x: nat): Byte { (x % 256) as Byte }

  /** Sections 3.1 and 3.2: a 1 bit, zeros, and the message's length in bits. */
  function Padding(n: nat): seq<Byte> {
    [0x80] + Zeros(PadLen(n) - 1) + Bytes(8 * n % M64, 8)
  }

  /** Sections 3.3 to 3.5: the digest registers of a whole message. */
  function Digest(msg: seq<Byte>): State {
    PaddedLength(msg);
    Fold(INIT, msg + Padding(|msg|))
  }

  lemma PaddedLength(msg: seq<Byte>)
    ensures |msg + Padding(|msg|)| % 64 == 0
  {
    hide Bytes;
    assert |Padding(|msg|)| == PadLen(|msg|) + 8;
  }

  lemma FoldLast(s: State, data: seq<Byte>)
    requires |data| % 64 == 0 && data != []
    ensures var m := |data| - 64;
            m >= 0 && m % 64 == 0 && Fold(s, data) == RfcCompress(Fold(s, data[..m]), data[m..])
  {
    hide RfcCompress;
  }

  lemma FoldNone(s: State)
    ensures Fold(s, []) == s
  {
  }

  lemma {:induction false} FoldConcat(s: State, a: seq<Byte>, b: seq<Byte>)
    requires |a| % 64 == 0 && |b| % 64 == 0
    ensures |a + b| % 64 == 0 && Fold(s, a + b) == Fold(Fold(s, a), b)
    decreases |b|
  {
    hide *;
    if b == [] {
      assert a + b == a;
      FoldNone(Fold(s, a));
    } else {
      var m := |b| - 64;
      FoldConcat(s, a, b[..m]);
      assert (a + b)[..|a| + m] == a + b[..m] && (a + b)[|a| + m..] == b[m..];
      FoldLast(s, a + b);
      FoldLast(Fold(s, a), b);
    }
  }

  // ---------- the counter ----------

  /** `total[0] += len; if (total[0] < len) ++total[1];` on 32-bit words, with a `len` of
      machine size. */
  function CountUp(t0: nat, t1: nat, len: nat): (nat, nat) {
    var n0 := (t0 + len) % M32;
    (n0, if n0 < len then (t1 + 1) % M32 else t1)
  }

  /** The two counter words hold `n` modulo 2^64. */
  predicate Counts(t0: nat, t1: nat, n: nat) {
    t0 < M32 && t1 < M32 && t0 + M32 * t1 == n % M64
  }

  predicate CarryFits(t0: nat, len: nat) { len < M32 || t0 + len < 2 * M32 }

  /** For a length that fits a 64-bit size, the carry test counts right exactly when the length
      is below 2^32 or the low word overflows only once. */
  lemma CarryExact(t0: nat, t1: nat, n: nat, len: nat)
    requires Counts(t0, t1, n) && len < M64
    ensures Counts(CountUp(t0, t1, len).0, CountUp(t0, t1, len).1, n + len) <==> CarryFits(t0, len)
  {
    var q, r := (t0 + len) / M32, (t0 + len) % M32;
    var c := if r < len then 1 else 0;
    CountMod(t0, t1, n, len);
    assert Counts(CountUp(t0, t1, len).0, CountUp(t0, t1, len).1, n + len) <==> (t1 + c) % M32 == (t1 + q) % M32 by {
      hide CarryFits;
    }
    hide Counts, CountUp;
    CarryBits(t0, len);
    SameWord(t1, c, q);
  }

  /** The carry test against the number of overflows. */
  lemma CarryBits(t0: nat, len: nat)
    requires t0 < M32 && len < M64
    ensures var q, r := (t0 + len) / M32, (t0 + len) % M32;
            var c := if r < len then 1 else 0;
            q <= M32 && (c == q <==> CarryFits(t0, len)) && (q == M32 ==> c == 1)
  {
  }

  lemma SameWord(t1: nat, c: nat, q: nat)
    requires t1 < M32 && c <= 1 && q <= M32 && (q == M32 ==> c == 1)
    ensures (t1 + c) % M32 == (t1 + q) % M32 <==> c == q
  {
  }

  lemma CountMod(t0: nat, t1: nat, n: nat, len: nat)
    requires Counts(t0, t1, n)
    ensures (n + len) % M64 == (t0 + len) % M32 + M32 * ((t1 + (t0 + len) / M32) % M32)
  {
    var q, r := (t0 + len) / M32, (t0 + len) % M32;
    ModAdd(n, len);
    assert t0 + M32 * t1 + len == r + M32 * (t1 + q);
    WordMod(r, t1 + q);
  }

  lemma ModAdd(n: nat, m: nat)
    ensures (n + m) % M64 == (n % M64 + m) % M64
  {
    var q := n / M64;
    assert n + m == n % M64 + m + M64 * q;
    ModSkip(n % M64 + m, q);
  }

  lemma WordMod(r: nat, h: nat)
    requires r < M32
    ensures (r + M32 * h) % M64 == r + M32 * (h % M32)
  {
  }

  // ---------- which calls the counter can take ----------

  /** How many bytes of a call of `len` bytes join `staged` earlier ones in the buffer. */
  function Joining(staged: nat, len: nat): (add: nat)
    requires staged <= 64
    ensures add <= len
  {
    if staged == 0 then 0 else if 128 - staged > len then len else 128 - staged
  }

  /** How many bytes of the call are processed straight from the input. */
  function Straight(staged: nat, len: nat): (n: nat)
    requires staged <= 64
    ensures Joining(staged, len) + n <= len && n % 64 == 0
  {
    var rest := len - Joining(staged, len);
    if rest > 64 then rest - rest % 64 else 0
  }

  /** How many bytes leave the buffer first. */
  function Flushed(staged: nat, len: nat): nat
    requires staged <= 64
  {
    var sum := staged + Joining(staged, len);
    if staged > 0 && sum > 64 then sum - sum % 64 else 0
  }

  /** The counter after the call. */
  function CallCount(t0: nat, t1: nat, staged: nat, len: nat): (nat, nat)
    requires staged <= 64
  {
    var c := CountUp(t0, t1, Flushed(staged, len));
    CountUp(c.0, c.1, Straight(staged, len))
  }

  lemma CountNothing(t0: nat, t1: nat)
    ensures t0 < M32 ==> CountUp(t0, t1, 0) == (t0, t1)
  {
  }

  lemma CountUpRange(t0: nat, t1: nat, len: nat)
    requires t0 < M32 && t1 < M32
    ensures CountUp(t0, t1, len).0 < M32 && CountUp(t0, t1, len).1 < M32
  {
  }

  /** How many bytes are staged after the call. */
  function StagedAfter(staged: nat, len: nat): (n: nat)
    requires staged <= 64
    ensures n <= 64
  {
    var add := Joining(staged, len);
    var rest := len - add;
    if rest > 64 then rest % 64
    else if rest > 0 then rest
    else if staged + add > 64 then (staged + add) % 64 else staged + add
  }

  lemma JoiningFacts(staged: nat, len: nat)
    requires 0 < staged <= 64
    ensures var add := Joining(staged, len);
            var sum := staged + add;
            && add == (if 128 - staged > len then len else 128 - staged) && sum <= 128
            && Flushed(staged, len) == (if sum > 64 then sum - sum % 64 else 0)
            && (add == len ==> StagedAfter(staged, len) == if sum > 64 then sum % 64 else sum)
            && (add < len ==> sum == 128)
  {
  }

  /** The carry test counts the call right, after `fed` bytes. */
  predicate CallFits(fed: nat, staged: nat, len: nat)
    requires staged <= 64
  {
    CarryFits((fed + Joining(staged, len)) % M32, Straight(staged, len))
  }

  /** A call in terms of the bytes that do not join the staged ones. */
  lemma CallFacts(fed: nat, staged: nat, len: nat, t0: nat, t1: nat)
    requires staged <= 64
    ensures var rest := len - Joining(staged, len);
            var n := if rest > 64 then rest - rest % 64 else 0;
            var c := CountUp(t0, t1, Flushed(staged, len));
            && CallCount(t0, t1, staged, len) == CountUp(c.0, c.1, n)
            && (CallFits(fed, staged, len) <==> (rest > 64 ==> CarryFits((fed + len - rest) % M32, n)))
            && (rest > 0 ==> StagedAfter(staged, len) == if rest > 64 then rest % 64 else rest)
            && (staged == 0 ==> rest == len && Flushed(staged, len) == 0)
            && (staged == 0 && len == 0 ==> StagedAfter(staged, len) == 0)
  {
    hide CountUp;
  }

  /** The same for every call of a sequence. */
  predicate CallsFit(fed: nat, staged: nat, chunks: seq<seq<Byte>>)
    requires staged <= 64
    decreases |chunks|
  {
    chunks != [] ==>
      && CallFits(fed, staged, |chunks[0]|)
      && CallsFit(fed + |chunks[0]|, StagedAfter(staged, |chunks[0]|), chunks[1..])
  }

  lemma WordRest(t0: nat, k: nat)
    requires t0 < M32
    ensures (t0 + M32 * k) % M32 == t0
  {
  }

  lemma LowWord(t0: nat, t1: nat, n: nat)
    requires Counts(t0, t1, n)
    ensures t0 == n % M32
  {
    var q := n / M64;
    assert n == M64 * q + n % M64;
    assert n == t0 + M32 * (t1 + M32 * q);
    hide Counts;
    WordRest(t0, t1 + M32 * q);
  }

  /** Given a right count of all that came before, the count after the call's whole blocks is
      right if and only if the call fits. */
  lemma CallExact(t0: nat, t1: nat, fed: nat, staged: nat, len: nat)
    requires staged <= 64 && len < M64 && Counts(t0, t1, fed + Joining(staged, len))
    ensures var n := Straight(staged, len);
            var c := CountUp(t0, t1, n);
            Counts(c.0, c.1, fed + Joining(staged, len) + n) <==> CallFits(fed, staged, len)
  {
    hide Counts, CountUp, Joining, Straight;
    LowWord(t0, t1, fed + Joining(staged, len));
    CarryExact(t0, t1, fed + Joining(staged, len), Straight(staged, len));
  }

  /** Calls below 2^32 bytes always fit, in any sequence. */
  lemma {:induction false} SmallCallsFit(fed: nat, staged: nat, chunks: seq<seq<Byte>>)
    requires staged <= 64 && forall i :: 0 <= i < |chunks| ==> |chunks[i]| < M32
    ensures CallsFit(fed, staged, chunks)
    decreases |chunks|
  {
    hide StagedAfter;
    if chunks != [] {
      SmallCallsFit(fed + |chunks[0]|, StagedAfter(staged, |chunks[0]|), chunks[1..]);
    }
  }

  /** A message in one call fits if and only if it is shorter than 2^33 bytes. */
  lemma SumFits(len: nat)
    requires len < M64
    ensures CallFits(0, 0, len) <==> len < 2 * M32
  {
  }

  /** One call of 2^33 bytes on a fresh context is counted as 2^32. */
  lemma HugeCall()
    ensures !CallFits(0, 0, 2 * M32)
    ensures CountUp(0, 0, 2 * M32) == (0, 1) && Counts(0, 1, M32) && !Counts(0, 1, 2 * M32)
  {
    SumFits(2 * M32);
  }

  // ---------- lost carries do not come back ----------

  /** The counter is behind the true count of `n` bytes by whole multiples of 2^32, or right. */
  predicate Behind(t0: nat, t1: nat, n: nat, right: bool) {
    && t0 < M32 && t1 < M32 && t0 == n % M32
    && t0 + M32 * t1 <= n && (right <==> t0 + M32 * t1 == n)
  }

  /** Below 2^64 bytes in all, a counter that was wrong stays wrong, and one that was right stays
      right exactly when it can take the length. */
  lemma BehindNext(t0: nat, t1: nat, n: nat, right: bool, len: nat)
    requires Behind(t0, t1, n, right) && n + len < M64
    ensures var c := CountUp(t0, t1, len); Behind(c.0, c.1, n + len, right && CarryFits(t0, len))
  {
    hide CarryFits;
    var q, rest := (t0 + len) / M32, (t0 + len) % M32;
    var c := if rest < len then 1 else 0;
    CarryBits(t0, len);
    CarryBelow(t0, len);
    assert rest + M32 * (t1 + q) == t0 + M32 * t1 + len;
    assert t1 + q < M32;
    assert (t1 + c) % M32 == t1 + c;
    LowWords(t0, n, len);
  }

  lemma CarryBelow(t0: nat, len: nat)
    requires t0 < M32
    ensures (if (t0 + len) % M32 < len then 1 else 0) <= (t0 + len) / M32
  {
  }

  lemma LowWords(t0: nat, n: nat, len: nat)
    requires t0 == n % M32
    ensures (t0 + len) % M32 == (n + len) % M32
  {
    assert n + len == t0 + len + M32 * (n / M32);
  }

  lemma BehindCounts(t0: nat, t1: nat, n: nat, right: bool)
    requires Behind(t0, t1, n, right) && n < M64
    ensures right <==> Counts(t0, t1, n)
  {
  }

  // ---------- the length field ----------

  /** Bitwise or. */
  function BitOr(x: nat, y: nat): nat {
    if x == 0 then y
    else (if x % 2 == 1 || y % 2 == 1 then 1 else 0) + 2 * BitOr(x / 2, y / 2)
  }

  lemma OrStep(h: nat, g: nat, a: nat)
    requires a < 2
    ensures BitOr(2 * h, 2 * g + a) == 2 * BitOr(h, g) + a
  {
    assert 2 * h / 2 == h && (2 * g + a) / 2 == g && (2 * g + a) % 2 == a;
  }

  lemma {:induction false} OrZero(x: nat)
    ensures BitOr(x, 0) == x
  {
    if x > 0 {
      OrZero(x / 2);
    }
  }

  lemma OrIsSum(x: nat, y: nat)
    requires x % 8 == 0 && y < 8
    ensures BitOr(x, y) == x + y
  {
    hide BitOr;
    assert x == 8 * (x / 8);
    assert y == 4 * (y / 4) + 2 * (y / 2 % 2) + y % 2 by { Bits3(y); }
    OrBits(x / 8, y % 2, y / 2 % 2, y / 4);
  }

  lemma Bits3(y: nat)
    requires y < 8
    ensures y == 4 * (y / 4) + 2 * (y / 2 % 2) + y % 2
  {
  }

  lemma OrBits(z: nat, a: nat, b: nat, c: nat)
    requires a < 2 && b < 2 && c < 2
    ensures BitOr(8 * z, 4 * c + 2 * b + a) == 8 * z + 4 * c + 2 * b + a
  {
    hide BitOr;
    OrStep(4 * z, 2 * c + b, a);
    OrStep(2 * z, c, b);
    OrStep(z, 0, c);
    OrZero(z);
    assert 2 * (4 * z) == 8 * z && 2 * (2 * c + b) + a == 4 * c + 2 * b + a;
    assert 2 * 0 + c == c;
  }

  /** The two words that md5_finish_ctx stores: `total[0] << 3` and
      `(total[1] << 3) | (total[0] >> 29)`. */
  function LengthField(t0: nat, t1: nat): seq<Byte> {
    Bytes(8 * t0 % M32, 4) + Bytes(BitOr(8 * t1 % M32, t0 / 0x2000_0000), 4)
  }

  /** `x` moved up by `j` bytes. */
  function Up(x: nat, j: nat): nat {
    if j == 0 then x else 256 * Up(x, j - 1)
  }

  /** `x` has at most `j` bytes. */
  predicate Fits(x: nat, j: nat) {
    if j == 0 then x == 0 else Fits(x / 256, j - 1)
  }

  lemma {:induction false} BytesSplit(lo: nat, hi: nat, j: nat, k: nat)
    requires Fits(lo, j)
    ensures Bytes(lo + Up(hi, j), j + k) == Bytes(lo, j) + Bytes(hi, k)
    decreases j
  {
    hide Bytes, LowByte;
    if j == 0 {
      assert Bytes(lo, 0) == [];
    } else {
      Shift8(lo, Up(hi, j - 1));
      BytesSplit(lo / 256, hi, j - 1, k);
      FirstByte(lo + Up(hi, j), j + k);
      FirstByte(lo, j);
    }
  }

  lemma FirstByte(x: nat, k: nat)
    requires k > 0
    ensures Bytes(x, k) == [LowByte(x)] + Bytes(x / 256, k - 1)
  {
  }

  lemma Shift8(lo: nat, q: nat)
    ensures LowByte(lo + 256 * q) == LowByte(lo) && (lo + 256 * q) / 256 == lo / 256 + q
  {
    assert (lo + 256 * q) % 256 == lo % 256;
  }

  /** The stored field is the length in bits, low-order word first. */
  lemma LengthFieldRight(t0: nat, t1: nat, n: nat)
    requires Counts(t0, t1, n)
    ensures LengthField(t0, t1) == Bytes(8 * n % M64, 8)
  {
    hide Bytes, Up, Fits, BitOr, Counts;
    var lo, hi := 8 * t0 % M32, 8 * t1 % M32 + t0 / 0x2000_0000;
    BitLength(t0, t1, n);
    OrIsSum(8 * t1 % M32, t0 / 0x2000_0000);
    FourBytes(lo, hi);
    BytesSplit(lo, hi, 4, 4);
  }

  lemma BitLength(t0: nat, t1: nat, n: nat)
    requires Counts(t0, t1, n)
    ensures t0 / 0x2000_0000 < 8 && 8 * t1 % M32 % 8 == 0
    ensures 8 * n % M64 == 8 * t0 % M32 + M32 * (8 * t1 % M32 + t0 / 0x2000_0000)
  {
    var lo, c := 8 * t0 % M32, t0 / 0x2000_0000;
    assert 8 * t0 == lo + M32 * c;
    WordMod(lo, c + 8 * t1);
    HighWord(c, t1);
    EightTimes(n);
  }

  lemma FourBytes(lo: nat, hi: nat)
    requires lo < M32
    ensures Fits(lo, 4) && Up(hi, 4) == M32 * hi
  {
    assert Fits(lo / 256 / 256, 2);
    assert Up(hi, 1) == 256 * hi;
    assert Up(hi, 2) == 65536 * hi;
  }

  lemma HighWord(c: nat, t1: nat)
    requires c < 8
    ensures (c + 8 * t1) % M32 == 8 * t1 % M32 + c
  {
  }

  lemma EightTimes(n: nat)
    ensures 8 * n % M64 == 8 * (n % M64) % M64
  {
    var q, r := n / M64, n % M64;
    assert 8 * n == 8 * r + M64 * (8 * q);
    ModSkip(8 * r, 8 * q);
  }

  lemma ModSkip(a: nat, k: nat)
    ensures (a + M64 * k) % M64 == a % M64
  {
  }
}
