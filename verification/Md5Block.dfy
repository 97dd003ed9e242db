/** The MD5 compression function: as misclib/md5.c spells it out, and as section 3.4 of
    RFC 1321 defines it. */
module Md5Block {
  type Byte = bv8
  type Word = bv32

  datatype State = State(a: Word, b: Word, c: Word, d: Word)

  // The additive constants of the operations, round by round.

  function TF(j: nat): Word {
    match j
    case 0 => 0xd76aa478 case 1 => 0xe8c7b756 case 2 => 0x242070db case 3 => 0xc1bdceee
    case 4 => 0xf57c0faf case 5 => 0x4787c62a case 6 => 0xa8304613 case 7 => 0xfd469501
    case 8 => 0x698098d8 case 9 => 0x8b44f7af case 10 => 0xffff5bb1 case 11 => 0x895cd7be
    case 12 => 0x6b901122 case 13 => 0xfd987193 case 14 => 0xa679438e case _ => 0x49b40821
  }

  function TG(j: nat): Word {
    match j
    case 0 => 0xf61e2562 case 1 => 0xc040b340 case 2 => 0x265e5a51 case 3 => 0xe9b6c7aa
    case 4 => 0xd62f105d case 5 => 0x02441453 case 6 => 0xd8a1e681 case 7 => 0xe7d3fbc8
    case 8 => 0x21e1cde6 case 9 => 0xc33707d6 case 10 => 0xf4d50d87 case 11 => 0x455a14ed
    case 12 => 0xa9e3e905 case 13 => 0xfcefa3f8 case 14 => 0x676f02d9 case _ => 0x8d2a4c8a
  }

  function TH(j: nat): Word {
    match j
    case 0 => 0xfffa3942 case 1 => 0x8771f681 case 2 => 0x6d9d6122 case 3 => 0xfde5380c
    case 4 => 0xa4beea44 case 5 => 0x4bdecfa9 case 6 => 0xf6bb4b60 case 7 => 0xbebfbc70
    case 8 => 0x289b7ec6 case 9 => 0xeaa127fa case 10 => 0xd4ef3085 case 11 => 0x04881d05
    case 12 => 0xd9d4d039 case 13 => 0xe6db99e5 case 14 => 0x1fa27cf8 case _ => 0xc4ac5665
  }

  function TI(j: nat): Word {
    match j
    case 0 => 0xf4292244 case 1 => 0x432aff97 case 2 => 0xab9423a7 case 3 => 0xfc93a039
    case 4 => 0x655b59c3 case 5 => 0x8f0ccc92 case 6 => 0xffeff47d case 7 => 0x85845dd1
    case 8 => 0x6fa87e4f case 9 => 0xfe2ce6e0 case 10 => 0xa3014314 case 11 => 0x4e0811a1
    case 12 => 0xf7537e82 case 13 => 0xbd3af235 case 14 => 0x2ad7d2bb case _ => 0xeb86d391
  }

  /** The additive constant of operation i, counted over all four rounds. */
  function T(i: nat): Word {
    var j := i % 16;
    if i < 16 then TF(j) else if i < 32 then TG(j) else if i < 48 then TH(j) else TI(j)
  }

  // ---------- the code's 64 operations ----------

  // Operation j of each round: the message word it adds and how far it rotates.

  function OpF(j: nat): (nat, nat) {
    match j
    case 0 => (0, 7) case 1 => (1, 12) case 2 => (2, 17) case 3 => (3, 22)
    case 4 => (4, 7) case 5 => (5, 12) case 6 => (6, 17) case 7 => (7, 22)
    case 8 => (8, 7) case 9 => (9, 12) case 10 => (10, 17) case 11 => (11, 22)
    case 12 => (12, 7) case 13 => (13, 12) case 14 => (14, 17) case _ => (15, 22)
  }

  function OpG(j: nat): (nat, nat) {
    match j
    case 0 => (1, 5) case 1 => (6, 9) case 2 => (11, 14) case 3 => (0, 20)
    case 4 => (5, 5) case 5 => (10, 9) case 6 => (15, 14) case 7 => (4, 20)
    case 8 => (9, 5) case 9 => (14, 9) case 10 => (3, 14) case 11 => (8, 20)
    case 12 => (13, 5) case 13 => (2, 9) case 14 => (7, 14) case _ => (12, 20)
  }

  function OpH(j: nat): (nat, nat) {
    match j
    case 0 => (5, 4) case 1 => (8, 11) case 2 => (11, 16) case 3 => (14, 23)
    case 4 => (1, 4) case 5 => (4, 11) case 6 => (7, 16) case 7 => (10, 23)
    case 8 => (13, 4) case 9 => (0, 11) case 10 => (3, 16) case 11 => (6, 23)
    case 12 => (9, 4) case 13 => (12, 11) case 14 => (15, 16) case _ => (2, 23)
  }

  function OpI(j: nat): (nat, nat) {
    match j
    case 0 => (0, 6) case 1 => (7, 10) case 2 => (14, 15) case 3 => (5, 21)
    case 4 => (12, 6) case 5 => (3, 10) case 6 => (10, 15) case 7 => (1, 21)
    case 8 => (8, 6) case 9 => (15, 10) case 10 => (6, 15) case 11 => (13, 21)
    case 12 => (4, 6) case 13 => (11, 10) case 14 => (2, 15) case _ => (9, 21)
  }

  /** Operation i, counted over all four rounds. */
  function Op(i: nat): (nat, nat) {
    var j := i % 16;
    if i < 16 then OpF(j) else if i < 32 then OpG(j) else if i < 48 then OpH(j) else OpI(j)
  }

  function FF(b: Word, c: Word, d: Word): Word { d ^ (b & (c ^ d)) }

  function FG(b: Word, c: Word, d: Word): Word { FF(d, b, c) }

  function FH(b: Word, c: Word, d: Word): Word { b ^ c ^ d }

  function FI(b: Word, c: Word, d: Word): Word { c ^ (b | !d) }

  /** The round function that operation `i` uses. */
  function CodeMix(i: nat, b: Word, c: Word, d: Word): Word {
    if i < 16 then FF(b, c, d)
    else if i < 32 then FG(b, c, d)
    else if i < 48 then FH(b, c, d)
    else FI(b, c, d)
  }

  function Rotate(w: Word, s: nat): Word
    requires s < 32
  {
    (w << s) | (w >> (32 - s))
  }

  lemma OpRange(i: nat)
    ensures Op(i).0 < 16 && Op(i).1 < 32
  {
  }

  /** One operation: `a += f(b, c, d) + word + constant`, rotate `a`, `a += b`.  The registers
      are named from the operation's own point of view, so the next one sees them shifted. */
  function CodeStep(i: nat, s: State, x: seq<Word>): State
    requires i < 64 && |x| == 16
  {
    OpRange(i);
    State(s.d, CodeNext(s.a, s.b, CodeMix(i, s.b, s.c, s.d), x[Op(i).0], T(i), Op(i).1), s.b, s.c)
  }

  function CodeNext(a: Word, b: Word, f: Word, x: Word, t: Word, s: nat): Word
    requires s < 32
  {
    Rotate(a + (f + x + t), s) + b
  }

  function CodeSteps(i: nat, s: State, x: seq<Word>): State
    requires i <= 64 && |x| == 16
  {
    if i == 0 then s else CodeStep(i - 1, CodeSteps(i - 1, s, x), x)
  }

  function Add(s: State, t: State): State {
    State(s.a + t.a, s.b + t.b, s.c + t.c, s.d + t.d)
  }

  /** Sixteen words from 64 bytes, low-order byte first. */
  function Words(block: seq<Byte>): (x: seq<Word>)
    requires |block| == 64
    ensures |x| == 16
  {
    seq(16, i requires 0 <= i < 16 => WordAt(block, i))
  }

  function WordAt(block: seq<Byte>, i: nat): Word
    requires |block| == 64 && i < 16
  {
    Join(block[4 * i], block[4 * i + 1], block[4 * i + 2], block[4 * i + 3])
  }

  function Join(b0: Byte, b1: Byte, b2: Byte, b3: Byte): Word {
    (b0 as Word) | ((b1 as Word) << 8) | ((b2 as Word) << 16) | ((b3 as Word) << 24)
  }

  /** The rotation by a distance that is a word itself. */
  function Turned(w: Word, d: bv6): Word
    requires 0 < d < 32
  {
    (w << d) | (w >> (32 - d))
  }

  /** Turning left: the low-order bits move up by `d` and the top `d` bits come in at the bottom. */
  lemma TurnedBits(w: Word, d: bv6)
    requires 0 < d < 32
    ensures Turned(w, d) >> d == w & (0xffffffff >> d)
    ensures Turned(w, d) & ((1 << d) - 1) == w >> (32 - d)
  {
  }

  /** The rotations in use, round by round, all turn left. */
  lemma RotateTurns(w: Word)
    ensures Rotate(w, 7) == Turned(w, 7) && Rotate(w, 12) == Turned(w, 12)
    ensures Rotate(w, 17) == Turned(w, 17) && Rotate(w, 22) == Turned(w, 22)
    ensures Rotate(w, 5) == Turned(w, 5) && Rotate(w, 9) == Turned(w, 9)
    ensures Rotate(w, 14) == Turned(w, 14) && Rotate(w, 20) == Turned(w, 20)
    ensures Rotate(w, 4) == Turned(w, 4) && Rotate(w, 11) == Turned(w, 11)
    ensures Rotate(w, 16) == Turned(w, 16) && Rotate(w, 23) == Turned(w, 23)
    ensures Rotate(w, 6) == Turned(w, 6) && Rotate(w, 10) == Turned(w, 10)
    ensures Rotate(w, 15) == Turned(w, 15) && Rotate(w, 21) == Turned(w, 21)
  {
  }

  /** The bytes of a word, low-order byte first. */
  function Split(w: Word): seq<Byte> {
    [(w & 0xff) as Byte, ((w >> 8) & 0xff) as Byte, ((w >> 16) & 0xff) as Byte, ((w >> 24) & 0xff) as Byte]
  }

  lemma JoinSplit(b0: Byte, b1: Byte, b2: Byte, b3: Byte)
    ensures Split(Join(b0, b1, b2, b3)) == [b0, b1, b2, b3]
  {
  }

  lemma JoinValue(b0: Byte, b1: Byte, b2: Byte, b3: Byte)
    ensures Join(b0, b1, b2, b3)
         == (b0 as Word) + 0x100 * (b1 as Word) + 0x10000 * (b2 as Word) + 0x1000000 * (b3 as Word)
  {
  }

  /** What md5_read_ctx stores: the four registers one after the other. */
  function Output(s: State): seq<Byte> { Split(s.a) + Split(s.b) + Split(s.c) + Split(s.d) }

  /** The body of the block loop of md5_process_block. */
  function CodeCompress(s: State, block: seq<Byte>): State
    requires |block| == 64
  {
    Add(CodeSteps(64, s, Words(block)), s)
  }

  // ---------- RFC 1321, section 3.4 ----------

  function RfcF(x: Word, y: Word, z: Word): Word { (x & y) | (!x & z) }

  function RfcG(x: Word, y: Word, z: Word): Word { (x & z) | (y & !z) }

  function RfcH(x: Word, y: Word, z: Word): Word { x ^ y ^ z }

  function RfcI(x: Word, y: Word, z: Word): Word { y ^ (x | !z) }

  function RfcMix(i: nat, x: Word, y: Word, z: Word): Word {
    if i < 16 then RfcF(x, y, z)
    else if i < 32 then RfcG(x, y, z)
    else if i < 48 then RfcH(x, y, z)
    else RfcI(x, y, z)
  }

  function RfcWord(i: nat): nat {
    var j := i % 16;
    if i < 16 then j else if i < 32 then (5 * j + 1) % 16 else if i < 48 then (3 * j + 5) % 16 else (7 * j) % 16
  }

  function Pick(j: nat, s0: nat, s1: nat, s2: nat, s3: nat): nat {
    if j % 4 == 0 then s0 else if j % 4 == 1 then s1 else if j % 4 == 2 then s2 else s3
  }

  function RfcShift(i: nat): nat {
    var j := i % 16;
    if i < 16 then Pick(j, 7, 12, 17, 22)
    else if i < 32 then Pick(j, 5, 9, 14, 20)
    else if i < 48 then Pick(j, 4, 11, 16, 23)
    else Pick(j, 6, 10, 15, 21)
  }

  /** `a = b + ((a + f(b, c, d) + X[k] + T(i)) <<< s)` */
  function RfcStep(i: nat, s: State, x: seq<Word>): State
    requires i < 64 && |x| == 16
  {
    State(s.d, RfcNext(s.a, s.b, RfcMix(i, s.b, s.c, s.d), x[RfcWord(i)], T(i), RfcShift(i)), s.b, s.c)
  }

  function RfcNext(a: Word, b: Word, f: Word, x: Word, t: Word, s: nat): Word
    requires s < 32
  {
    b + Rotate(a + f + x + t, s)
  }

  function RfcSteps(i: nat, s: State, x: seq<Word>): State
    requires i <= 64 && |x| == 16
  {
    if i == 0 then s else RfcStep(i - 1, RfcSteps(i - 1, s, x), x)
  }

  function RfcCompress(s: State, block: seq<Byte>): State
    requires |block| == 64
  {
    Add(s, RfcSteps(64, s, Words(block)))
  }

  // ---------- they agree ----------

  lemma FAgrees(b: Word, c: Word, d: Word)
    ensures FF(b, c, d) == RfcF(b, c, d)
  {
    assert d ^ (b & (c ^ d)) == (b & c) | (!b & d);
  }

  lemma GAgrees(b: Word, c: Word, d: Word)
    ensures FG(b, c, d) == RfcG(b, c, d)
  {
    assert c ^ (d & (b ^ c)) == (b & d) | (c & !d);
  }

  /** The code's shorter forms of F and G compute the same bits. */
  lemma MixersAgree(b: Word, c: Word, d: Word)
    ensures FF(b, c, d) == RfcF(b, c, d) && FG(b, c, d) == RfcG(b, c, d)
    ensures FH(b, c, d) == RfcH(b, c, d) && FI(b, c, d) == RfcI(b, c, d)
  {
    hide FF, FG, RfcF, RfcG;
    FAgrees(b, c, d);
    GAgrees(b, c, d);
  }

  lemma MixAgrees(i: nat, b: Word, c: Word, d: Word)
    ensures CodeMix(i, b, c, d) == RfcMix(i, b, c, d)
  {
    hide FF, FG, FH, FI, RfcF, RfcG, RfcH, RfcI;
    MixersAgree(b, c, d);
  }

  lemma RoundsAgree(j: nat)
    requires j < 16
    ensures OpF(j) == (j, Pick(j, 7, 12, 17, 22))
    ensures OpG(j) == ((5 * j + 1) % 16, Pick(j, 5, 9, 14, 20))
    ensures OpH(j) == ((3 * j + 5) % 16, Pick(j, 4, 11, 16, 23))
    ensures OpI(j) == ((7 * j) % 16, Pick(j, 6, 10, 15, 21))
  {
  }

  lemma ScheduleAgrees(i: nat)
    requires i < 64
    ensures Op(i).0 == RfcWord(i) && Op(i).1 == RfcShift(i)
  {
    hide OpF, OpG, OpH, OpI, Pick;
    RoundsAgree(i % 16);
  }

  lemma NextAgrees(a: Word, b: Word, f: Word, x: Word, t: Word, s: nat)
    requires s < 32
    ensures CodeNext(a, b, f, x, t, s) == RfcNext(a, b, f, x, t, s)
  {
    assert a + (f + x + t) == a + f + x + t;
  }

  lemma StepAgrees(i: nat, s: State, x: seq<Word>)
    requires i < 64 && |x| == 16
    ensures CodeStep(i, s, x) == RfcStep(i, s, x)
  {
    hide Op, T, RfcWord, RfcShift, CodeMix, RfcMix, CodeNext, RfcNext;
    MixAgrees(i, s.b, s.c, s.d);
    ScheduleAgrees(i);
    OpRange(i);
    NextAgrees(s.a, s.b, RfcMix(i, s.b, s.c, s.d), x[Op(i).0], T(i), Op(i).1);
  }

  lemma {:induction false} StepsAgree(i: nat, s: State, x: seq<Word>)
    requires i <= 64 && |x| == 16
    ensures CodeSteps(i, s, x) == RfcSteps(i, s, x)
  {
    if i > 0 {
      hide CodeStep, RfcStep;
      StepsAgree(i - 1, s, x);
      StepAgrees(i - 1, RfcSteps(i - 1, s, x), x);
    }
  }

  lemma AddSwap(s: State, t: State)
    ensures Add(s, t) == Add(t, s)
  {
  }

  /** The code's block function is the RFC's. */
  lemma CompressAgrees(s: State, block: seq<Byte>)
    requires |block| == 64
    ensures CodeCompress(s, block) == RfcCompress(s, block)
  {
    hide CodeSteps, RfcSteps, Words, Add;
    StepsAgree(64, s, Words(block));
    AddSwap(s, RfcSteps(64, s, Words(block)));
  }
}
